/**
 * `getInitials`, written identically in app/profile/ProfileForm.tsx and
 * app/dashboard/DashboardClient.tsx, and the choice both components make
 * between the admin's photo and those initials.
 */
module Initials {
  import opened Common
  import opened Text

  /** Where `getInitials` is defined: the empty name, or a name whose first
      two space-separated pieces (when there are two) are non-empty. A
      leading or doubled space makes JavaScript index an empty piece. */
  predicate InitialsDefined(name: string)
  {
    var parts := Split(name, ' ');
    name == "" || |parts| < 2 || (parts[0] != "" && parts[1] != "")
  }

  /** `getInitials`: "A" for the empty name; with a space, the upper-cased
      first characters of the first two words; otherwise the upper-cased
      first character. The result has one or two characters. */
  function GetInitials(name: string): (r: string)
    requires InitialsDefined(name)
    ensures 1 <= |r| <= 2
    ensures name == "" ==> r == "A"
    ensures name != "" && ' ' !in name ==> r == [UpperChar(name[0])]
  {
    if name == "" then "A"
    else
      var parts := Split(name, ' ');
      assert ' ' !in name ==> |parts| == 1 by {
        if ' ' !in name { SplitWithoutSeparator(name, ' '); }
      }
      if |parts| >= 2 then Upper([parts[0][0], parts[1][0]])
      else Upper([name[0]])
  }

  /** The first piece of `w + tail` is `w` when `w` has no space and `tail` is empty or starts with one. */
  lemma {:induction false} FirstPieceIsWord(w: string, tail: string)
    requires ' ' !in w
    requires tail == [] || tail[0] == ' '
    ensures Split(w + tail, ' ')[0] == w
  {
    if tail == [] {
      assert w + tail == w;
      SplitWithoutSeparator(w, ' ');
    } else {
      assert w + tail == w + [' '] + tail[1..];
      SplitAfterWord(w, tail[1..], ' ');
    }
  }

  /** Two words: the initials are the upper-cased first letters of the first
      two words, and whatever follows the second word does not matter. */
  lemma {:induction false} InitialsOfTwoWords(first: string, second: string, tail: string)
    requires first != "" && second != "" && ' ' !in first && ' ' !in second
    requires tail == [] || tail[0] == ' '
    ensures InitialsDefined(first + " " + second + tail)
    ensures GetInitials(first + " " + second + tail) == [UpperChar(first[0]), UpperChar(second[0])]
  {
    var name := first + " " + second + tail;
    assert name == first + [' '] + (second + tail);
    SplitAfterWord(first, second + tail, ' ');
    FirstPieceIsWord(second, tail);
    assert Split(name, ' ')[1] == Split(second + tail, ' ')[0];
  }

  /** Names that agree on their first two words get the same initials. */
  lemma InitialsOnlyFirstTwoWords(first: string, second: string, tail1: string, tail2: string)
    requires first != "" && second != "" && ' ' !in first && ' ' !in second
    requires tail1 == [] || tail1[0] == ' '
    requires tail2 == [] || tail2[0] == ' '
    ensures InitialsDefined(first + " " + second + tail1) && InitialsDefined(first + " " + second + tail2)
    ensures GetInitials(first + " " + second + tail1) == GetInitials(first + " " + second + tail2)
  {
    InitialsOfTwoWords(first, second, tail1);
    InitialsOfTwoWords(first, second, tail2);
  }

  /** What the avatar shows. */
  datatype Avatar = Photo(url: string) | Monogram(initials: string)

  /** `image ? <Image src={image}/> : getInitials(name)`: the photo when the
      image is a non-empty string, the initials when it is null, absent or "". */
  function AvatarFor(image: Option<string>, name: string): (a: Avatar)
    requires !Truthy(image) ==> InitialsDefined(name)
    ensures a.Monogram? <==> !Truthy(image)
    ensures a.Photo? ==> a.url == image.value
    ensures a.Monogram? ==> a.initials == GetInitials(name)
  {
    if Truthy(image) then Photo(image.value) else Monogram(GetInitials(name))
  }
}
