/**
 * The create-trip form (app/trips/create/CreateTripForm.tsx): its state
 * fields, the handlers that edit the place and image lists, and the submit
 * handler's client-side checks, payload and reset. Each new list is computed
 * by a pure function (the spread or `filter` expression of the handler); the
 * handlers are methods that assign it to the field.
 */
module TripForm {
  import opened Common
  import opened Text
  import opened Checks
  import opened Validation

  predicate NoDuplicates<T(==)>(xs: seq<T>)
  {
    forall i, j | 0 <= i < j < |xs| :: xs[i] != xs[j]
  }

  // ---------------------------------------------------------------- places

  /** `xs.includes(p) ? xs : [...xs, p]` */
  function AddOnce<T(==,!new)>(xs: seq<T>, p: T): (r: seq<T>)
    ensures forall x :: x in r <==> x in xs || x == p
    ensures |xs| <= |r| <= |xs| + 1 && r[..|xs|] == xs
    ensures NoDuplicates(xs) ==> NoDuplicates(r)
  {
    if p in xs then xs
    else
      var r := xs + [p];
      assert r[..|xs|] == xs;
      assert NoDuplicates(xs) ==> NoDuplicates(r) by {
        if NoDuplicates(xs) {
          forall i, j | 0 <= i < j < |r| ensures r[i] != r[j] {
            assert r[i] == xs[i];
            if j == |xs| { assert r[i] in xs; }
          }
        }
      }
      r
  }

  /** The place list after `handlePlaceAdd` fires: the trimmed input, added once. */
  function WithPlace(places: seq<string>, input: string): seq<string>
  {
    AddOnce(places, Trim(input))
  }

  /** A place as the form stores it: non-empty, with no whitespace at either end. */
  predicate IsPlaceName(p: string)
  {
    p != "" && !IsSpace(p[0]) && !IsSpace(p[|p| - 1])
  }

  /** The form's place list: place names, each listed once. */
  predicate PlacesValid(places: seq<string>)
  {
    NoDuplicates(places) && forall p | p in places :: IsPlaceName(p)
  }

  /** Adding a non-blank input keeps the place list valid. */
  lemma WithPlaceKeepsValid(places: seq<string>, input: string)
    requires PlacesValid(places) && Trim(input) != ""
    ensures PlacesValid(WithPlace(places, input))
  {
  }

  /** `xs.filter((p) => p !== v)` */
  function Without<T(==)>(xs: seq<T>, v: T): (r: seq<T>)
    ensures multiset(r) == multiset(xs)[v := 0]
    ensures |r| <= |xs|
  {
    if xs == [] then []
    else
      var rest := Without(xs[1..], v);
      assert xs == [xs[0]] + xs[1..];
      if xs[0] == v then rest else [xs[0]] + rest
  }

  /** Filtering distributes over concatenation: the kept elements stay in their order. */
  lemma {:induction false} WithoutAppend<T>(xs: seq<T>, ys: seq<T>, v: T)
    ensures Without(xs + ys, v) == Without(xs, v) + Without(ys, v)
    decreases |xs|
  {
    if xs != [] {
      assert (xs + ys)[1..] == xs[1..] + ys;
      WithoutAppend(xs[1..], ys, v);
    } else {
      assert xs + ys == ys;
    }
  }

  lemma {:induction false} WithoutAbsent<T>(xs: seq<T>, v: T)
    requires v !in xs
    ensures Without(xs, v) == xs
    decreases |xs|
  {
    if xs != [] {
      WithoutAbsent(xs[1..], v);
      assert xs == [xs[0]] + xs[1..];
    }
  }

  /** In a duplicate-free list, the value at `k` occurs neither before nor after `k`. */
  lemma NotElsewhere<T>(xs: seq<T>, k: nat)
    requires NoDuplicates(xs) && k < |xs|
    ensures xs[k] !in xs[..k] && xs[k] !in xs[k + 1..]
  {
    var before, after := xs[..k], xs[k + 1..];
    forall i | 0 <= i < |before| ensures before[i] != xs[k] { assert before[i] == xs[i]; }
    forall i | 0 <= i < |after| ensures after[i] != xs[k] { assert after[i] == xs[k + 1 + i]; }
  }

  /** In a duplicate-free list, removing a value drops exactly its one
      position and keeps the others in order. */
  lemma {:induction false} WithoutUnique<T>(xs: seq<T>, k: nat)
    requires NoDuplicates(xs) && k < |xs|
    ensures Without(xs, xs[k]) == xs[..k] + xs[k + 1..]
  {
    var v := xs[k];
    var before, after := xs[..k], xs[k + 1..];
    assert xs == before + [v] + after;
    NotElsewhere(xs, k);
    calc {
      Without(xs, v);
      == { WithoutAppend(before + [v], after, v); }
      Without(before + [v], v) + Without(after, v);
      == { WithoutAppend(before, [v], v); }
      Without(before, v) + Without([v], v) + Without(after, v);
      == { WithoutAbsent(before, v); WithoutAbsent(after, v); assert [v][1..] == []; }
      before + [] + after;
      == { assert before + [] == before; }
      before + after;
    }
  }

  /** Dropping one position of a duplicate-free list leaves it duplicate-free. */
  lemma DropKeepsNoDuplicates<T>(xs: seq<T>, k: nat)
    requires NoDuplicates(xs) && k < |xs|
    ensures NoDuplicates(xs[..k] + xs[k + 1..])
  {
    var r := xs[..k] + xs[k + 1..];
    forall i | 0 <= i < |r| ensures r[i] == xs[if i < k then i else i + 1] {
      if i < k {
        assert r[i] == xs[..k][i];
      } else {
        assert r[i] == xs[k + 1..][i - k];
      }
    }
    forall i, j | 0 <= i < j < |r| ensures r[i] != r[j] {
      var i', j' := if i < k then i else i + 1, if j < k then j else j + 1;
      assert i' < j' < |xs|;
      assert r[i] == xs[i'] && r[j] == xs[j'];
    }
  }

  /** Filtering a duplicate-free list leaves it duplicate-free. */
  lemma {:induction false} WithoutKeepsNoDuplicates<T>(xs: seq<T>, v: T)
    requires NoDuplicates(xs)
    ensures NoDuplicates(Without(xs, v))
  {
    if v in xs {
      var k :| 0 <= k < |xs| && xs[k] == v;
      WithoutUnique(xs, k);
      DropKeepsNoDuplicates(xs, k);
    } else {
      WithoutAbsent(xs, v);
    }
  }

  /** Removing a place keeps the place list valid. */
  lemma WithoutKeepsValid(places: seq<string>, v: string)
    requires PlacesValid(places)
    ensures PlacesValid(Without(places, v))
  {
    WithoutKeepsNoDuplicates(places, v);
    var r := Without(places, v);
    forall p | p in r ensures IsPlaceName(p) {
      assert multiset(r)[p] > 0;
      assert p in multiset(places);
    }
  }

  // ---------------------------------------------------------------- images

  /** `images.filter((_, i) => i !== index)`, walking the list with the index shifted. */
  function RemoveAt<T>(xs: seq<T>, index: int): (r: seq<T>)
    ensures 0 <= index < |xs| ==> r == xs[..index] + xs[index + 1..]
    ensures !(0 <= index < |xs|) ==> r == xs
  {
    if xs == [] then []
    else
      var rest := RemoveAt(xs[1..], index - 1);
      if index == 0 then
        assert xs[1..] == xs[..0] + xs[1..];
        rest
      else
        assert 0 < index < |xs| ==> xs[..index] == [xs[0]] + xs[1..][..index - 1];
        assert 0 < index < |xs| ==> xs[index + 1..] == xs[1..][index..];
        [xs[0]] + rest
  }

  /** The URLs of the uploads that succeeded, in file order. */
  function Successes(outcomes: seq<Option<string>>): (r: seq<string>)
    ensures |r| <= |outcomes|
    ensures forall u :: u in r ==> Some(u) in outcomes
  {
    if outcomes == [] then []
    else
      var rest := Successes(outcomes[1..]);
      assert forall u :: Some(u) in outcomes[1..] ==> Some(u) in outcomes;
      (if outcomes[0].Some? then [outcomes[0].value] else []) + rest
  }

  /** Uploading two batches appends the successes of the first, then of the second. */
  lemma {:induction false} SuccessesAppend(a: seq<Option<string>>, b: seq<Option<string>>)
    ensures Successes(a + b) == Successes(a) + Successes(b)
    decreases |a|
  {
    if a != [] {
      assert (a + b)[1..] == a[1..] + b;
      SuccessesAppend(a[1..], b);
    } else {
      assert a + b == b;
    }
  }

  /** Every upload succeeded: all URLs are appended, one per file. */
  lemma {:induction false} AllSucceeded(urls: seq<string>)
    ensures Successes(seq(|urls|, i requires 0 <= i < |urls| => Some(urls[i]))) == urls
    decreases |urls|
  {
    var outs := seq(|urls|, i requires 0 <= i < |urls| => Some(urls[i]));
    if urls != [] {
      assert outs[1..] == seq(|urls[1..]|, i requires 0 <= i < |urls[1..]| => Some(urls[1..][i]));
      AllSucceeded(urls[1..]);
      assert urls == [urls[0]] + urls[1..];
    }
  }

  // ---------------------------------------------------------------- submit

  const TitleTooShort := "Title must be at least 3 characters"
  const TourTypeTooShort := "Tour Type must be at least 2 characters"
  const IncludesTooShort := "Includes must be at least 5 characters"
  const NoPlaces := "At least one place is required"
  const NoImages := "At least one image is required"
  const TripCreated := "Trip created successfully!"
  const CreateFailed := "Failed to create trip"
  const UnexpectedError := "An unexpected error occurred"

  /** The client checks of `handleSubmit`, in order, with their messages. */
  function ClientChecks(title: string, tourType: string, includes: string,
                        places: seq<string>, images: seq<string>): (cs: seq<Check<string>>)
    ensures |cs| == 5
    ensures FirstFailure(cs).None? <==>
      |title| >= 3 && |tourType| >= 2 && |includes| >= 5 && places != [] && images != []
  {
    var cs := [
      Check(title != "" && |title| >= 3, TitleTooShort),
      Check(tourType != "" && |tourType| >= 2, TourTypeTooShort),
      Check(includes != "" && |includes| >= 5, IncludesTooShort),
      Check(|places| != 0, NoPlaces),
      Check(|images| != 0, NoImages)
    ];
    assert (forall j | 0 <= j < 5 :: cs[j].passes) <==>
      cs[0].passes && cs[1].passes && cs[2].passes && cs[3].passes && cs[4].passes;
    cs
  }

  /** `s || undefined` */
  function Present(s: string): (o: Option<string>)
    ensures o.None? <==> s == ""
    ensures o.Some? ==> o.value == s
  {
    if s == "" then None else Some(s)
  }

  /** The JSON body the form posts. */
  function Payload(title: string, tourType: string, includes: string, notes: string,
                   description: string, places: seq<string>, images: seq<string>): TripBody
  {
    TripBody(title, tourType, includes, Present(notes), places, Present(description), images)
  }

  /** The form never posts what the server's schema would refuse, and posts
      everything it accepts: the client checks use the schema's bounds. */
  lemma ClientChecksMatchSchema(title: string, tourType: string, includes: string, notes: string,
                                description: string, places: seq<string>, images: seq<string>)
    ensures FirstFailure(ClientChecks(title, tourType, includes, places, images)).None?
      <==> CreateTripIssues(Payload(title, tourType, includes, notes, description, places, images)) == []
  {
  }

  /** An input event of the place field: a click on the add button, or a key pressed in the field. */
  datatype UiEvent = Click | KeyDown(key: string)

  predicate Fires(e: UiEvent)
  {
    e.Click? || e.key == "Enter"
  }

  /** The server's answer to the post. */
  datatype TripReply = Created | Refused(message: Option<string>) | NetworkError

  class CreateTripForm {
    var title: string
    var tourType: string
    var includes: string
    var notes: string
    var description: string
    var places: seq<string>
    var placeInput: string
    var images: seq<string>
    var error: string
    var message: string

    /** Places are trimmed, non-empty and listed once. */
    ghost predicate Valid()
      reads this
    {
      PlacesValid(places)
    }

    constructor ()
      ensures Valid()
      ensures title == "" && tourType == "" && includes == "" && notes == "" && description == ""
      ensures places == [] && placeInput == "" && images == [] && error == "" && message == ""
    {
      title, tourType, includes, notes, description := "", "", "", "", "";
      places, placeInput, images, error, message := [], "", [], "", "";
    }

    /** `handlePlaceAdd`: on a click or Enter with a non-blank input, the
        trimmed input is added unless already listed, and the input is
        cleared; any other event changes nothing. */
    method PlaceAdd(e: UiEvent)
      requires Valid()
      modifies this
      ensures Valid()
      ensures if Fires(e) && Trim(old(placeInput)) != "" then
          places == WithPlace(old(places), old(placeInput)) && placeInput == ""
        else
          places == old(places) && placeInput == old(placeInput)
      ensures title == old(title) && tourType == old(tourType) && includes == old(includes)
      ensures notes == old(notes) && description == old(description) && images == old(images)
      ensures error == old(error) && message == old(message)
    {
      if Fires(e) && Trim(placeInput) != "" {
        WithPlaceKeepsValid(places, placeInput);
        places := WithPlace(places, placeInput);
        placeInput := "";
      }
    }

    /** `handlePlaceRemove` */
    method PlaceRemove(place: string)
      requires Valid()
      modifies this
      ensures Valid()
      ensures places == Without(old(places), place)
      ensures title == old(title) && tourType == old(tourType) && includes == old(includes)
      ensures notes == old(notes) && description == old(description) && images == old(images)
      ensures placeInput == old(placeInput) && error == old(error) && message == old(message)
    {
      WithoutKeepsValid(places, place);
      places := Without(places, place);
    }

    /** `handleImageUpload`: an empty selection does nothing; otherwise the
        error is cleared and the files are uploaded one after another, each
        success appending its URL and each failure skipped. `outcomes[i]` is
        the URL returned for the i-th file, or `None` when its upload failed. */
    method ImageUpload(outcomes: seq<Option<string>>)
      modifies this
      ensures images == old(images) + Successes(outcomes)
      ensures error == if outcomes == [] then old(error) else ""
      ensures title == old(title) && tourType == old(tourType) && includes == old(includes)
      ensures notes == old(notes) && description == old(description) && places == old(places)
      ensures placeInput == old(placeInput) && message == old(message)
    {
      if |outcomes| == 0 {
        return;
      }
      error := "";
      var i := 0;
      while i < |outcomes|
        invariant 0 <= i <= |outcomes|
        invariant images == old(images) + Successes(outcomes[..i])
        invariant title == old(title) && tourType == old(tourType) && includes == old(includes)
        invariant notes == old(notes) && description == old(description) && places == old(places)
        invariant placeInput == old(placeInput) && message == old(message) && error == ""
      {
        SuccessesAppend(outcomes[..i], [outcomes[i]]);
        assert outcomes[..i + 1] == outcomes[..i] + [outcomes[i]];
        if outcomes[i].Some? {
          images := images + [outcomes[i].value];
        }
        i := i + 1;
      }
      assert outcomes[..i] == outcomes;
    }

    /** `handleImageRemove` */
    method ImageRemove(index: int)
      modifies this
      ensures images == RemoveAt(old(images), index)
      ensures title == old(title) && tourType == old(tourType) && includes == old(includes)
      ensures notes == old(notes) && description == old(description) && places == old(places)
      ensures placeInput == old(placeInput) && error == old(error) && message == old(message)
    {
      images := RemoveAt(images, index);
    }

    /** The answer of the client checks to the current fields. */
    function Refusal(): Option<string>
      reads this
    {
      FirstFailure(ClientChecks(title, tourType, includes, places, images))
    }

    /** The early returns of `handleSubmit`, in source order: the message
        of the first client check the fields fail, if any. */
    method ClientRefusal() returns (refusal: Option<string>)
      ensures refusal == Refusal()
    {
      ghost var cs := ClientChecks(title, tourType, includes, places, images);
      if title == "" || |title| < 3 {
        FailureDecides(cs, 0);
        return Some(TitleTooShort);
      }
      if tourType == "" || |tourType| < 2 {
        FailureDecides(cs, 1);
        return Some(TourTypeTooShort);
      }
      if includes == "" || |includes| < 5 {
        FailureDecides(cs, 2);
        return Some(IncludesTooShort);
      }
      if |places| == 0 {
        FailureDecides(cs, 3);
        return Some(NoPlaces);
      }
      if |images| == 0 {
        FailureDecides(cs, 4);
        return Some(NoImages);
      }
      return None;
    }

    /** `handleSubmit`: both banners are cleared; the first failing client
        check sets its message and nothing is posted. Otherwise the payload is
        posted (empty notes and description as absent) and `reply` is the
        server's answer: on success the message is set and every field but
        the place input is reset; on a refusal the server's message (or a
        fallback) becomes the error, and so on a network failure. */
    method Submit(reply: TripReply) returns (sent: Option<TripBody>)
      requires Valid()
      modifies this
      ensures Valid()
      ensures old(Refusal()).Some? ==> sent.None? && error == old(Refusal()).value && message == ""
      ensures old(Refusal()).None? ==>
        sent == Some(Payload(old(title), old(tourType), old(includes), old(notes),
                             old(description), old(places), old(images)))
      ensures old(Refusal()).None? && reply.Created? ==>
        && message == TripCreated && error == ""
        && title == "" && tourType == "" && includes == "" && notes == "" && description == ""
        && places == [] && images == []
      ensures old(Refusal()).None? && !reply.Created? ==>
        && message == ""
        && error == (if reply.NetworkError? then UnexpectedError
                     else if Truthy(reply.message) then reply.message.value else CreateFailed)
      ensures old(Refusal()).Some? || !reply.Created? ==>
        && title == old(title) && tourType == old(tourType) && includes == old(includes)
        && notes == old(notes) && description == old(description)
        && places == old(places) && images == old(images)
      ensures placeInput == old(placeInput)
    {
      error := "";
      message := "";
      var refusal := ClientRefusal();
      if refusal.Some? {
        error := refusal.value;
        return None;
      }
      sent := Some(TripBody(title, tourType, includes, Present(notes), places, Present(description), images));
      Settle(reply);
    }

    /** What the server's answer to the post does: a success sets the message
        and resets every field but the place input; a refusal sets the
        server's message, or a fallback, as the error, and so does a network
        failure. */
    method Settle(reply: TripReply)
      modifies this
      ensures reply.Created? ==>
        && message == TripCreated && error == old(error)
        && title == "" && tourType == "" && includes == "" && notes == "" && description == ""
        && places == [] && images == []
      ensures !reply.Created? ==>
        && message == old(message)
        && error == (if reply.NetworkError? then UnexpectedError
                     else if Truthy(reply.message) then reply.message.value else CreateFailed)
        && title == old(title) && tourType == old(tourType) && includes == old(includes)
        && notes == old(notes) && description == old(description)
        && places == old(places) && images == old(images)
      ensures placeInput == old(placeInput)
    {
      match reply {
        case Created =>
          message := TripCreated;
          title, tourType, includes, notes, description := "", "", "", "", "";
          places, images := [], [];
        case Refused(m) =>
          error := if Truthy(m) then m.value else CreateFailed;
        case NetworkError =>
          error := UnexpectedError;
      }
    }
  }
}
