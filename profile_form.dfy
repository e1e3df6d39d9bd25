/**
 * The profile page's form (app/profile/ProfileForm.tsx): the state it loads,
 * the image transitions of upload and removal, the avatar it shows, and the
 * payload it submits, with the answer the profile route gives that payload.
 */
module Profile {
  import opened Common
  import opened Validation
  import opened Store
  import opened Initials
  import opened ProfileRoute

  /** The profile the page loads: `data.image` may be null or absent. */
  datatype ProfileData = ProfileData(name: string, email: string, image: Option<string>)

  /** The answer of the upload endpoint for the chosen file. */
  datatype UploadReply = UploadOk(url: string) | UploadRefused(reason: Option<string>) | UploadUnreachable

  /** The answer of the profile endpoint to the submitted form. */
  datatype SaveReply = SaveOk(notice: string) | SaveRefused(reason: Option<string>) | SaveUnreachable

  const LoadFailed := "Failed to load profile"
  const UploadFailed := "Upload failed"
  const UploadUnreachableMessage := "Failed to upload image"
  const SaveFailed := "Failed to update profile"
  const SaveUnreachableMessage := "An unexpected error occurred. Please try again."

  /** `data.image || ""`: the form's image field for a loaded profile. */
  function LoadedImage(image: Option<string>): (r: string)
    ensures r == "" <==> !Truthy(image)
    ensures r != "" ==> image == Some(r)
  {
    if Truthy(image) then image.value else ""
  }

  /** `{ name, email, image }`: the form always sends all three fields. */
  function SubmittedBody(name: string, email: string, image: string): (b: ProfileBody)
    ensures b.name.Some? && b.email.Some? && b.image.Some?
    ensures b.image.value == image
  {
    ProfileBody(Some(name), Some(email), Some(image))
  }

  /** The form always passes the "at least one field" refinement; only the
      name's length and the e-mail's format can refuse it. */
  lemma SubmittedBodyNeverEmpty(name: string, email: string, image: string, isEmail: string -> bool)
    ensures UpdateProfileIssues(SubmittedBody(name, email, image), isEmail) == [] <==>
      |name| >= 2 && isEmail(email)
  {
  }

  /** Submitting a loaded profile without edits: nothing is recorded, so the
      route answers "No changes detected" and writes nothing. When the stored
      image is null the form sends "" and the route maps it back to null. */
  lemma {:induction false} UnchangedFormRecordsNothing(cur: Admin)
    requires cur.image != Some("")
    ensures ChangeList(cur, SubmittedBody(cur.name, cur.email, LoadedImage(cur.image))) == []
  {
    var b := SubmittedBody(cur.name, cur.email, LoadedImage(cur.image));
    assert !ImageChanged(cur, b) by {
      if cur.image.None? {
        assert MapImage(b.image) == SetTo(None);
      } else {
        assert MapImage(b.image) == SetTo(cur.image);
      }
    }
  }

  /** A stored image of "" (not null) is the exception: the form sends "",
      the route maps it to null, and an image change from "None" to
      "None" is recorded. */
  lemma {:induction false} StoredEmptyImageIsRecorded(cur: Admin)
    requires cur.image == Some("")
    ensures ChangeList(cur, SubmittedBody(cur.name, cur.email, LoadedImage(cur.image)))
      == [Change(ImageEntry, "None", "None")]
  {
    var b := SubmittedBody(cur.name, cur.email, LoadedImage(cur.image));
    assert MapImage(b.image) == SetTo(None);
    assert !NameChanged(cur, b) && !EmailChanged(cur, b) && ImageChanged(cur, b);
  }

  /** Removing the avatar and saving clears the stored image to null, and
      the change is recorded unless the image was already null. */
  lemma {:induction false} RemovedAvatarIsCleared(cur: Admin, name: string, email: string)
    ensures ApplyPatch(cur, PatchOf(SubmittedBody(name, email, ""))).image.None?
    ensures cur.image.Some? ==> ImageChanged(cur, SubmittedBody(name, email, ""))
  {
    assert MapImage(Some("")) == SetTo(None);
  }

  class ProfileForm {
    var name: string
    var email: string
    var image: string
    var error: string
    var message: string

    constructor ()
      ensures name == "" && email == "" && image == "" && error == "" && message == ""
    {
      name, email, image, error, message := "", "", "", "", "";
    }

    /** The avatar next to the form: the photo, or the initials of the name when the image is "". */
    function Avatar(): (a: Avatar)
      reads this
      requires image == "" ==> InitialsDefined(name)
      ensures a.Monogram? <==> image == ""
      ensures a.Photo? ==> a.url == image
    {
      AvatarFor(Some(image), name)
    }

    /** The load effect: a loaded profile fills the three fields, a null or
        absent image becoming ""; a failed load sets the error. */
    method Load(reply: Option<ProfileData>)
      modifies this
      ensures reply.Some? ==>
        && name == reply.value.name && email == reply.value.email
        && image == LoadedImage(reply.value.image)
        && error == old(error)
      ensures reply.None? ==>
        name == old(name) && email == old(email) && image == old(image) && error == LoadFailed
      ensures message == old(message)
    {
      if reply.Some? {
        name := reply.value.name;
        email := reply.value.email;
        image := if Truthy(reply.value.image) then reply.value.image.value else "";
      } else {
        error := LoadFailed;
      }
    }

    /** `handleFileChange`: without a file nothing happens; otherwise the error
        is cleared, an accepted upload replaces the image with the returned
        URL, and a refused or failed one leaves the image and sets the error. */
    method FileChange(hasFile: bool, reply: UploadReply)
      modifies this
      ensures !hasFile ==> image == old(image) && error == old(error)
      ensures hasFile && reply.UploadOk? ==> image == reply.url && error == ""
      ensures hasFile && reply.UploadRefused? ==>
        image == old(image) && error == (if Truthy(reply.reason) then reply.reason.value else UploadFailed)
      ensures hasFile && reply.UploadUnreachable? ==>
        image == old(image) && error == UploadUnreachableMessage
      ensures name == old(name) && email == old(email) && message == old(message)
    {
      if !hasFile {
        return;
      }
      error := "";
      match reply {
        case UploadOk(url) =>
          image := url;
        case UploadRefused(m) =>
          error := if Truthy(m) then m.value else UploadFailed;
        case UploadUnreachable =>
          error := UploadUnreachableMessage;
      }
    }

    /** `handleRemoveImage` */
    method RemoveImage()
      modifies this
      ensures image == ""
      ensures name == old(name) && email == old(email) && error == old(error) && message == old(message)
    {
      image := "";
    }

    /** `handleSubmit`: both banners are cleared, the three fields are sent,
        and the answer sets the message or the error. */
    method Submit(reply: SaveReply) returns (sent: ProfileBody)
      modifies this
      ensures sent == SubmittedBody(old(name), old(email), old(image))
      ensures name == old(name) && email == old(email) && image == old(image)
      ensures reply.SaveOk? ==> message == reply.notice && error == ""
      ensures reply.SaveRefused? ==>
        message == "" && error == (if Truthy(reply.reason) then reply.reason.value else SaveFailed)
      ensures reply.SaveUnreachable? ==> message == "" && error == SaveUnreachableMessage
    {
      message := "";
      error := "";
      sent := ProfileBody(Some(name), Some(email), Some(image));
      match reply {
        case SaveOk(m) =>
          message := m;
        case SaveRefused(m) =>
          error := if Truthy(m) then m.value else SaveFailed;
        case SaveUnreachable =>
          error := SaveUnreachableMessage;
      }
    }
  }
}
