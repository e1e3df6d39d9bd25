/**
 * The profile route's PUT handler (app/api/admin/profile/route.ts): the
 * tri-state image field, the list of recorded changes, the rule that an empty
 * list writes nothing, and the partial update of the admin's row.
 */
module ProfileRoute {
  import opened Common
  import opened Validation
  import opened Store

  /** The fields a change can be recorded for, in the order they are checked. */
  datatype Field = NameEntry | EmailEntry | ImageEntry

  /** The field's name as the change list shows it. */
  function Label(f: Field): string
  {
    match f
    case NameEntry => "Name"
    case EmailEntry => "Email"
    case ImageEntry => "Image URL"
  }

  /** One entry of the change list mailed to the admin. */
  datatype Change = Change(field: Field, before: string, after: string)

  /** The notification mail, with the change list it reports. */
  datatype ProfileNotice = ProfileNotice(to: string, subject: string, changes: seq<Change>)

  const Unauthorized := Response(401, "Unauthorized")
  const InvalidInput := Response(400, "Invalid input")
  const AdminMissing := Response(404, "Admin not found")
  const NoChanges := Response(200, "No changes detected")
  const ServerError := Response(500, "Something went wrong")
  const ProfileUpdated := Response(200, "Profile updated successfully")
  const ProfileUpdatedSubject := "Profile Updated - The Kind Travel"

  /** The image written by the update: an absent field keeps the stored
      image, "" clears it to null, any other string replaces it. */
  function MapImage(image: Option<string>): (u: FieldUpdate<Option<string>>)
    ensures u.Keep? <==> image.None?
    ensures u == SetTo(None) <==> image == Some("")
    ensures u.SetTo? && u.value.Some? <==> Truthy(image)
    ensures u.SetTo? && u.value.Some? ==> u.value == image
  {
    if image.None? then Keep
    else if image.value == "" then SetTo(None)
    else SetTo(image)
  }

  /** `image || "None"`: how an image appears in the change list. */
  function Shown(image: Option<string>): (r: string)
    ensures r != ""
    ensures Truthy(image) ==> r == image.value
  {
    if Truthy(image) then image.value else "None"
  }

  /** The `data` of the update: `name || undefined`, `email || undefined` and the mapped image. */
  function PatchOf(b: ProfileBody): AdminPatch
  {
    AdminPatch(
      if Truthy(b.name) then SetTo(b.name.value) else Keep,
      if Truthy(b.email) then SetTo(b.email.value) else Keep,
      MapImage(b.image))
  }

  /** Position of a field in the change list. */
  function Rank(f: Field): int
  {
    match f
    case NameEntry => 0
    case EmailEntry => 1
    case ImageEntry => 2
  }

  predicate NameChanged(cur: Admin, b: ProfileBody)
  {
    Truthy(b.name) && b.name.value != cur.name
  }

  predicate EmailChanged(cur: Admin, b: ProfileBody)
  {
    Truthy(b.email) && b.email.value != cur.email
  }

  predicate ImageChanged(cur: Admin, b: ProfileBody)
  {
    MapImage(b.image).SetTo? && MapImage(b.image).value != cur.image
  }

  /** The changes the handler records against the stored row `cur`, in the
      order Name, Email, Image URL, with "None" shown for a missing image. */
  function ChangeList(cur: Admin, b: ProfileBody): (r: seq<Change>)
    ensures |r| <= 3
    ensures r == [] <==> !NameChanged(cur, b) && !EmailChanged(cur, b) && !ImageChanged(cur, b)
  {
    (if NameChanged(cur, b) then [Change(NameEntry, cur.name, b.name.value)] else [])
    + (if EmailChanged(cur, b) then [Change(EmailEntry, cur.email, b.email.value)] else [])
    + (if ImageChanged(cur, b) then [Change(ImageEntry, Shown(cur.image), Shown(MapImage(b.image).value))] else [])
  }

  /** The change list names each field at most once, in the order Name,
      Email, Image URL; a field is listed exactly when its value changes,
      and its entry shows the stored value and the new one. */
  lemma ChangeListEntries(cur: Admin, b: ProfileBody)
    ensures var r := ChangeList(cur, b);
      && (forall i, j | 0 <= i < j < |r| :: Rank(r[i].field) < Rank(r[j].field))
      && ((exists c | c in r :: c.field == NameEntry) <==> NameChanged(cur, b))
      && ((exists c | c in r :: c.field == EmailEntry) <==> EmailChanged(cur, b))
      && ((exists c | c in r :: c.field == ImageEntry) <==> ImageChanged(cur, b))
      && (forall c | c in r && c.field == NameEntry :: c == Change(NameEntry, cur.name, b.name.value))
      && (forall c | c in r && c.field == EmailEntry :: c == Change(EmailEntry, cur.email, b.email.value))
      && (forall c | c in r && c.field == ImageEntry ::
            c == Change(ImageEntry, Shown(cur.image), Shown(MapImage(b.image).value)))
  {
  }

  /** No change is recorded exactly when the update would leave the row as it is. */
  lemma NoChangesExactlyWhenNoOp(cur: Admin, b: ProfileBody)
    ensures ChangeList(cur, b) == [] <==> ApplyPatch(cur, PatchOf(b)) == cur
  {
    var r := ChangeList(cur, b);
    assert r == [] <==> !NameChanged(cur, b) && !EmailChanged(cur, b) && !ImageChanged(cur, b);
  }

  /** The update touches only the provided fields: an absent (or empty) name
      or e-mail and an absent image keep their stored values, and the id and
      the password hash are never written. */
  lemma UpdateTouchesOnlyProvided(cur: Admin, b: ProfileBody)
    ensures var after := ApplyPatch(cur, PatchOf(b));
      && after.id == cur.id && after.password == cur.password
      && after.name == (if Truthy(b.name) then b.name.value else cur.name)
      && after.email == (if Truthy(b.email) then b.email.value else cur.email)
      && after.image == (if b.image.None? then cur.image
                         else if b.image.value == "" then None else b.image)
  {
  }

  /** Re-sending the payload that was just applied records no change, so the
      second request is answered "No changes detected" and writes nothing. */
  lemma ResendIsNoChange(cur: Admin, b: ProfileBody)
    ensures ChangeList(ApplyPatch(cur, PatchOf(b)), b) == []
  {
  }

  /** Clearing an image that is already null records nothing. */
  lemma ClearingNullImageRecordsNothing(cur: Admin, b: ProfileBody)
    requires cur.image.None? && b.image == Some("")
    ensures !ImageChanged(cur, b)
    ensures ChangeList(cur, b) == [] <==> !NameChanged(cur, b) && !EmailChanged(cur, b)
  {
  }

  /** The handler's conditional pushes onto the change list, given the mapped image. */
  method RecordChanges(cur: Admin, body: ProfileBody, newImage: FieldUpdate<Option<string>>)
    returns (changes: seq<Change>)
    requires newImage == MapImage(body.image)
    ensures changes == ChangeList(cur, body)
  {
    changes := [];
    if Truthy(body.name) && body.name.value != cur.name {
      changes := changes + [Change(NameEntry, cur.name, body.name.value)];
    }
    if Truthy(body.email) && body.email.value != cur.email {
      changes := changes + [Change(EmailEntry, cur.email, body.email.value)];
    }
    if newImage.SetTo? && newImage.value != cur.image {
      changes := changes + [Change(ImageEntry, Shown(cur.image), Shown(newImage.value))];
    }
  }

  /** `PUT`: 401, 400 on a schema failure and 404 come first and write
      nothing; then the change list is built and, if it is empty, nothing is
      written either. Otherwise the row is updated; the unique e-mail column
      can refuse the write, which the handler's catch turns into a 500. On
      success a notice with the change list goes to the e-mail the admin had
      before the update (a failed send is caught and does not change the
      answer). */
  method Put(store: AdminStore, auth: Option<int>, body: ProfileBody, isEmail: string -> bool)
    returns (resp: Response, notice: Option<ProfileNotice>)
    requires store.Valid()
    modifies store
    ensures store.Valid()
    ensures var admins := old(store.admins);
      if auth.None? then
        resp == Unauthorized && store.admins == admins && notice.None?
      else if UpdateProfileIssues(body, isEmail) != [] then
        resp == InvalidInput && store.admins == admins && notice.None?
      else if auth.value !in admins then
        resp == AdminMissing && store.admins == admins && notice.None?
      else
        var cur := admins[auth.value];
        if ChangeList(cur, body) == [] then
          resp == NoChanges && store.admins == admins && notice.None?
        else if Conflicts(admins, auth.value, PatchOf(body)) then
          resp == ServerError && store.admins == admins && notice.None?
        else
          && resp == ProfileUpdated
          && store.admins == admins[auth.value := ApplyPatch(cur, PatchOf(body))]
          && notice == Some(ProfileNotice(cur.email, ProfileUpdatedSubject, ChangeList(cur, body)))
  {
    notice := None;
    if auth.None? {
      return Unauthorized, None;
    }
    if UpdateProfileIssues(body, isEmail) != [] {
      return InvalidInput, None;
    }
    var found := store.FindById(auth.value);
    if found.None? {
      return AdminMissing, None;
    }
    var cur := found.value;

    var newImage: FieldUpdate<Option<string>> := Keep;
    if body.image.Some? {
      newImage := if body.image.value == "" then SetTo(None) else SetTo(body.image);
    }
    assert newImage == MapImage(body.image);

    var changes := RecordChanges(cur, body, newImage);

    if |changes| == 0 {
      return NoChanges, None;
    }
    var data := AdminPatch(
      if Truthy(body.name) then SetTo(body.name.value) else Keep,
      if Truthy(body.email) then SetTo(body.email.value) else Keep,
      newImage);
    assert data == PatchOf(body);
    var written := store.Update(auth.value, data);
    if !written {
      return ServerError, None;
    }
    notice := Some(ProfileNotice(cur.email, ProfileUpdatedSubject, changes));
    resp := ProfileUpdated;
  }
}
