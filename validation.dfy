/**
 * The request schemas of utils/validation.ts. A zod object schema checks its
 * fields in declaration order and collects one issue per failing check; a
 * `.refine` on the object adds its own issue afterwards. `safeParse` succeeds
 * exactly when no issue was collected. The payloads here are already
 * well-typed records (optional fields are `Option`s), so the only failures
 * are the length, e-mail and refinement checks. zod's `.email()` is the
 * parameter `isEmail`.
 */
module Validation {
  import opened Common

  /** One zod issue: the field it is reported on ("" for the object itself) and its message. */
  datatype Issue = Issue(path: string, message: string)

  // zod's messages for checks declared without one
  const DefaultEmailMessage := "Invalid email"
  const DefaultMin2Message := "String must contain at least 2 character(s)"
  const DefaultMin3Message := "String must contain at least 3 character(s)"
  const DefaultMin5Message := "String must contain at least 5 character(s)"
  const DefaultListMessage := "Array must contain at least 1 element(s)"

  function MinLength(path: string, s: string, n: nat, message: string): seq<Issue>
  {
    if |s| < n then [Issue(path, message)] else []
  }

  function EmailField(path: string, s: string, isEmail: string -> bool, message: string): seq<Issue>
  {
    if isEmail(s) then [] else [Issue(path, message)]
  }

  function NonEmptyList(path: string, xs: seq<string>, message: string): seq<Issue>
  {
    if |xs| < 1 then [Issue(path, message)] else []
  }

  function OptionalMinLength(path: string, o: Option<string>, n: nat, message: string): seq<Issue>
  {
    if o.Some? then MinLength(path, o.value, n, message) else []
  }

  function OptionalEmail(path: string, o: Option<string>, isEmail: string -> bool, message: string): seq<Issue>
  {
    if o.Some? then EmailField(path, o.value, isEmail, message) else []
  }

  function OptionalNonEmptyList(path: string, o: Option<seq<string>>, message: string): seq<Issue>
  {
    if o.Some? then NonEmptyList(path, o.value, message) else []
  }

  /** Fields an issue list speaks of. */
  function Paths(issues: seq<Issue>): set<string>
  {
    set i | i in issues :: i.path
  }

  // ---------------------------------------------------------------- loginSchema

  datatype LoginBody = LoginBody(email: string, password: string)

  function LoginIssues(b: LoginBody, isEmail: string -> bool): (r: seq<Issue>)
    ensures r == [] <==> isEmail(b.email) && |b.password| >= 6
    ensures Paths(r) <= {"email", "password"}
  {
    EmailField("email", b.email, isEmail, "Invalid email address")
    + MinLength("password", b.password, 6, "Password must be at least 6 characters")
  }

  // ---------------------------------------------------------------- createAdminSchema

  datatype CreateAdminBody = CreateAdminBody(email: string, name: string, password: string)

  function CreateAdminIssues(b: CreateAdminBody, isEmail: string -> bool): (r: seq<Issue>)
    ensures r == [] <==> isEmail(b.email) && |b.name| >= 2 && |b.password| >= 6
    ensures Paths(r) <= {"email", "name", "password"}
  {
    EmailField("email", b.email, isEmail, "Invalid email address")
    + MinLength("name", b.name, 2, "Name must be at least 2 characters")
    + MinLength("password", b.password, 6, "Password must be at least 6 characters")
  }

  // ---------------------------------------------------------------- updateProfileSchema

  datatype ProfileBody = ProfileBody(name: Option<string>, email: Option<string>, image: Option<string>)

  function UpdateProfileIssues(b: ProfileBody, isEmail: string -> bool): (r: seq<Issue>)
    ensures r == [] <==>
      && (b.name.Some? ==> |b.name.value| >= 2)
      && (b.email.Some? ==> isEmail(b.email.value))
      && (b.name.Some? || b.email.Some? || b.image.Some?)
    ensures b.name.None? && b.email.None? && b.image.None? ==>
      Issue("", "At least one field must be provided") in r
  {
    OptionalMinLength("name", b.name, 2, DefaultMin2Message)
    + OptionalEmail("email", b.email, isEmail, DefaultEmailMessage)
    + (if b.name.Some? || b.email.Some? || b.image.Some? then []
       else [Issue("", "At least one field must be provided")])
  }

  /** A present image is never checked: any string, the empty one included, passes. */
  lemma ProfileImageUnconstrained(b: ProfileBody, url: string, isEmail: string -> bool)
    requires UpdateProfileIssues(b, isEmail) == []
    ensures UpdateProfileIssues(b.(image := Some(url)), isEmail) == []
  {
  }

  // ---------------------------------------------------------------- forgotPasswordSchema

  datatype ForgotPasswordBody = ForgotPasswordBody(email: string)

  function ForgotPasswordIssues(b: ForgotPasswordBody, isEmail: string -> bool): (r: seq<Issue>)
    ensures r == [] <==> isEmail(b.email)
    ensures r != [] ==> r == [Issue("email", "Invalid email address")]
  {
    EmailField("email", b.email, isEmail, "Invalid email address")
  }

  // ---------------------------------------------------------------- resetPasswordSchema

  datatype ResetPasswordBody = ResetPasswordBody(token: string, newPassword: string)

  function ResetPasswordIssues(b: ResetPasswordBody): (r: seq<Issue>)
    ensures r == [] <==> b.token != "" && |b.newPassword| >= 6
    ensures b.token == "" ==> r[0] == Issue("token", "Token is required")
  {
    MinLength("token", b.token, 1, "Token is required")
    + MinLength("newPassword", b.newPassword, 6, "New password must be at least 6 characters")
  }

  // ---------------------------------------------------------------- changePasswordSchema

  datatype ChangePasswordBody = ChangePasswordBody(currentPassword: string, newPassword: string, confirmPassword: string)

  const PasswordsDiffer := Issue("confirmPassword", "New passwords do not match")

  function ChangePasswordIssues(b: ChangePasswordBody): (r: seq<Issue>)
    ensures r == [] <==>
      |b.currentPassword| >= 6 && |b.newPassword| >= 6 && |b.confirmPassword| >= 6
      && b.newPassword == b.confirmPassword
    ensures PasswordsDiffer in r <==> b.newPassword != b.confirmPassword
  {
    MinLength("currentPassword", b.currentPassword, 6, "Current password is required")
    + MinLength("newPassword", b.newPassword, 6, "New password must be at least 6 characters")
    + MinLength("confirmPassword", b.confirmPassword, 6, "Confirm password is required")
    + (if b.newPassword == b.confirmPassword then [] else [PasswordsDiffer])
  }

  // ---------------------------------------------------------------- CreateTripSchema

  datatype TripBody = TripBody(
    title: string, tourType: string, includes: string, notes: Option<string>,
    places: seq<string>, description: Option<string>, images: seq<string>)

  function CreateTripIssues(t: TripBody): (r: seq<Issue>)
    ensures r == [] <==>
      |t.title| >= 3 && |t.tourType| >= 2 && |t.includes| >= 5 && t.places != [] && t.images != []
    ensures Paths(r) <= {"title", "tourType", "includes", "places", "images"}
  {
    MinLength("title", t.title, 3, "Title must be at least 3 characters")
    + MinLength("tourType", t.tourType, 2, "Tour type must be at least 2 characters")
    + MinLength("includes", t.includes, 5, "Includes must describe what's included")
    + NonEmptyList("places", t.places, "At least one place is required")
    + NonEmptyList("images", t.images, "At least one image is required")
  }

  // ---------------------------------------------------------------- updateTripSchema

  datatype TripPatch = TripPatch(
    title: Option<string>, tourType: Option<string>, includes: Option<string>, notes: Option<string>,
    places: Option<seq<string>>, description: Option<string>, images: Option<seq<string>>)

  predicate AnyTripField(p: TripPatch)
  {
    p.title.Some? || p.tourType.Some? || p.includes.Some? || p.notes.Some?
    || p.places.Some? || p.description.Some? || p.images.Some?
  }

  function UpdateTripIssues(p: TripPatch): (r: seq<Issue>)
    ensures r == [] <==>
      && AnyTripField(p)
      && (p.title.Some? ==> |p.title.value| >= 3)
      && (p.tourType.Some? ==> |p.tourType.value| >= 2)
      && (p.includes.Some? ==> |p.includes.value| >= 5)
      && (p.places.Some? ==> p.places.value != [])
      && (p.images.Some? ==> p.images.value != [])
  {
    OptionalMinLength("title", p.title, 3, DefaultMin3Message)
    + OptionalMinLength("tourType", p.tourType, 2, DefaultMin2Message)
    + OptionalMinLength("includes", p.includes, 5, DefaultMin5Message)
    + OptionalNonEmptyList("places", p.places, DefaultListMessage)
    + OptionalNonEmptyList("images", p.images, DefaultListMessage)
    + (if AnyTripField(p) then [] else [Issue("", "At least one field must be provided to update")])
  }

  /** A full trip sent as an update: every required field present. */
  function AsPatch(t: TripBody): TripPatch
  {
    TripPatch(Some(t.title), Some(t.tourType), Some(t.includes), t.notes,
              Some(t.places), t.description, Some(t.images))
  }

  /** Sent as an update, a full trip is accepted exactly when the create
      schema accepts it: both schemas use the same bounds. */
  lemma CreateAndUpdateAgree(t: TripBody)
    ensures UpdateTripIssues(AsPatch(t)) == [] <==> CreateTripIssues(t) == []
  {
  }
}
