# The Kind Travel admin console — decision rules in Dafny

This project models the parts of The Kind Travel's Next.js admin console that
make decisions or edit lists, rather than only calling libraries:

- the zod request schemas of `utils/validation.ts`, each as a function from a
  well-typed payload to the list of issues zod would report;
- the change-email route:
  - the "not a demo address" heuristic `isRealEmail`;
  - the ad-hoc format regular expression;
  - the seven checks `POST` runs in a fixed order before the single write to
    the Admin table;
- the profile route's `PUT`:
  - the tri-state image field (absent keeps, `""` clears to null, any other
    string sets);
  - the change list, built field by field;
  - the rule that an empty change list writes nothing;
  - the partial update of the row;
- the upload route:
  - the presence, MIME-prefix and 5 MiB admission checks, in order;
  - the whitespace-free local file name;
  - the URL handed back;
- the create-trip form, as a class whose fields are the component's state
  (title, tour type, includes, notes, description, places, place input,
  images, error, message). Its handlers are methods: add and remove a place,
  upload and remove images, and submit with its ordered client checks and
  reset;
- the profile form, as a class (name, email, image, error, message) with the
  load effect, the upload and removal of the avatar, and submit;
- `getInitials`, written identically in the profile form and the dashboard,
  and the choice between the admin's photo and those initials.

The modules, one per file:

- `Common`: `Option`, responses and JavaScript truthiness.
- `Text`: the JavaScript string operations used, with `\s` as the full
  ECMAScript whitespace set.
- `Checks`: ordered checks where the first failure answers.
- `Validation`: the request schemas.
- `Store`: the Admin table as a `map<int, Admin>`, with its unique e-mail
  column and Prisma's partial update.
- `ChangeEmail`, `ProfileRoute` and `Upload`: the three route handlers.
- `Initials`: `getInitials` and the avatar choice.
- `TripForm`: the create-trip form.
- `Profile`: the profile form.

External calls are parameters:

- zod's `.email()` is a predicate `isEmail`;
- bcrypt's comparison is a predicate `compare`;
- the authenticated admin id is an `Option<int>`;
- the answers of `fetch` calls are datatypes (`TripReply`, `UploadReply`,
  `SaveReply`, or one `Option<string>` per uploaded file);
- the blob token and blob URL, `Date.now()` and the rounded random number are
  inputs.

Mails are returned as records (recipient and subject) instead of being sent.

Where the route and the store meet, the store's unique e-mail column is
explicit:

- an update that would give a second row the same e-mail is refused and
  writes nothing;
- the profile route's `catch` turns that refusal into a 500.

The change-email route never reaches the refusal, because its own duplicate
check (`TakenByOther`) runs first.

Two small behaviours of the code are modelled as written:

- The client-side trip messages differ from the server's: "Tour Type" vs
  "Tour type", and "Includes must be at least 5 characters" vs "Includes must
  describe what's included". The bounds are the same (`ClientChecksMatchSchema`).
- A stored image of `""` (not null) is shown as "None" but compares unequal
  to null. Re-saving an unchanged profile then records a "None → None" change
  and writes (`StoredEmptyImageIsRecorded`). Through this route the column
  can never become `""`, since `""` is written as null.

## Model

| member | source | states |
|---|---|---|
| Validation.LoginIssues | utils/validation.ts:3-6 | no issue exactly when the e-mail passes `.email()` and the password has at least 6 characters; issues are only reported on "email" and "password" |
| Validation.CreateAdminIssues | utils/validation.ts:8-12 | no issue exactly when the e-mail is valid, the name has at least 2 and the password at least 6 characters |
| Validation.UpdateProfileIssues | utils/validation.ts:14-26 | accepted exactly when a present name has at least 2 characters, a present e-mail is valid and at least one of name, e-mail, image is present; an all-absent payload gets the refinement's issue |
| Validation.ProfileImageUnconstrained | utils/validation.ts:18 | a present image is never checked: any string, "" included, keeps an accepted payload accepted |
| Validation.ForgotPasswordIssues | utils/validation.ts:28-30 | accepted exactly when the e-mail is valid, otherwise the single issue "Invalid email address" on "email" |
| Validation.ResetPasswordIssues | utils/validation.ts:32-35 | accepted exactly when the token is non-empty and the new password has at least 6 characters; an empty token is reported first as "Token is required" |
| Validation.ChangePasswordIssues | utils/validation.ts:37-48 | accepted exactly when all three passwords have at least 6 characters and the new one equals the confirmation; the mismatch issue (on "confirmPassword") appears exactly when they differ |
| Validation.CreateTripIssues | utils/validation.ts:50-58 | accepted exactly when title ≥ 3, tour type ≥ 2, includes ≥ 5 characters and places and images are non-empty; notes and description are never checked |
| Validation.UpdateTripIssues | utils/validation.ts:60-80 | accepted exactly when at least one of the seven fields is present and every present field obeys its create-schema bound |
| Validation.CreateAndUpdateAgree | utils/validation.ts:50-80 | a full trip sent as an update is accepted exactly when the create schema accepts it |
| Checks.FirstFailing | app/api/upload/route.ts:10-32 | the index of the first failing check: every check before it passes and it fails, or it is the length when all pass |
| Checks.FirstFailure | app/api/upload/route.ts:10-32 | no answer exactly when every check passes; otherwise the failure of the first failing check |
| Checks.FailureDecides | app/api/auth/change-email/route.ts:42-106 | a failing check whose predecessors all pass decides the answer |
| Checks.LaterChecksIrrelevant | app/api/auth/change-email/route.ts:42-106 | checks after the first failing one cannot change the answer |
| Text.Lower | app/api/auth/change-email/route.ts:19 | `toLowerCase` keeps the length and maps every character by the ASCII case map |
| Text.LowerIdempotent | app/api/auth/change-email/route.ts:19 | lower-casing twice is lower-casing once, and leaves no upper-case letter |
| Text.Split | app/api/auth/change-email/route.ts:19 | `split("@")` gives at least one piece, no piece holds the separator, and joining the pieces with it gives the string back |
| Text.SplitJoin | app/api/auth/change-email/route.ts:19 | splitting a join of separator-free pieces gives the pieces back |
| Text.Upper | app/profile/ProfileForm.tsx:95 | `toUpperCase` keeps the length and maps every character by the ASCII case map |
| Text.Contains | app/api/auth/change-email/route.ts:25 | `includes` holds exactly when the keyword occurs at some position |
| Text.StartsWith | app/api/upload/route.ts:19 | `startsWith(prefix)`: the prefix is no longer than the string and equals its first characters |
| Text.Trim | app/trips/create/CreateTripForm.tsx:44 | `trim()` leaves no whitespace at either end, and is empty exactly when the input is all whitespace |
| Text.TrimIsInfix | app/trips/create/CreateTripForm.tsx:47-48 | the trimmed text is a slice of the input with only whitespace before and after it |
| Text.TrimIdempotent | app/trips/create/CreateTripForm.tsx:47-48 | trimming a trimmed string changes nothing |
| Text.ReplaceWhitespace | app/api/upload/route.ts:50 | `replace(/\s/g, "-")` keeps the length, turns exactly the whitespace characters into "-" and leaves none |
| Text.ReplaceWhitespaceIdempotent | app/api/upload/route.ts:50 | replacing again changes nothing |
| Store.ApplyPatch | app/api/admin/profile/route.ts:99-106 | the update never touches id or password, and an all-undefined `data` leaves the row as it is |
| Store.TakenByOther | app/api/auth/change-email/route.ts:97-101 | some row holds the e-mail and that row's id differs from the given admin's id (`existingAdmin && existingAdmin.id !== admin.id`) |
| Store.UpdateKeepsInvariants | app/api/admin/profile/route.ts:99-106 | a write the unique e-mail column admits keeps e-mails unique and rows under their ids |
| Store.AdminStore.FindById | app/api/auth/change-email/route.ts:76-82 | `findUnique` by id finds a row exactly when the id is stored, and it is that row |
| Store.AdminStore.Update | app/api/admin/profile/route.ts:99-106 | the write succeeds exactly when the new e-mail belongs to no other row; then only row `id` changes, to the patched row, otherwise nothing changes; the invariants hold after |
| ChangeEmail.GenericLocalPart | app/api/auth/change-email/route.ts:24-27 | the local part contains one of "test", "demo", "user", "admin", "guest", "example", or has fewer than 3 characters |
| ChangeEmail.IsRealEmail | app/api/auth/change-email/route.ts:10-37 | lower-cases the address and splits it at "@"; false when the first or second piece is empty, when the first piece is generic, or when the second piece is one of the four listed demo domains; true otherwise |
| ChangeEmail.IsRealEmailCaseInsensitive | app/api/auth/change-email/route.ts:19 | `isRealEmail` gives the same answer for addresses equal up to ASCII case |
| ChangeEmail.IsRealEmailNeedsAt | app/api/auth/change-email/route.ts:19-21 | without an "@" the domain is missing and the address is refused |
| ChangeEmail.IsRealEmailOfParts | app/api/auth/change-email/route.ts:19-36 | for one "@": accepted exactly when the lower-cased local part contains no demo keyword and has at least 3 characters, and the lower-cased domain is non-empty and not one of the four listed domains |
| ChangeEmail.AdminAddressRefused | app/api/auth/change-email/route.ts:24-29 | "admin@example.com" is refused |
| ChangeEmail.KeywordPrefixRefused | app/api/auth/change-email/route.ts:24-29 | "test123@gmail.com" is refused (keyword in the local part) |
| ChangeEmail.ShortLocalPartRefused | app/api/auth/change-email/route.ts:24-29 | "ab@acme.co" is refused (local part under 3 characters) |
| ChangeEmail.ListedDomainRefusedInAnyCase | app/api/auth/change-email/route.ts:32-34 | "sarah.jones@Example.COM" is refused: the listed domain matches after lower-casing |
| ChangeEmail.SarahJonesIsNotGeneric | app/api/auth/change-email/route.ts:24-29 | "sarah.jones" contains none of the six keywords |
| ChangeEmail.PlainAddressAccepted | app/api/auth/change-email/route.ts:10-37 | "sarah.jones@acme.co" is accepted |
| ChangeEmail.SubdomainOfListedDomainAccepted | app/api/auth/change-email/route.ts:32-34 | "sarah.jones@mail.example.com" is accepted: the domain list is an exact match |
| ChangeEmail.EmailFormatIsRegex | app/api/auth/change-email/route.ts:57 | the format scan (no whitespace, one "@" with text before it, a "." with text on both sides after it) accepts exactly the language of `/^[^\s@]+@[^\s@]+\.[^\s@]+$/` |
| ChangeEmail.FormatIsRegex | app/api/auth/change-email/route.ts:57 | a whitespace-free string with a sole "@" at a positive position and a later inner "." matches the expression |
| ChangeEmail.RegexIsFormat | app/api/auth/change-email/route.ts:57 | a match has no whitespace and its "@" is the only one |
| ChangeEmail.MatchesEmailFormat | app/api/auth/change-email/route.ts:56-57 | the scan behind `emailRegex.test`: no whitespace, exactly one "@" with something before it, and a "." after the character following the "@" with something after it |
| ChangeEmail.Guards | app/api/auth/change-email/route.ts:42-106 | the seven checks pass exactly when: authenticated, both fields truthy, the format matches, the address is real, the admin exists, the password matches the stored hash, and no other admin owns the new e-mail |
| ChangeEmail.OwnEmailIsNoConflict | app/api/auth/change-email/route.ts:101 | an admin's own current e-mail is owned by no other id |
| ChangeEmail.ResubmittingOwnEmail | app/api/auth/change-email/route.ts:97-112 | re-submitting one's own (valid, real) e-mail with the right password passes every check; `POST` answers 200 and the table it leaves equals the table it found |
| ChangeEmail.Screen | app/api/auth/change-email/route.ts:42-106 | the early returns in source order answer exactly the first failing guard, or none |
| ChangeEmail.Outcome | app/api/auth/change-email/route.ts:39-143 | the answer, table and mails of `POST`: a failing check answers with its response, leaves the table and sends nothing; otherwise 200, only the signed-in admin's e-mail is replaced, and mail goes to the new and then the old address |
| ChangeEmail.Post | app/api/auth/change-email/route.ts:39-143 | the handler's answer, the table it leaves and the mails it sends are those of `Outcome` on the table it found, and the store stays valid |
| ProfileRoute.MapImage | app/api/admin/profile/route.ts:71-74 | absent image → keep; "" → set to null; any other string → set to that string |
| ProfileRoute.PatchOf | app/api/admin/profile/route.ts:101-105 | the update's `data`: `name || undefined` and `email || undefined` (an absent or empty value keeps the column) and the tri-state image of `MapImage` |
| ProfileRoute.Shown | app/api/admin/profile/route.ts:89-90 | a truthy image is shown as itself, any other as "None"; never empty |
| ProfileRoute.ChangeList | app/api/admin/profile/route.ts:77-92 | at most three entries, and none exactly when no field changes |
| ProfileRoute.ChangeListEntries | app/api/admin/profile/route.ts:77-92 | entries in the order Name, Email, Image URL; a field is listed exactly when a provided truthy name/e-mail differs or the mapped image is defined and differs; each entry shows the stored and the new value |
| ProfileRoute.NoChangesExactlyWhenNoOp | app/api/admin/profile/route.ts:94-106 | the change list is empty exactly when applying the update would leave the row as it is |
| ProfileRoute.UpdateTouchesOnlyProvided | app/api/admin/profile/route.ts:99-106 | id and password are kept; name and e-mail change only when truthy; the image follows the tri-state |
| ProfileRoute.ResendIsNoChange | app/api/admin/profile/route.ts:94-96 | re-sending the payload just applied records no change |
| ProfileRoute.ClearingNullImageRecordsNothing | app/api/admin/profile/route.ts:86 | clearing an image that is already null records nothing |
| ProfileRoute.RecordChanges | app/api/admin/profile/route.ts:77-92 | the conditional pushes build exactly the change list |
| ProfileRoute.Put | app/api/admin/profile/route.ts:43-139 | 401, 400, 404 and "No changes detected" write nothing and send nothing; a unique-e-mail refusal answers 500 and writes nothing; otherwise the row becomes the patched row and the notice with the change list goes to the e-mail held before the update |
| Upload.Admission | app/api/upload/route.ts:10-32 | the three checks pass exactly when a file is present, its type starts with "image/" and its size is at most 5 MiB |
| Upload.FiveMebibytesAdmitted | app/api/upload/route.ts:27-32 | exactly 5 MiB is admitted; one byte more is refused as too large |
| Upload.TypeIsCheckedBeforeSize | app/api/upload/route.ts:19-32 | a non-image is refused for its type whatever its size |
| Upload.Decimal | app/api/upload/route.ts:49 | a number prints as at least one decimal digit |
| Upload.UniqueSuffix | app/api/upload/route.ts:49 | the suffix has no whitespace |
| Upload.LocalFileName | app/api/upload/route.ts:50 | suffix, "-", then the name with exactly its whitespace turned into "-": same length, no whitespace in the name part |
| Upload.LocalFileNameHasNoSpace | app/api/upload/route.ts:49-50 | the whole local file name is free of whitespace |
| Upload.Post | app/api/upload/route.ts:6-72 | the first failing admission check answers; otherwise, when the storage call threw, 500 "Upload failed"; otherwise the blob URL when a blob token is set, else "/uploads/" followed by the local file name |
| Initials.GetInitials | app/dashboard/DashboardClient.tsx:31-38 | one or two characters; "A" for the empty name; a name without a space gives its upper-cased first character |
| Initials.InitialsOfTwoWords | app/profile/ProfileForm.tsx:93-96 | with two words, the upper-cased first letters of the first two words |
| Initials.InitialsOnlyFirstTwoWords | app/dashboard/DashboardClient.tsx:33-37 | names that agree on their first two words have the same initials |
| Initials.AvatarFor | app/dashboard/DashboardClient.tsx:75-87 | initials are shown exactly when the image is null, absent or ""; otherwise the photo with the image's URL. The initials need a computable name only when they are shown |
| TripForm.Fires | app/trips/create/CreateTripForm.tsx:43 | the add handler acts on a click or on the Enter key, and on no other key |
| TripForm.WithPlace | app/trips/create/CreateTripForm.tsx:47-48 | the trimmed input appended to the place list unless the list already holds it |
| TripForm.AddOnce | app/trips/create/CreateTripForm.tsx:47-49 | the result holds the old places and the new one, keeps the old list as prefix, grows by at most one and stays duplicate-free |
| TripForm.WithPlaceKeepsValid | app/trips/create/CreateTripForm.tsx:41-51 | adding a non-blank trimmed input keeps places trimmed, non-empty and duplicate-free |
| TripForm.Without | app/trips/create/CreateTripForm.tsx:55 | `filter` removes every occurrence of the value and keeps the rest (as a multiset) |
| TripForm.WithoutUnique | app/trips/create/CreateTripForm.tsx:55 | in a duplicate-free list, removing a value drops exactly its position and keeps the order |
| TripForm.WithoutKeepsNoDuplicates | app/trips/create/CreateTripForm.tsx:55 | removing keeps the list duplicate-free |
| TripForm.WithoutKeepsValid | app/trips/create/CreateTripForm.tsx:54-56 | removing keeps the place list valid |
| TripForm.RemoveAt | app/trips/create/CreateTripForm.tsx:91 | an index in range drops exactly that element, keeping the order; any other index changes nothing |
| TripForm.Successes | app/trips/create/CreateTripForm.tsx:65-84 | at most one URL per file, each returned by some upload |
| TripForm.SuccessesAppend | app/trips/create/CreateTripForm.tsx:65-84 | two batches append the successes of the first, then of the second |
| TripForm.AllSucceeded | app/trips/create/CreateTripForm.tsx:65-84 | when every upload succeeds, every URL is appended, in order |
| TripForm.ClientChecks | app/trips/create/CreateTripForm.tsx:99-119 | the five checks pass exactly when title ≥ 3, tour type ≥ 2, includes ≥ 5 characters and places and images are non-empty |
| TripForm.Present | app/trips/create/CreateTripForm.tsx:131-132 | `notes or undefined`: absent exactly for "", otherwise the string |
| TripForm.Payload | app/trips/create/CreateTripForm.tsx:127-135 | the posted body: title, tour type, includes, places and images as typed; notes and description absent when empty |
| TripForm.ClientChecksMatchSchema | app/trips/create/CreateTripForm.tsx:99-136 | the form posts exactly the payloads the server's create schema accepts |
| TripForm.CreateTripForm.constructor | app/trips/create/CreateTripForm.tsx:25-38 | every field starts empty |
| TripForm.CreateTripForm.PlaceAdd | app/trips/create/CreateTripForm.tsx:41-52 | on a click or Enter with a non-blank input, the trimmed input is added once and the input cleared; otherwise nothing changes; places stay valid |
| TripForm.CreateTripForm.PlaceRemove | app/trips/create/CreateTripForm.tsx:54-56 | places become the filtered list, nothing else changes, places stay valid |
| TripForm.CreateTripForm.ImageUpload | app/trips/create/CreateTripForm.tsx:58-88 | no files: nothing; otherwise the error is cleared and the successful URLs are appended in file order |
| TripForm.CreateTripForm.ImageRemove | app/trips/create/CreateTripForm.tsx:90-92 | images lose exactly the element at the index |
| TripForm.CreateTripForm.ClientRefusal | app/trips/create/CreateTripForm.tsx:99-119 | the early returns answer the first failing client check's message, or none |
| TripForm.CreateTripForm.Submit | app/trips/create/CreateTripForm.tsx:94-165 | a failing check sets its message and posts nothing; otherwise the payload of the old fields is posted, then a success resets every field but the place input and a failure sets the server's message, the fallback or the network message |
| TripForm.CreateTripForm.Settle | app/trips/create/CreateTripForm.tsx:138-161 | what the server's answer does to the message, the error and the fields |
| Profile.LoadedImage | app/profile/ProfileForm.tsx:41 | the loaded image field is "" exactly when the stored image is null, absent or "", and otherwise that image |
| Profile.SubmittedBody | app/profile/ProfileForm.tsx:110 | the form always sends name, e-mail and image |
| Profile.SubmittedBodyNeverEmpty | app/profile/ProfileForm.tsx:110 | the form's payload is refused only for a short name or an invalid e-mail |
| Profile.UnchangedFormRecordsNothing | app/profile/ProfileForm.tsx:41 | saving the loaded profile unedited records no change (a null image goes out as "" and comes back as null) |
| Profile.StoredEmptyImageIsRecorded | app/profile/ProfileForm.tsx:41 | a stored image of "" is the exception: one "None → None" change is recorded |
| Profile.RemovedAvatarIsCleared | app/profile/ProfileForm.tsx:87-89 | after removing the avatar, saving clears the stored image to null, and records a change when there was an image |
| Profile.ProfileForm.constructor | app/profile/ProfileForm.tsx:22-30 | every field starts empty |
| Profile.ProfileForm.Avatar | app/profile/ProfileForm.tsx:173-185 | the initials are shown exactly when the image is "", otherwise the photo with that URL. The initials need a computable name only when they are shown |
| Profile.ProfileForm.Load | app/profile/ProfileForm.tsx:32-52 | a loaded profile fills the fields, a null or absent image becoming ""; a failed load sets the error only |
| Profile.ProfileForm.FileChange | app/profile/ProfileForm.tsx:54-85 | no file: nothing; a successful upload replaces the image and clears the error; a failed one keeps the image and sets the server's message or a fallback |
| Profile.ProfileForm.RemoveImage | app/profile/ProfileForm.tsx:87-89 | the image becomes "" and nothing else changes |
| Profile.ProfileForm.Submit | app/profile/ProfileForm.tsx:100-126 | the current fields are sent unchanged; the answer sets the message or the error |

## Left out

- Prisma, Vercel Blob, the filesystem, `fetch` and nodemailer are not modelled as I/O. Their results are inputs and their effects are records (`Mail`, `ProfileNotice`).
- The HTML mail templates are not modelled. `generateEmailChangeEmailHTML` and `generateProfileUpdateEmailHTML` are not part of this model.
- Server-side `catch` blocks are left out except two. The profile update's refusal on the unique e-mail column answers 500 (`ProfileRoute.Put`). A thrown storage call in the upload route answers 500 "Upload failed" (the `stored` parameter of `Upload.Post`). The other server-side catches are left out: database outages in every route, malformed JSON, and a failing `request.formData()`. A `file` entry that is a string, whose `type.startsWith` throws into the upload route's catch, is left out too. The client-side catches are modelled: `TripReply.NetworkError`, a failed upload in `ProfileForm.FileChange`, a failed save in `ProfileForm.Submit` and a failed load (`None`) in `ProfileForm.Load`.
- Payload values of the wrong JSON type (a number where a string is expected) are left out. Schemas take typed records, and the change-email body treats a missing value as `None`.
- String lengths count Unicode scalar values, not UTF-16 code units as JavaScript does. Case maps cover ASCII letters only.
- Text.Lower: `toLowerCase` is modelled on ASCII letters only. Non-ASCII letters are left unchanged, and a lower-casing that changes length is lost: JavaScript turns "İ" into two characters. In `isRealEmail` this matters only through the "fewer than 3 characters" test on the local part. "İa@acme.co" is refused here but accepted by JavaScript. No non-ASCII letter lower-cases into a demo keyword or into a listed domain, so the other tests agree.
- Text.Upper: `toUpperCase` is modelled on ASCII letters only. Non-ASCII letters are left unchanged.
- Initials.GetInitials: defined only where the first two space-separated pieces are non-empty (`InitialsDefined`). A leading or doubled space makes JavaScript index an empty piece, and that behaviour is left out.
- zod's `.email()` and bcrypt's comparison are predicates passed in as parameters. Their own definitions are not modelled.
- `Math.round(Math.random() * 1e9)` and `Date.now()` are natural-number parameters.
- The zod issue list keeps only each issue's path and message. `error.format()` and the `errors` field of the 400 answer are left out.
- The profile route's success answer also echoes the updated admin row. Only the message is modelled. The profile route's `GET` handler is not part of this model.
- Loading and uploading flags, `router.push`/`router.refresh`, `setTimeout` and clearing the file input are left out.
- The trip form's `placeInput` is not reset on a successful submit, exactly as in the source.
- Concurrent requests are left out. Each handler runs against one snapshot of the table.
- The pages, layout components, middleware, JWT helpers and the auth routes other than change-email are not part of this model.
