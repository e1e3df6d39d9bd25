/**
 * The change-email route (app/api/auth/change-email/route.ts): the "not a
 * demo address" heuristic, the ad-hoc format regular expression, and the
 * POST handler's checks, run in a fixed order before the single write.
 */
module ChangeEmail {
  import opened Common
  import opened Text
  import opened Checks
  import opened Store

  const DemoKeywords: seq<string> := ["test", "demo", "user", "admin", "guest", "example"]
  const DemoDomains: seq<string> := ["example.com", "test.com", "mailinator.com", "tempmail.org"]

  /** A local part that is shorter than 3 characters or contains a demo keyword anywhere. */
  predicate GenericLocalPart(local: string)
  {
    (exists k | k in DemoKeywords :: Contains(local, k)) || |local| < 3
  }

  /** `isRealEmail`: the first two `@`-separated pieces of the lower-cased
      address are the local part and the domain (a missing domain is
      `undefined`, falsy like ""). */
  function IsRealEmail(email: string): bool
  {
    var parts := Split(Lower(email), '@');
    var local := parts[0];
    var domain := if |parts| >= 2 then parts[1] else "";
    if local == "" || domain == "" then false
    else if GenericLocalPart(local) then false
    else if domain in DemoDomains then false
    else true
  }

  /** The heuristic ignores ASCII case: it only ever sees the lower-cased address. */
  lemma IsRealEmailCaseInsensitive(a: string, b: string)
    requires Lower(a) == Lower(b)
    ensures IsRealEmail(a) == IsRealEmail(b)
    ensures IsRealEmail(Lower(a)) == IsRealEmail(a)
  {
    LowerIdempotent(a);
  }

  /** Without an "@" there is no domain, so the address is refused. */
  lemma IsRealEmailNeedsAt(email: string)
    requires '@' !in email
    ensures !IsRealEmail(email)
  {
    LowerKeepsNonLetter(email, '@');
    SplitWithoutSeparator(Lower(email), '@');
  }

  /** For an address with exactly one "@": real exactly when the lower-cased
      local part is not generic and the lower-cased domain is non-empty and
      not one of the four listed domains (an exact match, so a sub-domain of
      a listed domain passes). */
  lemma IsRealEmailOfParts(local: string, domain: string)
    requires '@' !in local && '@' !in domain
    ensures IsRealEmail(local + "@" + domain) <==>
      !GenericLocalPart(Lower(local)) && Lower(domain) != "" && Lower(domain) !in DemoDomains
  {
    LowerConcat(local + "@", domain);
    LowerConcat(local, "@");
    assert Lower(local + "@" + domain) == Lower(local) + ['@'] + Lower(domain);
    LowerKeepsNonLetter(local, '@');
    LowerKeepsNonLetter(domain, '@');
    SplitAfterWord(Lower(local), Lower(domain), '@');
    SplitWithoutSeparator(Lower(domain), '@');
  }

  /** A demo keyword in the local part refuses the address (and so does a listed domain). */
  lemma AdminAddressRefused()
    ensures !IsRealEmail("admin" + "@" + "example.com")
  {
    IsRealEmailOfParts("admin", "example.com");
    LowerOfLowerCase("admin");
    assert OccursAt("admin", "admin", 0);
    assert Contains("admin", DemoKeywords[3]);
  }

  /** A keyword anywhere in the local part refuses the address, whatever the domain. */
  lemma KeywordPrefixRefused()
    ensures !IsRealEmail("test123" + "@" + "gmail.com")
  {
    IsRealEmailOfParts("test123", "gmail.com");
    LowerOfLowerCase("test123");
    assert "test123"[0..4] == "test";
    assert OccursAt("test123", "test", 0);
    assert Contains("test123", DemoKeywords[0]);
  }

  /** A local part shorter than three characters refuses the address. */
  lemma ShortLocalPartRefused()
    ensures !IsRealEmail("ab" + "@" + "acme.co")
  {
    IsRealEmailOfParts("ab", "acme.co");
  }

  /** A listed domain is refused in any letter case. */
  lemma ListedDomainRefusedInAnyCase()
    ensures !IsRealEmail("sarah.jones" + "@" + "Example.COM")
  {
    var domain := Lower("Example.COM");
    assert domain == DemoDomains[0] by {
      forall i | 0 <= i < |domain| ensures domain[i] == DemoDomains[0][i] {
        assert domain[i] == LowerChar("Example.COM"[i]);
      }
    }
    IsRealEmailOfParts("sarah.jones", "Example.COM");
  }

  /** "sarah.jones" contains none of the demo keywords: no two adjacent
      characters of it start one. */
  lemma SarahJonesIsNotGeneric()
    ensures !GenericLocalPart("sarah.jones")
  {
    var s := "sarah.jones";
    forall k, i | k in DemoKeywords ensures !OccursAt(s, k, i) {
      if 0 <= i && i + |k| <= |s| {
        assert s[i..i + |k|][0] == s[i] && s[i..i + |k|][1] == s[i + 1];
      }
    }
  }

  /** An ordinary address at an unlisted domain is accepted. */
  lemma PlainAddressAccepted()
    ensures IsRealEmail("sarah.jones" + "@" + "acme.co")
  {
    SarahJonesIsNotGeneric();
    LowerOfLowerCase("sarah.jones");
    LowerOfLowerCase("acme.co");
    IsRealEmailOfParts("sarah.jones", "acme.co");
  }

  /** A sub-domain of a listed domain is not listed: the domain test is an exact match. */
  lemma SubdomainOfListedDomainAccepted()
    ensures IsRealEmail("sarah.jones" + "@" + "mail.example.com")
  {
    SarahJonesIsNotGeneric();
    LowerOfLowerCase("sarah.jones");
    LowerOfLowerCase("mail.example.com");
    IsRealEmailOfParts("sarah.jones", "mail.example.com");
  }

  // ---------------------------------------------------------------- format

  /** A run of `[^\s@]`. */
  predicate Plain(s: string)
  {
    forall i | 0 <= i < |s| :: !IsSpace(s[i]) && s[i] != '@'
  }

  /** The language of `/^[^\s@]+@[^\s@]+\.[^\s@]+$/`: three non-empty runs
      without whitespace or "@", joined by "@" and by ".". */
  ghost predicate RegexMatches(s: string)
  {
    exists i, j :: 0 < i && i + 1 < j && j + 1 < |s| && s[i] == '@' && s[j] == '.'
      && Plain(s[..i]) && Plain(s[i + 1..j]) && Plain(s[j + 1..])
  }

  /** The format test as a scan: no whitespace, exactly one "@" with text
      before it, and after it a "." with text on both sides. */
  function MatchesEmailFormat(s: string): bool
  {
    NoSpace(s) && '@' in s
    && var k := IndexOf(s, '@');
    k > 0 && '@' !in s[k + 1..] && exists j | k + 1 < j < |s| - 1 :: s[j] == '.'
  }

  /** The scan accepts exactly the language of the regular expression. */
  lemma EmailFormatIsRegex(s: string)
    ensures MatchesEmailFormat(s) <==> RegexMatches(s)
  {
    if MatchesEmailFormat(s) {
      var i := IndexOf(s, '@');
      var j :| i + 1 < j < |s| - 1 && s[j] == '.';
      FormatIsRegex(s, i, j);
    }
    if RegexMatches(s) {
      var i, j :| 0 < i && i + 1 < j && j + 1 < |s| && s[i] == '@' && s[j] == '.'
        && Plain(s[..i]) && Plain(s[i + 1..j]) && Plain(s[j + 1..]);
      RegexIsFormat(s, i, j);
      assert s[i] in s;
      assert IndexOf(s, '@') == i;
    }
  }

  /** A stretch of `s` without whitespace or "@" is a plain run. */
  lemma PlainSlice(s: string, a: nat, b: nat)
    requires a <= b <= |s| && NoSpace(s)
    requires forall m | a <= m < b :: s[m] != '@'
    ensures Plain(s[a..b])
  {
    forall m | 0 <= m < b - a ensures !IsSpace(s[a..b][m]) && s[a..b][m] != '@' {
      assert s[a..b][m] == s[a + m];
    }
  }

  /** An "@" with none before it and none after it is the only one. */
  lemma OnlyAt(s: string, i: nat)
    requires i < |s| && s[i] == '@' && '@' !in s[..i] && '@' !in s[i + 1..]
    ensures forall m | 0 <= m < |s| && m != i :: s[m] != '@'
  {
    forall m | 0 <= m < |s| && m != i ensures s[m] != '@' {
      if m < i {
        assert s[m] == s[..i][m];
      } else {
        assert s[m] == s[i + 1..][m - i - 1];
      }
    }
  }

  lemma RegexWitness(s: string, i: int, j: int)
    requires 0 < i && i + 1 < j && j + 1 < |s| && s[i] == '@' && s[j] == '.'
    requires Plain(s[..i]) && Plain(s[i + 1..j]) && Plain(s[j + 1..])
    ensures RegexMatches(s)
  {
  }

  lemma FormatIsRegex(s: string, i: nat, j: nat)
    requires NoSpace(s) && 0 < i && i + 1 < j < |s| - 1 && s[i] == '@' && s[j] == '.'
    requires '@' !in s[..i] && '@' !in s[i + 1..]
    ensures RegexMatches(s)
  {
    assert Plain(s[..i]) && Plain(s[i + 1..j]) && Plain(s[j + 1..]) by {
      OnlyAt(s, i);
      PlainSlice(s, 0, i);
      PlainSlice(s, i + 1, j);
      PlainSlice(s, j + 1, |s|);
      assert s[0..i] == s[..i] && s[j + 1..|s|] == s[j + 1..];
    }
    RegexWitness(s, i, j);
  }

  lemma RegexIsFormat(s: string, i: nat, j: nat)
    requires 0 < i && i + 1 < j && j + 1 < |s| && s[i] == '@' && s[j] == '.'
    requires Plain(s[..i]) && Plain(s[i + 1..j]) && Plain(s[j + 1..])
    ensures NoSpace(s)
    ensures forall m | 0 <= m < |s| && s[m] == '@' :: m == i
    ensures '@' !in s[i + 1..]
  {
    forall m | 0 <= m < |s| ensures !IsSpace(s[m]) && (s[m] == '@' ==> m == i) {
      if m < i { assert s[m] == s[..i][m]; }
      else if i < m < j { assert s[m] == s[i + 1..j][m - i - 1]; }
      else if j < m { assert s[m] == s[j + 1..][m - j - 1]; }
    }
  }


  // ---------------------------------------------------------------- POST

  /** The JSON body; a missing or non-string value is `None`. */
  datatype EmailChangeRequest = EmailChangeRequest(newEmail: Option<string>, password: Option<string>)

  const Unauthorized := Response(401, "Unauthorized")
  const MissingFields := Response(400, "New email and current password are required")
  const BadFormat := Response(400, "Invalid email format")
  const NotReal := Response(400, "Please use a professional email address. Demo or generic emails are not allowed.")
  const AdminMissing := Response(404, "Admin not found")
  const WrongPassword := Response(400, "Incorrect password. Confirmation failed.")
  const EmailTaken := Response(400, "This email is already registered with another account")
  const EmailUpdated := Response(200, "Email updated successfully")

  const NewAddressSubject := "Email Address Updated - The Kind Travel"
  const OldAddressSubject := "Security Alert: Your Email Was Changed - The Kind Travel"

  function OrElse<T>(o: Option<T>, default: T): T
  {
    if o.Some? then o.value else default
  }

  /** The handler's guards in the order it runs them. A guard is only ever
      consulted when all earlier ones passed, so the placeholder values used
      for absent inputs are never what decides. `compare` is bcrypt's
      comparison of the given password with the stored hash. */
  function Guards(admins: map<int, Admin>, auth: Option<int>, req: EmailChangeRequest,
                  compare: (string, string) -> bool): (cs: seq<Check<Response>>)
    ensures |cs| == 7
    ensures FirstFailure(cs).None? <==>
      && auth.Some? && Truthy(req.newEmail) && Truthy(req.password)
      && MatchesEmailFormat(req.newEmail.value) && IsRealEmail(req.newEmail.value)
      && auth.value in admins
      && compare(req.password.value, admins[auth.value].password)
      && !TakenByOther(admins, req.newEmail.value, auth.value)
  {
    var id := OrElse(auth, 0);
    var newEmail := OrElse(req.newEmail, "");
    var password := OrElse(req.password, "");
    var cs := [
      Check(auth.Some?, Unauthorized),
      Check(Truthy(req.newEmail) && Truthy(req.password), MissingFields),
      Check(MatchesEmailFormat(newEmail), BadFormat),
      Check(IsRealEmail(newEmail), NotReal),
      Check(id in admins, AdminMissing),
      Check(id in admins && compare(password, admins[id].password), WrongPassword),
      Check(!TakenByOther(admins, newEmail, id), EmailTaken)
    ];
    assert (forall j | 0 <= j < 7 :: cs[j].passes) <==>
      cs[0].passes && cs[1].passes && cs[2].passes && cs[3].passes && cs[4].passes && cs[5].passes && cs[6].passes;
    cs
  }

  /** An admin's current e-mail is owned by no other admin. */
  lemma OwnEmailIsNoConflict(admins: map<int, Admin>, id: int)
    requires EmailsUnique(admins) && id in admins
    ensures !TakenByOther(admins, admins[id].email, id)
  {
  }

  /** What `POST` answers, the table it leaves and the mails it sends: a
      refusal writes and sends nothing; otherwise only the e-mail of the
      signed-in admin changes, and mail goes to the new address, then the old one. */
  function Outcome(admins: map<int, Admin>, auth: Option<int>, req: EmailChangeRequest,
                   compare: (string, string) -> bool): (Response, map<int, Admin>, seq<Mail>)
  {
    var refusal := FirstFailure(Guards(admins, auth, req, compare));
    if refusal.Some? then
      (refusal.value, admins, [])
    else if auth.Some? && auth.value in admins && req.newEmail.Some? then
      var before := admins[auth.value];
      (EmailUpdated, admins[auth.value := before.(email := req.newEmail.value)],
       [Mail(req.newEmail.value, NewAddressSubject), Mail(before.email, OldAddressSubject)])
    else
      (EmailUpdated, admins, [])
  }

  /** Re-submitting one's own current e-mail passes the duplicate check, and
      the write it leads to leaves the table as it was. */
  lemma ResubmittingOwnEmail(admins: map<int, Admin>, id: int, password: string,
                             compare: (string, string) -> bool)
    requires EmailsUnique(admins) && id in admins
    requires var e := admins[id].email;
      e != "" && password != "" && MatchesEmailFormat(e) && IsRealEmail(e)
      && compare(password, admins[id].password)
    ensures var req := EmailChangeRequest(Some(admins[id].email), Some(password));
      && FirstFailure(Guards(admins, Some(id), req, compare)).None?
      && Outcome(admins, Some(id), req, compare).0 == EmailUpdated
      && Outcome(admins, Some(id), req, compare).1 == admins
  {
    OwnEmailIsNoConflict(admins, id);
  }

  /** The handler's early returns, in the source's order: the answer of the
      first guard that fails, or `None` when the change may go ahead. Reads
      the table and changes nothing. */
  method Screen(store: AdminStore, auth: Option<int>, req: EmailChangeRequest, compare: (string, string) -> bool)
    returns (refusal: Option<Response>)
    requires store.Valid()
    ensures refusal == FirstFailure(Guards(store.admins, auth, req, compare))
  {
    ghost var cs := Guards(store.admins, auth, req, compare);
    if auth.None? {
      FailureDecides(cs, 0);
      return Some(Unauthorized);
    }
    assert cs[0].passes;
    if !Truthy(req.newEmail) || !Truthy(req.password) {
      FailureDecides(cs, 1);
      return Some(MissingFields);
    }
    assert cs[1].passes;
    var newEmail := req.newEmail.value;
    if !MatchesEmailFormat(newEmail) {
      FailureDecides(cs, 2);
      return Some(BadFormat);
    }
    assert cs[2].passes;
    if !IsRealEmail(newEmail) {
      FailureDecides(cs, 3);
      return Some(NotReal);
    }
    assert cs[3].passes;
    var admin := store.FindById(auth.value);
    if admin.None? {
      FailureDecides(cs, 4);
      return Some(AdminMissing);
    }
    assert cs[4].passes;
    if !compare(req.password.value, admin.value.password) {
      FailureDecides(cs, 5);
      return Some(WrongPassword);
    }
    assert cs[5].passes;
    if TakenByOther(store.admins, newEmail, admin.value.id) {
      FailureDecides(cs, 6);
      return Some(EmailTaken);
    }
    return None;
  }

  /** `POST`: the checks in order, the first failure answers and nothing is
      written; otherwise only this admin's e-mail changes and both addresses
      are notified. A failed notification is caught and does not change the
      answer, so the mails are the attempts made. */
  method Post(store: AdminStore, auth: Option<int>, req: EmailChangeRequest, compare: (string, string) -> bool)
    returns (resp: Response, mails: seq<Mail>)
    requires store.Valid()
    modifies store
    ensures store.Valid()
    ensures (resp, store.admins, mails) == Outcome(old(store.admins), auth, req, compare)
  {
    var refusal := Screen(store, auth, req, compare);
    if refusal.Some? {
      return refusal.value, [];
    }
    var id := auth.value;
    var newEmail := req.newEmail.value;
    var oldEmail := store.admins[id].email;
    var written := store.Update(id, AdminPatch(Keep, SetTo(newEmail), Keep));
    assert written;
    mails := [Mail(newEmail, NewAddressSubject), Mail(oldEmail, OldAddressSubject)];
    resp := EmailUpdated;
  }
}
