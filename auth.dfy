/** The account views of authapp/views.py: the full-name split, sign-up,
    the partial profile update and the one-time creation of the first
    administrator. Each view's outcome on the user table is a pure
    function; the methods perform it on the table step by step. */
module Auth {
  import opened Wrappers
  import opened Text
  import opened Models
  import Form
  import Views

  type Response = Views.Response

  // ---------------------------------------------------------------------
  // The full-name split
  // ---------------------------------------------------------------------

  /** `full.split() if full and len(full.split()) > 1 else (full, '')`,
      unpacked into two names: two words give the two names, anything that
      is not more than one word is kept whole as the first name, and three
      or more words fail to unpack (None). */
  function SplitFullName(full: Form.Field): (r: Option<(Form.Field, string)>)
    ensures r.None? <==> Form.Truthy(full) && |Words(full.value)| > 2
    ensures Form.Truthy(full) && |Words(full.value)| == 2 ==>
      r == Some((Some(Words(full.value)[0]), Words(full.value)[1]))
    ensures !(Form.Truthy(full) && |Words(full.value)| > 1) ==> r == Some((full, ""))
    ensures r.Some? && Form.Truthy(full) ==> Form.Truthy(r.value.0)
  {
    if Form.Truthy(full) && |Words(full.value)| > 1 then
      var ws := Words(full.value);
      if |ws| == 2 then Some((Some(ws[0]), ws[1])) else None
    else Some((full, ""))
  }

  /** Two words separated by a space split back into those two words. */
  lemma SplitTwoWords(first: string, last: string)
    requires IsWord(first) && IsWord(last)
    ensures SplitFullName(Some(first + " " + last)) == Some((Some(first), last))
  {
    WordsOfJoin([first, last]);
    assert Join([first, last], ' ') == first + " " + last;
  }

  /** One word is kept whole, surrounding blanks included. */
  lemma SplitOneWord(w: string)
    requires IsWord(w)
    ensures SplitFullName(Some(w)) == Some((Some(w), ""))
  {
    WordsOfWord(w);
  }

  /** A three-word name cannot be unpacked into two. */
  lemma SplitThreeWords(a: string, b: string, c: string)
    requires IsWord(a) && IsWord(b) && IsWord(c)
    ensures SplitFullName(Some(a + " " + b + " " + c)).None?
  {
    var s := a + " " + b + " " + c;
    JoinThree(a, b, c);
    WordsOfJoin([a, b, c]);
    assert |Words(s)| == 3;
    assert Form.Truthy(Some(s)) by { assert s[0] == a[0]; }
  }

  lemma JoinThree(a: string, b: string, c: string)
    ensures Join([a, b, c], ' ') == a + " " + b + " " + c
  {
    JoinCons([a, b, c], ' ');
    assert [a, b, c][1..] == [b, c];
    JoinCons([b, c], ' ');
    assert [b, c][1..] == [c];
  }

  // ---------------------------------------------------------------------
  // Inserting a user
  // ---------------------------------------------------------------------

  predicate UsernameTaken(rows: map<UserId, User>, name: string) {
    exists k :: k in rows && rows[k].username == name
  }

  predicate EmailTaken(rows: map<UserId, User>, email: string) {
    exists k :: k in rows && rows[k].email == email
  }

  predicate AnyStaff(rows: map<UserId, User>) {
    exists k :: k in rows && rows[k].isStaff
  }

  // ---------------------------------------------------------------------
  // BaseUserManager.normalize_email
  // ---------------------------------------------------------------------

  /** The position of the last '@' in s. */
  function LastAt(s: string): (i: nat)
    requires '@' in s
    ensures i < |s| && s[i] == '@'
    ensures '@' !in s[i + 1..]
  {
    var n := |s| - 1;
    if s[n] == '@' then n
    else
      assert s == s[..n] + [s[n]];
      var i := LastAt(s[..n]);
      assert s[i + 1..] == s[..n][i + 1..] + [s[n]];
      i
  }

  /** The last '@' is the only '@' with none after it. */
  lemma LastAtUnique(s: string, j: nat)
    requires j < |s| && s[j] == '@' && '@' !in s[j + 1..]
    ensures LastAt(s) == j
  {
    var k := LastAt(s);
    InDrop(s, k + 1, j);
    InDrop(s, j + 1, k);
  }

  lemma InDrop(s: string, a: nat, k: nat)
    ensures a <= k < |s| ==> s[k] in s[a..]
  {
    if a <= k < |s| {
      assert s[a..][k - a] == s[k];
    }
  }

  lemma InTake(s: string, b: nat, k: nat)
    ensures k < b <= |s| ==> s[k] in s[..b]
  {
    if k < b <= |s| {
      assert s[..b][k] == s[k];
    }
  }

  lemma InSlice(s: string, a: nat, b: nat, k: nat)
    ensures a <= k < b <= |s| ==> s[k] in s[a..b]
  {
    if a <= k < b <= |s| {
      assert s[a..b][k - a] == s[k];
    }
  }

  lemma AroundIndex(s: string, i: nat)
    requires i < |s|
    ensures s == s[..i] + [s[i]] + s[i + 1..]
  {
  }

  lemma NoAtInLower(s: string)
    requires '@' !in s
    ensures '@' !in LowerStr(s)
  {
    var l := LowerStr(s);
    forall k | 0 <= k < |l| ensures l[k] != '@' {
      assert s[k] in s;
    }
  }

  /** An '@' is not whitespace, so stripping keeps it. */
  lemma AtSurvivesStrip(e: string)
    requires '@' in e
    ensures '@' in Strip(e)
  {
    StripMeaning(e);
    var t := Strip(e);
    var i :| Framed(e, t, i);
    var k :| 0 <= k < |e| && e[k] == '@';
    InTake(e, i, k);
    InDrop(e, i + |t|, k);
    InSlice(e, i, i + |t|, k);
  }

  /** The address `name@domain` with the domain lower-cased. */
  function LowerDomain(name: string, domain: string): string {
    name + ['@'] + LowerStr(domain)
  }

  lemma LowerDomainAt(name: string, domain: string)
    requires '@' !in domain
    ensures var r := LowerDomain(name, domain);
      LastAt(r) == |name| && r[..|name|] == name && r[|name| + 1..] == LowerStr(domain)
  {
    var r, ld := LowerDomain(name, domain), LowerStr(domain);
    NoAtInLower(domain);
    assert r[|name| + 1..] == ld;
    LastAtUnique(r, |name|);
    assert r[..|name|] == name;
  }

  lemma LowerDomainStripped(name: string, domain: string)
    requires Stripped(name + ['@'] + domain)
    ensures Stripped(LowerDomain(name, domain))
  {
    var r, e := LowerDomain(name, domain), name + ['@'] + domain;
    assert domain != [] ==> e[|e| - 1] == domain[|domain| - 1] && r[|r| - 1] == Lower(domain[|domain| - 1]);
    assert name != [] ==> r[0] == e[0];
  }

  lemma LowerDomainCaseOnly(name: string, domain: string)
    ensures LowerStr(LowerDomain(name, domain)) == LowerStr(name + ['@'] + domain)
  {
    var r, e, ld := LowerDomain(name, domain), name + ['@'] + domain, LowerStr(domain);
    forall k | 0 <= k < |r| ensures LowerStr(r)[k] == LowerStr(e)[k] {
      assert k > |name| ==> r[k] == ld[k - |name| - 1] && e[k] == domain[k - |name| - 1];
    }
  }

  /** BaseUserManager.normalize_email, which create_user applies to the
      address it stores: an address with an '@' is stripped and the part
      after its last '@' lower-cased; any other address is kept as it is. */
  function NormalizeEmail(e: string): (r: string)
    ensures '@' !in e ==> r == e
  {
    if '@' !in e then e
    else
      var t := Strip(e);
      if '@' in t then LowerDomain(t[..LastAt(t)], t[LastAt(t) + 1..]) else t
  }

  /** An address with an '@' normalises through its stripped form. */
  lemma NormalizeEmailParts(e: string)
    requires '@' in e
    ensures var t := Strip(e);
      '@' in t && NormalizeEmail(e) == LowerDomain(t[..LastAt(t)], t[LastAt(t) + 1..])
  {
    AtSurvivesStrip(e);
  }

  /** What normalising does to an address with an '@': the result is
      stripped, keeps the name before the last '@' exactly, has no capital
      after it, and differs from the stripped address only in case. */
  lemma NormalizeEmailMeaning(e: string)
    requires '@' in e
    ensures var r, t := NormalizeEmail(e), Strip(e);
      '@' in r && '@' in t && Stripped(r) && NoUpper(r[LastAt(r) + 1..]) &&
      r[..LastAt(r)] == t[..LastAt(t)] && LowerStr(r) == LowerStr(t)
  {
    NormalizeEmailParts(e);
    var t := Strip(e);
    var i := LastAt(t);
    var name, domain := t[..i], t[i + 1..];
    AroundIndex(t, i);
    LowerDomainAt(name, domain);
    LowerDomainStripped(name, domain);
    LowerDomainCaseOnly(name, domain);
  }

  /** A stripped `name@domain` normalises to the same name with the domain
      lower-cased, so two addresses that differ only in the case of their
      domain are one address to the unique e-mail column. */
  lemma EmailDomainCase(name: string, domain: string)
    requires '@' !in domain
    requires Stripped(name + ['@'] + domain)
    ensures NormalizeEmail(name + ['@'] + domain) == name + ['@'] + LowerStr(domain)
  {
    var e := name + ['@'] + domain;
    assert e[|name|] == '@';
    assert e[|name| + 1..] == domain;
    LastAtUnique(e, |name|);
    assert e[..|name|] == name;
  }

  /** A stripped address whose domain has no capital is already normal. */
  lemma NormalEmailFixed(name: string, domain: string)
    requires '@' !in domain && NoUpper(domain)
    requires Stripped(name + ['@'] + domain)
    ensures NormalizeEmail(name + ['@'] + domain) == name + ['@'] + domain
  {
    EmailDomainCase(name, domain);
    LowerStrNoUpper(domain);
  }

  /** Normalising twice is normalising once. */
  lemma NormalizeEmailIdempotent(e: string)
    ensures NormalizeEmail(NormalizeEmail(e)) == NormalizeEmail(e)
  {
    if '@' in e {
      NormalizeEmailParts(e);
      var t := Strip(e);
      var i := LastAt(t);
      var name, domain := t[..i], t[i + 1..];
      AroundIndex(t, i);
      LowerDomainStripped(name, domain);
      NoAtInLower(domain);
      var r := NormalizeEmail(e);
      assert r == name + ['@'] + LowerStr(domain);
      NormalEmailFixed(name, LowerStr(domain));
    }
  }

  /** create_user under a fresh key: refused for an empty username
      (ValueError) and for a username or normalised e-mail already in the
      table (IntegrityError); the row stores the normalised e-mail. */
  function CreateUser(rows: map<UserId, User>, id: UserId, u: User): (r: Option<map<UserId, User>>)
    requires id !in rows
    ensures r.Some? <==> u.username != "" && !UsernameTaken(rows, u.username) && !EmailTaken(rows, NormalizeEmail(u.email))
    ensures r.Some? ==> r.value == rows[id := u.(email := NormalizeEmail(u.email))]
    ensures r.Some? && UniqueColumns(rows) ==> UniqueColumns(r.value)
  {
    var email := NormalizeEmail(u.email);
    if u.username == "" || UsernameTaken(rows, u.username) || EmailTaken(rows, email) then None
    else Some(rows[id := u.(email := email)])
  }

  // ---------------------------------------------------------------------
  // SignupView
  // ---------------------------------------------------------------------

  /** The body fields SignupView reads. */
  datatype SignupRequest = SignupRequest(
    username: Form.Field,
    email: Form.Field,
    password: Form.Field,
    fullName: Form.Field,
    fullNameSnake: Form.Field)

  /** The checks SignupView makes before creating the account, in their
      order: the name split (an unpacking error, 500), the three required
      fields (400), a username already in use (400). On success: the
      username and the two names to store. */
  function SignupGate(rows: map<UserId, User>, req: SignupRequest): (g: Result<(string, string, string), Response>)
    ensures var full := Form.Or(req.fullName, req.fullNameSnake);
      SplitFullName(full).None? ==> g == Failure(Views.Response(500, ""))
    ensures var full := Form.Or(req.fullName, req.fullNameSnake);
      var username := Form.Or(req.username, req.email);
      SplitFullName(full).Some? ==>
        ((g.Failure? && g.error.status == 400) <==>
           !(Form.Truthy(username) && Form.Truthy(req.password) && Form.Truthy(full)) ||
           UsernameTaken(rows, username.value))
    ensures g.Success? ==>
      g.value.0 == Form.Or(req.username, req.email).value && g.value.0 != "" && !UsernameTaken(rows, g.value.0)
    ensures var full := Form.Or(req.fullName, req.fullNameSnake);
      g.Success? ==>
        SplitFullName(full).Some? &&
        g.value.1 == Form.Or(SplitFullName(full).value.0, Some("")).value &&
        g.value.2 == SplitFullName(full).value.1
  {
    var username := Form.Or(req.username, req.email);
    var full := Form.Or(req.fullName, req.fullNameSnake);
    match SplitFullName(full)
    case None => Failure(Views.Response(500, ""))
    case Some(names) =>
      if !(Form.Truthy(username) && Form.Truthy(req.password) && Form.Truthy(full)) then
        Failure(Views.Response(400, "Please provide username, password and full name"))
      else if UsernameTaken(rows, username.value) then
        Failure(Views.Response(400, "Username already exists"))
      else
        Success((username.value, Form.Or(names.0, Some("")).value, names.1))
  }

  /** The two sign-up variants differ only in the e-mail they store. */
  function SignupWith(rows: map<UserId, User>, id: UserId, req: SignupRequest, email: string): (r: (Response, map<UserId, User>))
    requires id !in rows
    ensures r.0.status != 201 ==> r.1 == rows
    ensures SignupGate(rows, req).Failure? ==> r.0 == SignupGate(rows, req).error
    ensures r.0.status == 201 <==> SignupGate(rows, req).Success? && !EmailTaken(rows, NormalizeEmail(email))
    ensures r.0.status == 201 ==>
      id in r.1 && r.1 == rows[id := r.1[id]] && r.1[id].email == NormalizeEmail(email) &&
      !r.1[id].isStaff && r.1[id].username == SignupGate(rows, req).value.0
    ensures var full := Form.Or(req.fullName, req.fullNameSnake);
      r.0.status == 201 ==>
        SplitFullName(full).Some? &&
        r.1[id].firstName == Form.Or(SplitFullName(full).value.0, Some("")).value &&
        r.1[id].lastName == SplitFullName(full).value.1
  {
    match SignupGate(rows, req)
    case Failure(e) => (e, rows)
    case Success(fields) =>
      match CreateUser(rows, id, User(fields.0, email, fields.1, fields.2, None, false, false))
      case None => (Views.Response(500, "Error creating account"), rows)
      case Some(created) => (Views.Response(201, "Account created successfully. Please sign in."), created)
  }

  /** SignupView.post as written: create_user is not given the e-mail, so
      every account it makes has the empty e-mail. */
  function SignupAsWritten(rows: map<UserId, User>, id: UserId, req: SignupRequest): (r: (Response, map<UserId, User>))
    requires id !in rows
    ensures r.0.status == 201 ==> EmailTaken(r.1, "")
  {
    var r := SignupWith(rows, id, req, "");
    assert NormalizeEmail("") == "";
    assert r.0.status == 201 ==> r.1[id].email == "";
    r
  }

  /** Once any account has the empty e-mail, the unique e-mail column turns
      every later sign-up away: after the first sign-up as written, no
      second one can succeed. */
  lemma SignupLocksOutAsWritten(rows: map<UserId, User>, id1: UserId, req1: SignupRequest, id2: UserId, req2: SignupRequest)
    requires id1 !in rows && id2 !in rows && id2 != id1
    requires SignupAsWritten(rows, id1, req1).0.status == 201
    ensures SignupAsWritten(SignupAsWritten(rows, id1, req1).1, id2, req2).0.status != 201
  {
    var after := SignupAsWritten(rows, id1, req1).1;
    assert EmailTaken(after, "");
  }

  /** The evidently intended sign-up: the account keeps the e-mail it was
      created with (empty when none is given), normalised. */
  function Signup(rows: map<UserId, User>, id: UserId, req: SignupRequest): (r: (Response, map<UserId, User>))
    requires id !in rows
    ensures r.0.status == 201 ==> id in r.1 && r.1[id].email == NormalizeEmail(Form.Or(req.email, Some("")).value)
  {
    SignupWith(rows, id, req, Form.Or(req.email, Some("")).value)
  }

  /** Two well-formed sign-ups with different usernames and different
      e-mails (after normalisation), neither already in the table, both
      succeed one after the other. */
  lemma SignupsCoexist(rows: map<UserId, User>, id1: UserId, req1: SignupRequest, id2: UserId, req2: SignupRequest)
    requires id1 !in rows && id2 !in rows && id2 != id1
    requires req1.username.Some? && req2.username.Some? && req1.email.Some? && req2.email.Some?
    requires req1.username.value != "" && req2.username.value != "" && req1.email.value != "" && req2.email.value != ""
    requires req1.username.value != req2.username.value
    requires NormalizeEmail(req1.email.value) != NormalizeEmail(req2.email.value)
    requires !UsernameTaken(rows, req1.username.value) && !UsernameTaken(rows, req2.username.value)
    requires !EmailTaken(rows, NormalizeEmail(req1.email.value)) && !EmailTaken(rows, NormalizeEmail(req2.email.value))
    requires Form.Truthy(req1.password) && Form.Truthy(req2.password)
    requires req1.fullName.Some? && req2.fullName.Some?
    requires |Words(req1.fullName.value)| in {1, 2} && |Words(req2.fullName.value)| in {1, 2}
    ensures Signup(rows, id1, req1).0.status == 201
    ensures Signup(Signup(rows, id1, req1).1, id2, req2).0.status == 201
  {
    SignupSucceeds(rows, id1, req1);
    var after := Signup(rows, id1, req1).1;
    SignupAdds(rows, id1, req1);
    assert !UsernameTaken(after, req2.username.value) by {
      forall k | k in after ensures after[k].username != req2.username.value {
        if k != id1 { assert after[k] == rows[k]; }
      }
    }
    assert !EmailTaken(after, NormalizeEmail(req2.email.value)) by {
      forall k | k in after ensures after[k].email != NormalizeEmail(req2.email.value) {
        if k != id1 { assert after[k] == rows[k]; }
      }
    }
    SignupSucceeds(after, id2, req2);
  }

  /** A successful sign-up adds its one row and leaves the others alone. */
  lemma SignupAdds(rows: map<UserId, User>, id: UserId, req: SignupRequest)
    requires id !in rows && Signup(rows, id, req).0.status == 201
    ensures var after := Signup(rows, id, req).1;
      id in after &&
      after[id].username == Form.Or(req.username, req.email).value &&
      after[id].email == NormalizeEmail(Form.Or(req.email, Some("")).value) &&
      forall k :: k in after ==> k == id || (k in rows && after[k] == rows[k])
  {
    var after := Signup(rows, id, req).1;
    assert after == rows[id := after[id]];
  }

  lemma SignupSucceeds(rows: map<UserId, User>, id: UserId, req: SignupRequest)
    requires id !in rows
    requires req.username.Some? && req.username.value != "" && req.email.Some? && req.email.value != ""
    requires !UsernameTaken(rows, req.username.value) && !EmailTaken(rows, NormalizeEmail(req.email.value))
    requires Form.Truthy(req.password)
    requires req.fullName.Some? && |Words(req.fullName.value)| in {1, 2}
    ensures Signup(rows, id, req).0.status == 201
  {
    var full := Form.Or(req.fullName, req.fullNameSnake);
    assert full == req.fullName;
    var names := SplitFullName(full).value;
    var first := Form.Or(names.0, Some("")).value;
    assert CreateUser(rows, id, User(req.username.value, req.email.value, first, names.1, None, false, false)).Some?;
  }

  /** SignupView.post on the user table, storing the e-mail it is given. */
  method SignupOn(users: UserTable, req: SignupRequest) returns (resp: Response)
    requires users.Valid()
    modifies users
    ensures users.Valid()
    ensures resp == Signup(old(users.rows), old(users.nextId), req).0
    ensures users.rows == Signup(old(users.rows), old(users.nextId), req).1
  {
    var id := users.nextId;
    var username := Form.Or(req.username, req.email);
    var full := Form.Or(req.fullName, req.fullNameSnake);
    var names := SplitFullName(full);
    if names.None? {
      return Views.Response(500, "");
    }
    if !(Form.Truthy(username) && Form.Truthy(req.password) && Form.Truthy(full)) {
      return Views.Response(400, "Please provide username, password and full name");
    }
    if UsernameTaken(users.rows, username.value) {
      return Views.Response(400, "Username already exists");
    }
    var first := Form.Or(names.value.0, Some("")).value;
    var user := User(username.value, Form.Or(req.email, Some("")).value, first, names.value.1, None, false, false);
    var created := CreateUser(users.rows, id, user);
    if created.None? {
      return Views.Response(500, "Error creating account");
    }
    users.rows := created.value;
    users.nextId := id + 1;
    resp := Views.Response(201, "Account created successfully. Please sign in.");
  }

  // ---------------------------------------------------------------------
  // UpdateProfileView
  // ---------------------------------------------------------------------

  /** The profile after the update: each field that was sent (even empty)
      replaces the stored one; the others, and the account's identity and
      rights, stay. */
  function ApplyProfile(u: User, first: Form.Field, last: Form.Field, phone: Form.Field): (r: User)
    ensures r.username == u.username && r.email == u.email
    ensures r.isStaff == u.isStaff && r.isSuperuser == u.isSuperuser
    ensures r.firstName == (if first.Some? then first.value else u.firstName)
    ensures r.lastName == (if last.Some? then last.value else u.lastName)
    ensures r.phone == (if phone.Some? then phone else u.phone)
  {
    var u1 := if first.Some? then u.(firstName := first.value) else u;
    var u2 := if last.Some? then u1.(lastName := last.value) else u1;
    if phone.Some? then u2.(phone := phone) else u2
  }

  /** Sending the same update twice is sending it once, and an empty update
      changes nothing. */
  lemma ApplyProfileIdempotent(u: User, first: Form.Field, last: Form.Field, phone: Form.Field)
    ensures ApplyProfile(ApplyProfile(u, first, last, phone), first, last, phone) == ApplyProfile(u, first, last, phone)
    ensures ApplyProfile(u, None, None, None) == u
  {
  }

  /** A profile update never clashes with the unique columns. */
  lemma ApplyProfileKeepsUnique(rows: map<UserId, User>, me: UserId, first: Form.Field, last: Form.Field, phone: Form.Field)
    requires me in rows && UniqueColumns(rows)
    ensures UniqueColumns(rows[me := ApplyProfile(rows[me], first, last, phone)])
  {
    var r := rows[me := ApplyProfile(rows[me], first, last, phone)];
    forall i, j | i in r && j in r && i != j
      ensures r[i].username != r[j].username && r[i].email != r[j].email
    {
      assert r[i].username == rows[i].username && r[i].email == rows[i].email;
      assert r[j].username == rows[j].username && r[j].email == rows[j].email;
    }
  }

  /** UpdateProfileView.post (IsAuthenticated): the caller's own row takes
      the fields sent. */
  method UpdateProfile(users: UserTable, caller: Option<UserId>, first: Form.Field, last: Form.Field, phone: Form.Field)
    returns (resp: Response)
    requires caller.Some? ==> caller.value in users.rows
    modifies users`rows
    ensures caller.None? ==> resp.status == 403 && users.rows == old(users.rows)
    ensures caller.Some? ==>
      resp == Views.Response(200, "Profile updated successfully") &&
      users.rows == old(users.rows)[caller.value := ApplyProfile(old(users.rows)[caller.value], first, last, phone)]
  {
    if caller.None? {
      return Views.Response(403, "Authentication credentials were not provided.");
    }
    var user := users.rows[caller.value];
    if first.Some? {
      user := user.(firstName := first.value);
    }
    if last.Some? {
      user := user.(lastName := last.value);
    }
    if phone.Some? {
      user := user.(phone := phone);
    }
    users.rows := users.rows[caller.value := user];
    resp := Views.Response(200, "Profile updated successfully");
  }

  // ---------------------------------------------------------------------
  // CreateFirstAdminView
  // ---------------------------------------------------------------------

  const FirstAdminKey: string := "first-admin-setup-key"

  datatype FirstAdminRequest = FirstAdminRequest(secretKey: Form.Field, email: Form.Field, password: Form.Field, fullName: Form.Field)

  /** CreateFirstAdminView.post. The checks run in this order: the secret
      (403), the name split (an unpacking error, 500), any existing staff
      account (403), a user already named by the e-mail (409); then the
      insert, which fails (500) without an e-mail, without a name, or on an
      e-mail already in use. The whole view is one transaction, so a
      failure changes nothing. */
  function CreateFirstAdmin(rows: map<UserId, User>, id: UserId, req: FirstAdminRequest): (r: (Response, map<UserId, User>))
    requires id !in rows
    ensures r.0.status != 201 ==> r.1 == rows
    ensures req.secretKey != Some(FirstAdminKey) ==> r.0.status == 403
    ensures req.secretKey == Some(FirstAdminKey) && SplitFullName(req.fullName).None? ==> r.0.status == 500
    ensures req.secretKey == Some(FirstAdminKey) && SplitFullName(req.fullName).Some? && AnyStaff(rows) ==> r.0.status == 403
    ensures (req.secretKey == Some(FirstAdminKey) && SplitFullName(req.fullName).Some? && !AnyStaff(rows) &&
             req.email.Some? && UsernameTaken(rows, req.email.value)) ==> r.0.status == 409
    ensures r.0.status == 201 ==>
      req.secretKey == Some(FirstAdminKey) && !AnyStaff(rows) && req.email.Some? &&
      id in r.1 && r.1 == rows[id := r.1[id]] && r.1[id].isStaff && r.1[id].isSuperuser &&
      r.1[id].username == req.email.value && r.1[id].email == NormalizeEmail(req.email.value)
    ensures (req.secretKey == Some(FirstAdminKey) && SplitFullName(req.fullName).Some? &&
             SplitFullName(req.fullName).value.0.Some? && !AnyStaff(rows) &&
             req.email.Some? && req.email.value != "" && !UsernameTaken(rows, req.email.value) &&
             !EmailTaken(rows, NormalizeEmail(req.email.value))) ==> r.0.status == 201
  {
    if req.secretKey != Some(FirstAdminKey) then (Views.Response(403, "Invalid secret key"), rows)
    else match SplitFullName(req.fullName)
    case None => (Views.Response(500, ""), rows)
    case Some(names) =>
      if AnyStaff(rows) then (Views.Response(403, "Admin users already exist."), rows)
      else if req.email.Some? && UsernameTaken(rows, req.email.value) then
        (Views.Response(409, "User with this email already exists."), rows)
      else if req.email.None? || names.0.None? then (Views.Response(500, "Error creating admin account"), rows)
      else
        match CreateUser(rows, id, User(req.email.value, req.email.value, names.0.value, names.1, None, true, true))
        case None => (Views.Response(500, "Error creating admin account"), rows)
        case Some(created) => (Views.Response(201, "Admin account created successfully. Please sign in."), created)
  }

  /** Once the first administrator exists, every later call is turned
      away and the table stays as it is. */
  lemma FirstAdminOnlyOnce(rows: map<UserId, User>, id1: UserId, req1: FirstAdminRequest, id2: UserId, req2: FirstAdminRequest)
    requires id1 !in rows && id2 !in rows && id2 != id1
    requires CreateFirstAdmin(rows, id1, req1).0.status == 201
    ensures var after := CreateFirstAdmin(rows, id1, req1).1;
      CreateFirstAdmin(after, id2, req2).0.status != 201 && CreateFirstAdmin(after, id2, req2).1 == after
  {
    var after := CreateFirstAdmin(rows, id1, req1).1;
    assert after[id1].isStaff;
    assert AnyStaff(after);
  }

  /** CreateFirstAdminView.post on the user table. */
  method CreateFirstAdminOn(users: UserTable, req: FirstAdminRequest) returns (resp: Response)
    requires users.Valid()
    modifies users
    ensures users.Valid()
    ensures resp == CreateFirstAdmin(old(users.rows), old(users.nextId), req).0
    ensures users.rows == CreateFirstAdmin(old(users.rows), old(users.nextId), req).1
  {
    var id := users.nextId;
    if req.secretKey != Some(FirstAdminKey) {
      return Views.Response(403, "Invalid secret key");
    }
    var names := SplitFullName(req.fullName);
    if names.None? {
      return Views.Response(500, "");
    }
    if AnyStaff(users.rows) {
      return Views.Response(403, "Admin users already exist.");
    }
    if req.email.Some? && UsernameTaken(users.rows, req.email.value) {
      return Views.Response(409, "User with this email already exists.");
    }
    if req.email.None? || names.value.0.None? {
      return Views.Response(500, "Error creating admin account");
    }
    var admin := User(req.email.value, req.email.value, names.value.0.value, names.value.1, None, true, true);
    var created := CreateUser(users.rows, id, admin);
    if created.None? {
      return Views.Response(500, "Error creating admin account");
    }
    users.rows := created.value;
    users.nextId := id + 1;
    resp := Views.Response(201, "Admin account created successfully. Please sign in.");
  }
}
