/** The account serializers of accounts/serializers.py: the checks a
    registration request passes, the user row `create_user` then writes,
    the guard chain of a login, and the display name and admin flag both
    serializers render.
    The request fields go through Django REST framework's `CharField`
    handling first (surrounding whitespace trimmed, blank values refused,
    length limits), which the functions below spell out. */
module Accounts {
  import opened Wrappers
  import Text
  import Models

  /** The columns of Django's `auth.User` that the serializers read. */
  datatype User = User(
    id: Models.UserId,
    username: string,
    email: string,
    firstName: string,
    isStaff: bool,
    isActive: bool)

  /** Why one request field was refused. */
  datatype FieldError =
    | Required       // the key is missing and the field is required
    | Blank          // empty, or whitespace only
    | TooLong        // longer than the field's max_length
    | TooShort       // shorter than the field's min_length
    | InvalidEmail   // not an e-mail address
    | Taken          // another user already has this value

  // ---------------------------------------------------------------------
  // One text field

  /** A `CharField` of the request with at most `maxLength` and at least
      `minLength` characters, after trimming. An absent key is `Success(None)`
      (the caller decides whether that is allowed); a present one is either
      its trimmed value or the errors found. */
  function CleanChars(v: Option<string>, minLength: nat, maxLength: Option<nat>): (r: Result<Option<string>, set<FieldError>>)
    ensures v.None? ==> r == Success(None)
    ensures v.Some? && Text.Blank(v.value) ==> r == Failure({Blank})
    ensures v.Some? && !Text.Blank(v.value) ==>
      var t := Text.Trim(v.value);
      && (r.Success? <==> minLength <= |t| && (maxLength.Some? ==> |t| <= maxLength.value))
      && (r.Success? ==> r.value == Some(t))
      && (r.Failure? ==> && (TooLong in r.error <==> maxLength.Some? && |t| > maxLength.value)
                         && (TooShort in r.error <==> |t| < minLength)
                         && r.error <= {TooLong, TooShort})
  {
    if v.None? then Success(None)
    else if Text.Blank(v.value) then Failure({Blank})
    else
      var t := Text.Trim(v.value);
      var errors := (if maxLength.Some? && |t| > maxLength.value then {TooLong} else {})
                  + (if |t| < minLength then {TooShort} else {});
      if errors == {} then Success(Some(t)) else Failure(errors)
  }

  // ---------------------------------------------------------------------
  // Display name and admin flag

  /** `UserSerializer.get_name`: the first name, or the username when the
      first name is empty. */
  function DisplayName(u: User): (name: string)
    ensures name == u.firstName || name == u.username
    ensures name == u.username <== u.firstName == []
    ensures name == u.firstName <== u.firstName != []
    ensures name == [] <==> u.firstName == [] && u.username == []
  {
    if u.firstName != [] then u.firstName else u.username
  }

  /** `UserSerializer.get_is_admin`: the staff flag. */
  function IsAdmin(u: User): (admin: bool)
    ensures admin <==> u.isStaff
  {
    u.isStaff
  }

  // ---------------------------------------------------------------------
  // Login

  /** The body of a login request; None when the key is absent. */
  datatype LoginRequest = LoginRequest(username: Option<string>, password: Option<string>)

  /** What a successful login validates to. */
  datatype LoginData = LoginData(id: Models.UserId, email: string, username: string, firstName: string, isStaff: bool)

  datatype LoginError =
    | FieldErrors(username: set<FieldError>, password: set<FieldError>)
    | UsernameRequired
    | PasswordRequired
    | NoSuchUser
    | Deactivated

  /** The user's columns that a login hands back. */
  function DataOf(u: User): LoginData {
    LoginData(u.id, u.email, u.username, u.firstName, u.isStaff)
  }

  /** `LoginSerializer.get_name`, on the validated data. */
  function LoginName(d: LoginData): (name: string)
    ensures name == d.firstName || name == d.username
    ensures name == d.username <== d.firstName == []
    ensures name == d.firstName <== d.firstName != []
  {
    if d.firstName != [] then d.firstName else d.username
  }

  /** `LoginSerializer.get_is_admin`, on the validated data. */
  function LoginIsAdmin(d: LoginData): (admin: bool)
    ensures admin <==> d.isStaff
  {
    d.isStaff
  }

  /** Both serializers render the same name and admin flag for a user. */
  lemma NamesAgree(u: User)
    ensures LoginName(DataOf(u)) == DisplayName(u)
    ensures LoginIsAdmin(DataOf(u)) == IsAdmin(u) == u.isStaff
  {
  }

  /** The field checks of a login request pass: a username that is given
      is not blank, and a password that is given is not blank and has at
      most 128 characters once trimmed. */
  predicate LoginFieldsValid(req: LoginRequest) {
    && (req.username.Some? ==> !Text.Blank(req.username.value))
    && (req.password.Some? ==> !Text.Blank(req.password.value) && |Text.Trim(req.password.value)| <= 128)
  }

  /** `LoginSerializer` on a request: the field checks of `username`
      (optional) and `password` (optional, at most 128 characters), then
      `validate`: a missing username, then a missing password, then no user
      for these credentials, then an inactive user. `authenticate` is
      Django's credential check, a parameter here; it receives the trimmed
      values. */
  function Login(req: LoginRequest, authenticate: (string, string) -> Option<User>): (r: Result<LoginData, LoginError>)
    ensures r.Success? <==>
      && LoginFieldsValid(req) && req.username.Some? && req.password.Some?
      && var u := authenticate(Text.Trim(req.username.value), Text.Trim(req.password.value));
         u.Some? && u.value.isActive
    ensures r.Success? ==>
      r.value == DataOf(authenticate(Text.Trim(req.username.value), Text.Trim(req.password.value)).value)
    ensures (r.Failure? && r.error.FieldErrors?) <==> !LoginFieldsValid(req)
    ensures LoginFieldsValid(req) && req.username.None? ==> r == Failure(UsernameRequired)
    ensures LoginFieldsValid(req) && req.username.Some? && req.password.None? ==> r == Failure(PasswordRequired)
    ensures r == Failure(NoSuchUser) <==>
      && LoginFieldsValid(req) && req.username.Some? && req.password.Some?
      && authenticate(Text.Trim(req.username.value), Text.Trim(req.password.value)).None?
    ensures r == Failure(Deactivated) <==>
      && LoginFieldsValid(req) && req.username.Some? && req.password.Some?
      && var u := authenticate(Text.Trim(req.username.value), Text.Trim(req.password.value));
         u.Some? && !u.value.isActive
  {
    var name := CleanChars(req.username, 0, None);
    var password := CleanChars(req.password, 0, Some(128));
    if name.Failure? || password.Failure? then
      Failure(FieldErrors(if name.Failure? then name.error else {}, if password.Failure? then password.error else {}))
    else if name.value.None? then Failure(UsernameRequired)
    else if password.value.None? then Failure(PasswordRequired)
    else
      var user := authenticate(name.value.value, password.value.value);
      if user.None? then Failure(NoSuchUser)
      else if !user.value.isActive then Failure(Deactivated)
      else Success(DataOf(user.value))
  }

  /** Whatever the password, a login without a username is refused as
      such once the fields pass, and never reaches `authenticate`: two
      credential checks that differ cannot tell the answers apart. */
  lemma UsernameCheckedFirst(
    req: LoginRequest, a: (string, string) -> Option<User>, b: (string, string) -> Option<User>)
    requires req.username.None?
    ensures Login(req, a) == Login(req, b)
  {
  }

  // ---------------------------------------------------------------------
  // Registration

  /** The body of a registration request; None when the key is absent. */
  datatype RegistrationRequest = RegistrationRequest(
    email: Option<string>, username: Option<string>, password: Option<string>)

  /** The errors of each field; a field that passed has none. */
  datatype RegistrationErrors = RegistrationErrors(
    email: set<FieldError>, username: set<FieldError>, password: set<FieldError>)

  /** Why a registration failed: the serializer refused the request, or the
      database refused the row `create_user` wrote (the unique constraint of
      `auth_user.username`, raised as `IntegrityError`: HTTP 500). */
  datatype RegisterError =
    | Invalid(fields: RegistrationErrors)
    | IntegrityError

  predicate EmailUsed(users: map<Models.UserId, User>, e: string) {
    exists id {:trigger users[id].email} | id in users :: users[id].email == e
  }

  predicate UsernameUsed(users: map<Models.UserId, User>, n: string) {
    exists id {:trigger users[id].username} | id in users :: users[id].username == n
  }

  /** The errors of a field's outcome; none when it passed. */
  function ErrorsOf(r: Result<string, set<FieldError>>): set<FieldError> {
    if r.Failure? then r.error else {}
  }

  /** A required `CharField`: a missing key is an error of its own. */
  function RequiredChars(v: Option<string>, minLength: nat, maxLength: Option<nat>): (r: Result<string, set<FieldError>>)
    ensures v.None? ==> r == Failure({Required})
    ensures v.Some? ==> (r.Success? <==> CleanChars(v, minLength, maxLength).Success?)
    ensures v.Some? && r.Success? ==> r.value == Text.Trim(v.value)
    ensures v.Some? && r.Failure? ==> r.error == CleanChars(v, minLength, maxLength).error
  {
    if v.None? then Failure({Required})
    else
      match CleanChars(v, minLength, maxLength)
      case Success(t) => Success(t.value)
      case Failure(e) => Failure(e)
  }

  /** The value as the request sent it, trimmed: what `UniqueValidator`
      looks up. */
  function AsSent(s: string): string {
    s
  }

  /** `BaseUserManager.normalize_email`, which `create_user` applies: the
      part after the last `@` is lower-cased and the part before it is kept.
      Without an `@` the address is returned as it came. */
  function NormalizeEmail(e: string): (r: string)
    ensures Text.LastIndex(Text.Trim(e), '@').None? ==> r == e
    ensures Text.LastIndex(Text.Trim(e), '@').Some? ==> |r| == |Text.Trim(e)|
  {
    var s := Text.Trim(e);
    match Text.LastIndex(s, '@')
    case None => e
    case Some(k) => s[..k] + "@" + Text.Lower(s[k + 1..])
  }

  /** What normalising changes: an address with an `@` keeps everything up
      to its last `@` and has each character after it lowered. */
  lemma NormalizedParts(e: string)
    requires Text.LastIndex(Text.Trim(e), '@').Some?
    ensures var s := Text.Trim(e);
            var k := Text.LastIndex(s, '@').value;
            var r := NormalizeEmail(e);
            && r[..k + 1] == s[..k + 1]
            && forall i | k < i < |s| :: r[i] == Text.LowerChar(s[i])
  {
    var s := Text.Trim(e);
    DomainLowered(s, Text.LastIndex(s, '@').value);
  }

  lemma DomainLowered(s: string, k: nat)
    requires k < |s| && s[k] == '@'
    ensures var r := s[..k] + "@" + Text.Lower(s[k + 1..]);
            && r[..k + 1] == s[..k + 1]
            && forall i | k < i < |s| :: r[i] == Text.LowerChar(s[i])
  {
    var r := s[..k] + "@" + Text.Lower(s[k + 1..]);
    assert r[..k + 1] == s[..k + 1];
  }

  /** Normalising an address twice gives what normalising it once gives. */
  lemma NormalizeEmailIdempotent(e: string)
    ensures NormalizeEmail(NormalizeEmail(e)) == NormalizeEmail(e)
  {
    var s := Text.Trim(e);
    var k := Text.LastIndex(s, '@');
    if k.Some? {
      var j := k.value;
      var d := s[j + 1..];
      var r := NormalizeEmail(e);
      assert r == s[..j] + "@" + Text.Lower(d);
      NormalizedShape(e);
      assert r[..j] == s[..j] && r[j + 1..] == Text.Lower(d);
      Text.LowerIdempotent(d);
    }
  }

  /** A normalised address is already trimmed and has its last `@` where
      the original had it. */
  lemma NormalizedShape(e: string)
    requires Text.LastIndex(Text.Trim(e), '@').Some?
    ensures var r := NormalizeEmail(e);
            Text.Trim(r) == r && Text.LastIndex(r, '@') == Text.LastIndex(Text.Trim(e), '@')
  {
    var s := Text.Trim(e);
    var j := Text.LastIndex(s, '@').value;
    var r := NormalizeEmail(e);
    NormalizedParts(e);
    assert r[0] == s[0] by { assert r[0] == r[..j + 1][0]; }
    assert r[j] == '@' by { assert r[j] == r[..j + 1][j]; }
    assert !Text.IsSpace(r[|r| - 1]) by {
      if j < |r| - 1 { assert s[|s| - 1] != '@'; } else { assert r[|r| - 1] == '@'; }
    }
    Text.TrimUnchanged(r);
    forall i | j < i < |r| ensures r[i] != '@' {
      assert s[i] == s[j + 1..][i - j - 1];
    }
    LastIndexAt(r, '@', j);
  }

  /** The last occurrence of `c` is the one no `c` follows. */
  lemma LastIndexAt(s: string, c: char, j: nat)
    requires j < |s| && s[j] == c
    requires forall i | j < i < |s| :: s[i] != c
    ensures Text.LastIndex(s, c) == Some(j)
  {
    assert s[j] in s;
  }

  /** The `email` field: required, an address (`isEmail` is the address
      syntax check) and not the address of an existing user. `stored` maps
      the trimmed value to what the uniqueness check compares with the
      stored addresses. */
  function EmailField(
    users: map<Models.UserId, User>, v: Option<string>, isEmail: string -> bool, stored: string -> string)
    : (r: Result<string, set<FieldError>>)
    ensures r.Success? <==>
      v.Some? && !Text.Blank(v.value) && isEmail(Text.Trim(v.value)) && !EmailUsed(users, stored(Text.Trim(v.value)))
    ensures r.Success? ==> r.value == Text.Trim(v.value)
    ensures r.Failure? ==>
      && (Required in r.error <==> v.None?)
      && (Blank in r.error <==> v.Some? && Text.Blank(v.value))
      && (InvalidEmail in r.error <==> v.Some? && !Text.Blank(v.value) && !isEmail(Text.Trim(v.value)))
      && (Taken in r.error <==> v.Some? && !Text.Blank(v.value) && EmailUsed(users, stored(Text.Trim(v.value))))
      && r.error <= {Required, Blank, InvalidEmail, Taken}
  {
    match RequiredChars(v, 0, None)
    case Failure(e) => Failure(e)
    case Success(t) =>
      var errors := (if EmailUsed(users, stored(t)) then {Taken} else {}) + (if !isEmail(t) then {InvalidEmail} else {});
      if errors == {} then Success(t) else Failure(errors)
  }

  /** The `username` field: required and not the name of an existing user;
      `stored` as for `EmailField`. */
  function UsernameField(users: map<Models.UserId, User>, v: Option<string>, stored: string -> string)
    : (r: Result<string, set<FieldError>>)
    ensures r.Success? <==> v.Some? && !Text.Blank(v.value) && !UsernameUsed(users, stored(Text.Trim(v.value)))
    ensures r.Success? ==> r.value == Text.Trim(v.value)
    ensures r.Failure? ==>
      && (Required in r.error <==> v.None?)
      && (Blank in r.error <==> v.Some? && Text.Blank(v.value))
      && (Taken in r.error <==> v.Some? && !Text.Blank(v.value) && UsernameUsed(users, stored(Text.Trim(v.value))))
      && r.error <= {Required, Blank, Taken}
  {
    match RequiredChars(v, 0, None)
    case Failure(e) => Failure(e)
    case Success(t) => if UsernameUsed(users, stored(t)) then Failure({Taken}) else Success(t)
  }

  /** The `password` field: required, 8 to 128 characters once trimmed. */
  function PasswordField(v: Option<string>): (r: Result<string, set<FieldError>>)
    ensures r.Success? <==> v.Some? && !Text.Blank(v.value) && 8 <= |Text.Trim(v.value)| <= 128
    ensures r.Failure? ==>
      && (Required in r.error <==> v.None?)
      && (Blank in r.error <==> v.Some? && Text.Blank(v.value))
      && (TooShort in r.error <==> v.Some? && !Text.Blank(v.value) && |Text.Trim(v.value)| < 8)
      && (TooLong in r.error <==> v.Some? && !Text.Blank(v.value) && |Text.Trim(v.value)| > 128)
      && r.error <= {Required, Blank, TooShort, TooLong}
  {
    RequiredChars(v, 8, Some(128))
  }

  /** The trimmed e-mail address and username a valid request carries. */
  datatype Credentials = Credentials(email: string, username: string)

  /** `RegistrationSerializer.is_valid`: every field is checked and all
      their errors are reported together. */
  function Validate(
    users: map<Models.UserId, User>, req: RegistrationRequest, isEmail: string -> bool,
    storedEmail: string -> string, storedUsername: string -> string)
    : (r: Result<Credentials, RegistrationErrors>)
    ensures r.Success? <==>
      && EmailField(users, req.email, isEmail, storedEmail).Success?
      && UsernameField(users, req.username, storedUsername).Success?
      && PasswordField(req.password).Success?
    ensures r.Success? ==> r.value == Credentials(Text.Trim(req.email.value), Text.Trim(req.username.value))
    ensures r.Failure? ==> r.error == RegistrationErrors(
      ErrorsOf(EmailField(users, req.email, isEmail, storedEmail)),
      ErrorsOf(UsernameField(users, req.username, storedUsername)),
      ErrorsOf(PasswordField(req.password)))
  {
    var email := EmailField(users, req.email, isEmail, storedEmail);
    var username := UsernameField(users, req.username, storedUsername);
    var password := PasswordField(req.password);
    if email.Success? && username.Success? && password.Success? then
      Success(Credentials(email.value, username.value))
    else
      Failure(RegistrationErrors(ErrorsOf(email), ErrorsOf(username), ErrorsOf(password)))
  }

  /** `User.objects.create_user` with the validated values: the username is
      normalised (`normalizeUsername` stands for Unicode NFKC normalisation),
      the address through `NormalizeEmail`, and the row is an active,
      non-staff user with an empty first name and the id `id`. The database
      refuses a username some user already has. */
  function CreateUser(users: map<Models.UserId, User>, id: Models.UserId, c: Credentials, normalizeUsername: string -> string)
    : (r: Result<User, RegisterError>)
    ensures r.Success? <==> !UsernameUsed(users, normalizeUsername(c.username))
    ensures r.Success? ==> r.value == User(id, normalizeUsername(c.username), NormalizeEmail(c.email), "", false, true)
    ensures r.Failure? ==> r.error == IntegrityError
  {
    var name := normalizeUsername(c.username);
    if UsernameUsed(users, name) then Failure(IntegrityError)
    else Success(User(id, name, NormalizeEmail(c.email), "", false, true))
  }

  /** `RegistrationSerializer` on a request, then `create`. The uniqueness
      checks compare the values as sent, while `create_user` stores them
      normalised: an address differing from a stored one only in the case
      of its domain passes and is stored as a duplicate (`auth_user.email`
      has no unique constraint), and a username that only collides once
      normalised passes the serializer and is refused by the database. */
  function Register(
    users: map<Models.UserId, User>, id: Models.UserId, req: RegistrationRequest,
    isEmail: string -> bool, normalizeUsername: string -> string)
    : (r: Result<User, RegisterError>)
    ensures var v := Validate(users, req, isEmail, AsSent, AsSent);
      && (r.Success? <==> v.Success? && !UsernameUsed(users, normalizeUsername(v.value.username)))
      && (r.Success? ==> r.value == User(id, normalizeUsername(Text.Trim(req.username.value)),
                                         NormalizeEmail(Text.Trim(req.email.value)), "", false, true))
      && (r == Failure(IntegrityError) <==> v.Success? && UsernameUsed(users, normalizeUsername(v.value.username)))
      && (v.Failure? ==> r == Failure(Invalid(v.error)))
  {
    match Validate(users, req, isEmail, AsSent, AsSent)
    case Failure(e) => Failure(Invalid(e))
    case Success(c) => CreateUser(users, id, c, normalizeUsername)
  }

  /** No two users share a username. */
  ghost predicate UsernamesUnique(users: map<Models.UserId, User>) {
    forall a, b {:trigger users[a].username, users[b].username} | a in users && b in users && a != b ::
      users[a].username != users[b].username
  }

  /** No two users share an e-mail address. */
  ghost predicate EmailsUnique(users: map<Models.UserId, User>) {
    forall a, b {:trigger users[a].email, users[b].email} | a in users && b in users && a != b ::
      users[a].email != users[b].email
  }

  /** Usernames stay unique: a registration that would store a taken
      username fails, in the serializer or in the database. */
  lemma RegistrationKeepsUsernamesUnique(
    users: map<Models.UserId, User>, id: Models.UserId, req: RegistrationRequest,
    isEmail: string -> bool, normalizeUsername: string -> string)
    requires UsernamesUnique(users) && id !in users
    ensures var r := Register(users, id, req, isEmail, normalizeUsername);
            r.Failure? || UsernamesUnique(users[id := r.value])
  {
  }

  /** E-mail addresses do not stay unique: with "a@x.com" stored, the
      request's "a@X.com" is not taken as sent, and `create_user` stores it
      as "a@x.com" again. This holds for any syntax check that accepts the
      address and any username normalisation that leaves "v" unused. */
  lemma DuplicateEmailRegistered(isEmail: string -> bool, normalizeUsername: string -> string)
    requires isEmail("a@X.com") && normalizeUsername("v") != "u"
    ensures var users := map[1 := User(1, "u", "a@x.com", "", false, true)];
            var r := Register(users, 2, RegistrationRequest(Some("a@X.com"), Some("v"), Some("secret123")),
                              isEmail, normalizeUsername);
            && EmailsUnique(users)
            && r.Success? && r.value.email == users[1].email
            && !EmailsUnique(users[2 := r.value])
  {
    var users := map[1 := User(1, "u", "a@x.com", "", false, true)];
    var req := RegistrationRequest(Some("a@X.com"), Some("v"), Some("secret123"));
    SampleRequestValid(users, req, isEmail);
    assert !UsernameUsed(users, normalizeUsername("v"));
    SampleAddressNormalized();
    var u := User(2, normalizeUsername("v"), "a@x.com", "", false, true);
    assert Register(users, 2, req, isEmail, normalizeUsername) == Success(u);
    var after := users[2 := u];
    assert after[1].email == after[2].email;
  }

  lemma SampleRequestValid(users: map<Models.UserId, User>, req: RegistrationRequest, isEmail: string -> bool)
    requires users == map[1 := User(1, "u", "a@x.com", "", false, true)]
    requires req == RegistrationRequest(Some("a@X.com"), Some("v"), Some("secret123"))
    requires isEmail("a@X.com")
    ensures Validate(users, req, isEmail, AsSent, AsSent) == Success(Credentials("a@X.com", "v"))
  {
    var sent := "a@X.com";
    Text.TrimUnchanged(sent);
    Text.TrimUnchanged("v");
    Text.TrimUnchanged("secret123");
    assert !Text.Blank(sent) by { assert !Text.IsSpace(sent[0]); }
    assert !Text.Blank("v") by { assert !Text.IsSpace("v"[0]); }
    assert !Text.Blank("secret123") by { assert !Text.IsSpace("secret123"[0]); }
    assert sent != users[1].email by { assert sent[2] != users[1].email[2]; }
    assert !EmailUsed(users, AsSent(sent));
    assert !UsernameUsed(users, AsSent("v"));
  }

  lemma SampleAddressNormalized()
    ensures NormalizeEmail("a@X.com") == "a@x.com"
  {
    var sent := "a@X.com";
    Text.TrimUnchanged(sent);
    LastIndexAt(sent, '@', 1);
    NormalizedParts(sent);
    var e := NormalizeEmail(sent);
    assert e[0] == e[..2][0] && e[1] == e[..2][1];
    assert e[2] == Text.LowerChar('X') == 'x';
  }

  /** The checks as evidently intended: the uniqueness checks compare the
      values as `create_user` will store them. */
  function RegisterChecked(
    users: map<Models.UserId, User>, id: Models.UserId, req: RegistrationRequest,
    isEmail: string -> bool, normalizeUsername: string -> string)
    : (r: Result<User, RegisterError>)
    ensures var v := Validate(users, req, isEmail, NormalizeEmail, normalizeUsername);
      && (r.Success? <==> v.Success?)
      && (r.Success? ==> r.value == User(id, normalizeUsername(Text.Trim(req.username.value)),
                                         NormalizeEmail(Text.Trim(req.email.value)), "", false, true))
      && (v.Failure? ==> r == Failure(Invalid(v.error)))
    ensures r != Failure(IntegrityError)
  {
    match Validate(users, req, isEmail, NormalizeEmail, normalizeUsername)
    case Failure(e) => Failure(Invalid(e))
    case Success(c) => CreateUser(users, id, c, normalizeUsername)
  }

  /** With the corrected checks a registration keeps both e-mail addresses
      and usernames unique. */
  lemma CheckedRegistrationKeepsUnique(
    users: map<Models.UserId, User>, id: Models.UserId, req: RegistrationRequest,
    isEmail: string -> bool, normalizeUsername: string -> string)
    requires UsernamesUnique(users) && EmailsUnique(users) && id !in users
    ensures var r := RegisterChecked(users, id, req, isEmail, normalizeUsername);
            r.Failure? || (UsernamesUnique(users[id := r.value]) && EmailsUnique(users[id := r.value]))
  {
  }
}
