/** The /signup, /login and /me routes: the express-validator chains in front
    of the auth controller, and the password pattern they enforce. */
module AuthRoutes {
  import opened Js
  import opened Libs
  import opened Http
  import opened Users
  import opened AuthMiddleware
  import opened AuthController

  const MinPasswordLength := 8
  const PasswordMessage :=
    "Password must be at least 8 characters and contain uppercase, lowercase, number, and special character"

  /** The character classes of the password pattern; `\d` is ASCII digits only. */
  datatype CharClass = Lower | Upper | Digit | Special | Allowed

  predicate InClass(c: char, k: CharClass) {
    match k
    case Lower => 'a' <= c <= 'z'
    case Upper => 'A' <= c <= 'Z'
    case Digit => '0' <= c <= '9'
    case Special => c in "@$!%*?&"
    case Allowed => 'a' <= c <= 'z' || 'A' <= c <= 'Z' || '0' <= c <= '9' || c in "@$!%*?&"
  }

  /** The characters `.` does not match in a JavaScript regular expression. */
  predicate IsLineTerminator(c: char) {
    c == '\n' || c == '\r' || c == '\U{2028}' || c == '\U{2029}'
  }

  /** `(?=.*[k])` tried at the start of `s`. */
  function Lookahead(s: string, k: CharClass): bool {
    if s == [] then false
    else if InClass(s[0], k) then true
    else if IsLineTerminator(s[0]) then false
    else Lookahead(s[1..], k)
  }

  /** The lookahead succeeds exactly when a character of the class occurs before
      the first line terminator. */
  lemma {:induction false} LookaheadFindsClass(s: string, k: CharClass)
    ensures Lookahead(s, k) <==>
      exists j :: 0 <= j < |s| && InClass(s[j], k) && forall i :: 0 <= i < j ==> !IsLineTerminator(s[i])
  {
    if s == [] || InClass(s[0], k) || IsLineTerminator(s[0]) {
    } else {
      LookaheadFindsClass(s[1..], k);
      if Lookahead(s[1..], k) {
        var j :| 0 <= j < |s[1..]| && InClass(s[1..][j], k) && forall i :: 0 <= i < j ==> !IsLineTerminator(s[1..][i]);
        assert InClass(s[j + 1], k);
        assert forall i :: 0 <= i < j + 1 ==> !IsLineTerminator(s[i]) by {
          forall i | 0 <= i < j + 1 ensures !IsLineTerminator(s[i]) {
            if i > 0 { assert s[i] == s[1..][i - 1]; }
          }
        }
      }
      if exists j :: 0 <= j < |s| && InClass(s[j], k) && forall i :: 0 <= i < j ==> !IsLineTerminator(s[i]) {
        var j :| 0 <= j < |s| && InClass(s[j], k) && forall i :: 0 <= i < j ==> !IsLineTerminator(s[i]);
        assert j != 0;
        assert InClass(s[1..][j - 1], k);
        assert forall i :: 0 <= i < j - 1 ==> !IsLineTerminator(s[1..][i]) by {
          forall i | 0 <= i < j - 1 ensures !IsLineTerminator(s[1..][i]) {
            assert s[1..][i] == s[i + 1];
          }
        }
      }
    }
  }

  /** `/^(?=.*[a-z])(?=.*[A-Z])(?=.*\d)(?=.*[@$!%*?&])[A-Za-z\d@$!%*?&]/`: the pattern
      is anchored at the start only, so of the final class it checks the first
      character alone. */
  predicate MatchesPasswordPattern(s: string) {
    && Lookahead(s, Lower) && Lookahead(s, Upper) && Lookahead(s, Digit) && Lookahead(s, Special)
    && |s| > 0 && InClass(s[0], Allowed)
  }

  /** Characters appended to a matching password never undo the match. */
  lemma {:induction false} LookaheadIgnoresTail(s: string, t: string, k: CharClass)
    requires Lookahead(s, k)
    ensures Lookahead(s + t, k)
  {
    assert s != [];
    assert (s + t)[0] == s[0];
    if !InClass(s[0], k) {
      assert (s + t)[1..] == s[1..] + t;
      LookaheadIgnoresTail(s[1..], t, k);
    }
  }

  lemma PatternIgnoresTail(s: string, t: string)
    requires MatchesPasswordPattern(s)
    ensures MatchesPasswordPattern(s + t)
  {
    LookaheadIgnoresTail(s, t, Lower);
    LookaheadIgnoresTail(s, t, Upper);
    LookaheadIgnoresTail(s, t, Digit);
    LookaheadIgnoresTail(s, t, Special);
  }

  /** Every character after the first is free: trailing spaces pass. */
  lemma TrailingSpacesAccepted()
    ensures MatchesPasswordPattern("Aa1!    ")
  {
    assert "Aa1!    "[1..][1..] == "1!    ";
    assert "Aa1!    "[1..][1..][1..] == "!    ";
  }

  /** The lookaheads stop at a line break: a lower-case letter after one does not count. */
  lemma LineBreakHidesLetters()
    ensures !MatchesPasswordPattern("A1!\nabcd")
  {
    assert "A1!\nabcd"[1..][1..][1..] == "\nabcd";
  }

  /** The first character must be one of the allowed ones, even if the rest are. */
  lemma LeadingSpaceRejected()
    ensures !MatchesPasswordPattern(" Aa1!bcd")
  {
  }

  /** The password chain: `isLength({ min: 8 })` with the default message, then
      `matches(...)` with the custom one. Code points are counted. */
  function PasswordErrors(password: string): (errs: seq<FieldError>)
    ensures errs == [] <==> |password| >= MinPasswordLength && MatchesPasswordPattern(password)
    ensures FieldError("password", InvalidValue) in errs <==> |password| < MinPasswordLength
    ensures FieldError("password", PasswordMessage) in errs <==> !MatchesPasswordPattern(password)
  {
    (if |password| >= MinPasswordLength then [] else [FieldError("password", InvalidValue)])
    + (if MatchesPasswordPattern(password) then [] else [FieldError("password", PasswordMessage)])
  }

  /** `body("email").isEmail()` */
  function EmailErrors(body: Body, lib: Sanitizers): (errs: seq<FieldError>)
    ensures errs == [] <==> lib.isEmail(ToStr(body, "email"))
    ensures forall e :: e in errs ==> e == FieldError("email", InvalidValue)
  {
    if lib.isEmail(ToStr(body, "email")) then [] else [FieldError("email", InvalidValue)]
  }

  /** `body(key).trim().notEmpty()`: only white space counts as empty. */
  function NameErrors(body: Body, key: string): (errs: seq<FieldError>)
    ensures errs == [] <==> exists i :: 0 <= i < |ToStr(body, key)| && !IsSpace(ToStr(body, key)[i])
    ensures forall e :: e in errs ==> e == FieldError(key, InvalidValue)
  {
    if Trim(ToStr(body, key)) != "" then [] else [FieldError(key, InvalidValue)]
  }

  /** The /signup chains, in order: email, password, firstName, lastName. */
  function SignupErrors(body: Body, lib: Sanitizers): (errs: seq<FieldError>)
    ensures errs == [] <==>
      && EmailErrors(body, lib) == [] && PasswordErrors(ToStr(body, "password")) == []
      && NameErrors(body, "firstName") == [] && NameErrors(body, "lastName") == []
  {
    EmailErrors(body, lib) + PasswordErrors(ToStr(body, "password"))
    + NameErrors(body, "firstName") + NameErrors(body, "lastName")
  }

  /** The body the signup handler receives: the e-mail normalised, the two names trimmed. */
  function SanitizeSignup(body: Body, lib: Sanitizers): (clean: Body)
    ensures clean.Keys == body.Keys + {"email", "firstName", "lastName"}
    ensures forall k :: k in body && k !in {"email", "firstName", "lastName"} ==> clean[k] == body[k]
    ensures clean["email"] == Str(lib.normalizeEmail(ToStr(body, "email")))
    ensures clean["firstName"] == Str(Trim(ToStr(body, "firstName")))
    ensures clean["lastName"] == Str(Trim(ToStr(body, "lastName")))
  {
    body["email" := Str(lib.normalizeEmail(ToStr(body, "email")))]
        ["firstName" := Str(Trim(ToStr(body, "firstName")))]
        ["lastName" := Str(Trim(ToStr(body, "lastName")))]
  }

  /** The /login chains: email, then `password.notEmpty()`. */
  function LoginErrors(body: Body, lib: Sanitizers): (errs: seq<FieldError>)
    ensures errs == [] <==> lib.isEmail(ToStr(body, "email")) && ToStr(body, "password") != ""
    ensures forall e :: e in errs ==> e.msg == InvalidValue
  {
    (if lib.isEmail(ToStr(body, "email")) then [] else [FieldError("email", InvalidValue)])
    + (if ToStr(body, "password") != "" then [] else [FieldError("password", InvalidValue)])
  }

  function SanitizeLogin(body: Body, lib: Sanitizers): (clean: Body)
    ensures clean.Keys == body.Keys + {"email"}
    ensures forall k :: k in body && k != "email" ==> clean[k] == body[k]
    ensures clean["email"] == Str(lib.normalizeEmail(ToStr(body, "email")))
  {
    body["email" := Str(lib.normalizeEmail(ToStr(body, "email")))]
  }

  /** POST /signup: on any validation error the handler is not reached and the
      table is untouched; otherwise signup runs on the sanitised body. */
  method SignupRoute(table: UserTable, body: Body, lib: Sanitizers, h: PasswordHasher, jwt: TokenCodec, nonce: nat)
    returns (r: Response<AuthReply>)
    requires table.Valid()
    modifies table
    ensures table.Valid()
    ensures SignupErrors(body, lib) != [] ==>
      r == Invalid(SignupErrors(body, lib)) && table.rows == old(table.rows) && table.nextId == old(table.nextId)
    ensures SignupErrors(body, lib) == [] ==>
      && old(table.nextId) !in old(table.rows)
      && (r, table.rows) == SignupOutcome(old(table.rows), old(table.nextId), SanitizeSignup(body, lib), h, jwt, lib.xss, nonce)
  {
    var errors := SignupErrors(body, lib);
    if errors != [] {
      return Invalid(errors);
    }
    r := Signup(table, SanitizeSignup(body, lib), h, jwt, lib.xss, nonce);
  }

  /** POST /login. */
  ghost function LoginRoute(rows: map<int, User>, body: Body, lib: Sanitizers, h: PasswordHasher, jwt: TokenCodec)
    : (r: Response<AuthReply>)
    ensures r.Invalid? <==> LoginErrors(body, lib) != []
    ensures !r.Invalid? ==> r == Login(rows, SanitizeLogin(body, lib), h, jwt)
  {
    var errors := LoginErrors(body, lib);
    if errors != [] then Invalid(errors) else Login(rows, SanitizeLogin(body, lib), h, jwt)
  }

  /** Past its validation, login answers "Missing required fields" exactly when
      normalizeEmail turned the valid address into `false`. */
  lemma ValidatedLoginMissingFields(rows: map<int, User>, body: Body, lib: Sanitizers, h: PasswordHasher, jwt: TokenCodec)
    ensures LoginRoute(rows, body, lib, h, jwt) == Error(400, MissingFields) <==>
      LoginErrors(body, lib) == [] && lib.normalizeEmail(ToStr(body, "email")) == ""
  {
    if LoginErrors(body, lib) == [] {
      var clean := SanitizeLogin(body, lib);
      assert Truthy(clean, "password");
      assert Truthy(clean, "email") <==> lib.normalizeEmail(ToStr(body, "email")) != "";
    }
  }

  /** The same holds for signup: a body that passes the chains is refused as
      missing its fields exactly when normalizeEmail emptied the address. */
  lemma ValidatedSignupMissingFields(rows: map<int, User>, id: int, body: Body, lib: Sanitizers,
                                     h: PasswordHasher, jwt: TokenCodec, nonce: nat)
    requires id !in rows
    requires SignupErrors(body, lib) == []
    ensures SignupOutcome(rows, id, SanitizeSignup(body, lib), h, jwt, lib.xss, nonce).0 == Error(400, MissingFields) <==>
      lib.normalizeEmail(ToStr(body, "email")) == ""
  {
    var clean := SanitizeSignup(body, lib);
    assert PasswordErrors(ToStr(body, "password")) == [];
    assert Truthy(clean, "password");
    assert Truthy(clean, "email") <==> lib.normalizeEmail(ToStr(body, "email")) != "";
  }

  /** A login body carrying the e-mail and the password a valid signup body carried
      passes the login chains and reaches the handler with the same two fields. */
  lemma LoginSanitizesLikeSignup(body: Body, login: Body, lib: Sanitizers)
    requires lib.isEmail(ToStr(body, "email")) && ToStr(body, "password") != ""
    requires ToStr(login, "email") == ToStr(body, "email") && "password" in body && "password" in login && login["password"] == body["password"]
    ensures LoginErrors(login, lib) == []
    ensures "email" in SanitizeLogin(login, lib) && "password" in SanitizeLogin(login, lib)
    ensures SanitizeLogin(login, lib)["email"] == SanitizeSignup(body, lib)["email"]
    ensures SanitizeLogin(login, lib)["password"] == SanitizeSignup(body, lib)["password"]
  {
    assert ToStr(login, "password") == ToStr(body, "password");
  }

  /** Signing up through the route and then logging in through the route with
      the same e-mail and password is accepted, for the new row. */
  lemma SignupThenLoginRoute(rows: map<int, User>, id: int, body: Body, login: Body, lib: Sanitizers,
                             h: PasswordHasher, jwt: TokenCodec, nonce: nat)
    requires id !in rows && UniqueEmails(rows)
    requires SoundHasher(h) && SoundCodec(jwt)
    requires SignupErrors(body, lib) == []
    requires SignupOutcome(rows, id, SanitizeSignup(body, lib), h, jwt, lib.xss, nonce).0.Ok?
    requires ToStr(login, "email") == ToStr(body, "email") && "password" in body && "password" in login && login["password"] == body["password"]
    ensures var rows' := SignupOutcome(rows, id, SanitizeSignup(body, lib), h, jwt, lib.xss, nonce).1;
      var r := LoginRoute(rows', login, lib, h, jwt);
      && r.Ok? && r.payload.user.id == id
      && jwt.verify(r.payload.token) == Some(Claims(id, EffectiveRole(rows'[id])))
  {
    assert PasswordErrors(ToStr(body, "password")) == [];
    LoginSanitizesLikeSignup(body, login, lib);
    SignupThenLogin(rows, id, SanitizeSignup(body, lib), SanitizeLogin(login, lib), h, jwt, lib.xss, nonce);
  }

  /** GET /me: requireAuth, then me with the decoded claims. */
  method MeRoute(req: Request, rows: map<int, User>, jwt: TokenCodec) returns (r: Response<AuthReply>)
    modifies req
    ensures Authenticate(req.authorization, jwt).Stop? ==>
      r == Error(Authenticate(req.authorization, jwt).status, Authenticate(req.authorization, jwt).message)
    ensures Authenticate(req.authorization, jwt).Next? ==> r == Me(rows, Authenticate(req.authorization, jwt).user)
  {
    var g := RequireAuth(req, jwt);
    match g
    case Stop(s, m) => r := Error(s, m);
    case Next(c) => r := Me(rows, c);
  }
}
