/** Signup, login and "who am I": the role rule (admin by e-mail domain or by
    level), token issuing, and the account-creation step on the user table. */
module AuthController {
  import opened Js
  import opened Libs
  import opened Http
  import opened Users

  const AdminDomain := "@amsa.mn"
  const AdminLevel := 10
  const MissingFields := "Missing required fields"
  const GenericSignupError := "Unable to complete registration. Please check your information."
  const InvalidCredentials := "Invalid credentials"

  /** The `user` part of the signup reply: no role, no password. */
  datatype Identity = Identity(id: int, email: string, firstName: Option<string>, lastName: Option<string>)

  /** The `user` part of the login and me replies. */
  datatype RoleIdentity = RoleIdentity(id: int, email: string, role: string, firstName: Option<string>, lastName: Option<string>)

  datatype AuthReply =
    | Registered(message: string, account: Identity, token: string)
    | LoggedIn(message: string, user: RoleIdentity, token: string)
    | Current(user: RoleIdentity)

  /** isAmsaAdminEmail: an absent e-mail is not an admin e-mail; otherwise the
      lower-cased address must end with the organisation's domain. */
  function IsAmsaAdminEmail(email: Option<string>): bool {
    email.Some? && EndsWith(ToLower(email.value), AdminDomain)
  }

  /** The admin test is "some local part followed by @amsa.mn", read case-insensitively,
      and an absent e-mail never passes. */
  lemma AdminEmailIsDomainSuffix(email: string)
    ensures IsAmsaAdminEmail(Some(email)) <==> exists local :: ToLower(email) == local + AdminDomain
    ensures IsAmsaAdminEmail(Some(email)) == IsAmsaAdminEmail(Some(ToLower(email)))
    ensures !IsAmsaAdminEmail(None)
  {
    var lower := ToLower(email);
    ToLowerConcat(email, "");
    if IsAmsaAdminEmail(Some(email)) {
      assert lower == lower[..|lower| - |AdminDomain|] + AdminDomain;
    }
    if exists local :: lower == local + AdminDomain {
      var local :| lower == local + AdminDomain;
      assert lower[|lower| - |AdminDomain|..] == AdminDomain;
    }
  }

  /** Any spelling of the domain in upper or lower case makes an admin e-mail. */
  lemma AdminDomainAnyCase(local: string, domain: string)
    requires ToLower(domain) == AdminDomain
    ensures IsAmsaAdminEmail(Some(local + domain))
  {
    ToLowerConcat(local, domain);
    AdminEmailIsDomainSuffix(local + domain);
  }

  /** The role login and me report: admin for an admin e-mail or a level of at
      least 10, member otherwise. The stored `role` column plays no part. */
  function EffectiveRole(u: User): (role: string)
    ensures role == "admin" || role == "member"
    ensures IsAmsaAdminEmail(Some(u.email)) ==> role == "admin"
    ensures role == "admin" <==> IsAmsaAdminEmail(Some(u.email)) || (u.level.Some? && u.level.value >= AdminLevel)
  {
    if IsAmsaAdminEmail(Some(u.email)) || (u.level.Some? && u.level.value >= AdminLevel) then "admin" else "member"
  }

  /** makeToken: sign `{ id, role }`. */
  function MakeToken(jwt: TokenCodec, id: int, role: string): string {
    jwt.sign(Claims(id, role))
  }

  /** `email.toLowerCase().trim()` */
  function NormalizeEmail(email: string): string {
    Trim(ToLower(email))
  }

  /** The row signup inserts (before the database assigns its id). */
  function NewUser(id: int, body: Body, digest: string, xss: string -> string): User {
    User(
      id, NormalizeEmail(ToStr(body, "email")), digest, DefaultRole, None, false,
      SignupProfile(body, xss), None, None, None, None)
  }

  /** The profile columns of the row signup inserts. */
  function SignupProfile(body: Body, xss: string -> string): Profile {
    Profile(
      firstName := SanitizedOrNull(body, "firstName", xss),
      lastName := SanitizedOrNull(body, "lastName", xss),
      personalEmail := SanitizedOrNull(body, "personalEmail", xss),
      birthday := RawOrNull(body, "birthDate"),
      address1 := SanitizedOrNull(body, "address1", xss),
      address2 := SanitizedOrNull(body, "address2", xss),
      city := SanitizedOrNull(body, "city", xss),
      state := SanitizedOrNull(body, "state", xss),
      zipCode := SanitizedOrNull(body, "zip", xss),
      phoneNumber := SanitizedOrNull(body, "phone", xss),
      facebook := SanitizedOrNull(body, "facebook", xss),
      instagram := SanitizedOrNull(body, "instagram", xss),
      linkedin := SanitizedOrNull(body, "linkedin", xss),
      schoolName := SanitizedOrNull(body, "schoolName", xss),
      schoolCity := SanitizedOrNull(body, "schoolCity", xss),
      schoolState := SanitizedOrNull(body, "schoolState", xss),
      degreeLevel := SanitizedOrNull(body, "degree", xss),
      graduationYear := SanitizedOrNull(body, "gradYear", xss),
      schoolYear := SanitizedOrNull(body, "schoolYear", xss),
      major := SanitizedOrNull(body, "major", xss),
      major2 := SanitizedOrNull(body, "secondMajor", xss),
      bio := None)
  }

  /** The signup body field each profile column is filled from; bio has none. */
  function SignupKey(c: Column): Option<string>
    requires IsProfileColumn(c)
  {
    match c
    case Birthday => Some("birthDate")
    case ZipCode => Some("zip")
    case PhoneNumber => Some("phone")
    case DegreeLevel => Some("degree")
    case GraduationYear => Some("gradYear")
    case Major2 => Some("secondMajor")
    case Bio => None
    case _ => Some(Name(c))
  }

  /** One profile column of the new row: the xss-sanitised body field when that is
      truthy and null otherwise, except birthday, which is the raw value or null. */
  lemma NewUserColumn(id: int, body: Body, digest: string, xss: string -> string, c: Column)
    requires IsProfileColumn(c)
    ensures CellOf(NewUser(id, body, digest, xss), c) ==
      Text(if c == Birthday then RawOrNull(body, "birthDate")
           else if SignupKey(c).Some? then SanitizedOrNull(body, SignupKey(c).value, xss)
           else None)
  {
    var p := SignupProfile(body, xss);
    assert CellOf(NewUser(id, body, digest, xss), c) == Text(ProfileField(p, c));
    match c
    case FirstName =>
    case LastName =>
    case PersonalEmail =>
    case Birthday =>
    case Address1 =>
    case Address2 =>
    case City =>
    case State =>
    case ZipCode =>
    case PhoneNumber =>
    case Facebook =>
    case Instagram =>
    case Linkedin =>
    case SchoolName =>
    case SchoolCity =>
    case SchoolState =>
    case DegreeLevel =>
    case GraduationYear =>
    case SchoolYear =>
    case Major =>
    case Major2 =>
    case Bio =>
  }

  /** The new row's account columns: the normalised e-mail, the digest, the default
      role, no level, not verified, and nothing in the picture, reset-hash or
      acceptance columns. */
  lemma NewUserAccount(id: int, body: Body, digest: string, xss: string -> string)
    ensures var u := NewUser(id, body, digest, xss);
      && u.id == id && u.email == NormalizeEmail(ToStr(body, "email")) && u.password == digest
      && u.role == DefaultRole && u.level.None? && !u.emailVerified
      && forall c :: c in {ProfilePic, Hash, HashExpiresAt, AcceptanceStatus} ==> CellOf(u, c) == Text(None)
  {
  }

  /** The stored digest verifies against the submitted password and is not that
      password. */
  lemma NewUserPasswordHashed(id: int, body: Body, h: PasswordHasher, nonce: nat, xss: string -> string)
    requires SoundHasher(h)
    ensures var u := NewUser(id, body, h.hash(ToStr(body, "password"), Salt(SaltRounds, nonce)), xss);
      h.compare(ToStr(body, "password"), u.password) && u.password != ToStr(body, "password")
  {
  }

  /** What signup answers and what the table holds afterwards, given the id the
      database would give a new row. */
  function SignupOutcome(rows: map<int, User>, id: int, body: Body, h: PasswordHasher, jwt: TokenCodec,
                         xss: string -> string, nonce: nat): (out: (Response<AuthReply>, map<int, User>))
    requires id !in rows
    ensures out.0.Error? || out.0.Ok?
    ensures out.0 == Error(400, MissingFields) <==> !Truthy(body, "email") || !Truthy(body, "password")
    ensures out.0 == Error(400, GenericSignupError) <==>
      Truthy(body, "email") && Truthy(body, "password") && EmailTaken(rows, NormalizeEmail(body["email"].s))
    ensures out.0.Ok? <==>
      Truthy(body, "email") && Truthy(body, "password") && !EmailTaken(rows, NormalizeEmail(body["email"].s))
    ensures out.0.Error? ==> out.1 == rows
    ensures out.0.Ok? ==>
      && out.0.status == 201
      && out.1.Keys == rows.Keys + {id}
      && (forall k :: k in rows ==> out.1[k] == rows[k])
      && out.1[id] == NewUser(id, body, h.hash(body["password"].s, Salt(SaltRounds, nonce)), xss)
      && out.0.payload == Registered("Signup successful",
           Identity(id, out.1[id].email, out.1[id].profile.firstName, out.1[id].profile.lastName),
           MakeToken(jwt, id, DefaultRole))
  {
    if !Truthy(body, "email") || !Truthy(body, "password") then (Error(400, MissingFields), rows)
    else if EmailTaken(rows, NormalizeEmail(body["email"].s)) then (Error(400, GenericSignupError), rows)
    else
      var u := NewUser(id, body, h.hash(body["password"].s, Salt(SaltRounds, nonce)), xss);
      (Ok(201, Registered("Signup successful", Identity(u.id, u.email, u.profile.firstName, u.profile.lastName),
                          MakeToken(jwt, u.id, u.role))),
       rows[id := u])
  }

  /** signup: check the two required fields, refuse a taken normalised e-mail with
      the generic message, hash the password, insert the row, sign a token for the
      stored role. */
  method Signup(table: UserTable, body: Body, h: PasswordHasher, jwt: TokenCodec, xss: string -> string, nonce: nat)
    returns (r: Response<AuthReply>)
    requires table.Valid()
    modifies table
    ensures table.Valid()
    ensures old(table.nextId) !in old(table.rows)
    ensures (r, table.rows) == SignupOutcome(old(table.rows), old(table.nextId), body, h, jwt, xss, nonce)
  {
    var eduEmail := NormalizeEmail(ToStr(body, "email"));
    if !Truthy(body, "email") || !Truthy(body, "password") {
      return Error(400, MissingFields);
    }
    if EmailTaken(table.rows, eduEmail) {
      return Error(400, GenericSignupError);
    }
    var hashedPassword := h.hash(body["password"].s, Salt(SaltRounds, nonce));
    var result := table.Create(NewUser(0, body, hashedPassword, xss));
    var token := MakeToken(jwt, result.id, result.role);
    r := Ok(201, Registered("Signup successful",
                            Identity(result.id, result.email, result.profile.firstName, result.profile.lastName),
                            token));
  }

  /** `findOne({ where: { email } })`. */
  ghost function FindByEmail(rows: map<int, User>, email: string): (found: Option<User>)
    ensures found.Some? <==> EmailTaken(rows, email)
    ensures found.Some? ==> found.value in rows.Values && found.value.email == email
  {
    if EmailTaken(rows, email) then
      var k :| k in rows && rows[k].email == email;
      Some(rows[k])
    else None
  }

  /** login: reads the table and never changes it. */
  ghost function Login(rows: map<int, User>, body: Body, h: PasswordHasher, jwt: TokenCodec): (r: Response<AuthReply>)
    ensures r.Error? || r.Ok?
    ensures r.Status() == 400 <==> !Truthy(body, "email") || !Truthy(body, "password")
    ensures r.Status() == 400 ==> r == Error(400, MissingFields)
    ensures r.Status() == 401 <==>
      && Truthy(body, "email") && Truthy(body, "password")
      && var found := FindByEmail(rows, NormalizeEmail(body["email"].s));
         found.None? || !h.compare(body["password"].s, found.value.password)
    ensures r.Status() == 401 ==> r == Error(401, InvalidCredentials)
    ensures r.Ok? <==>
      && Truthy(body, "email") && Truthy(body, "password")
      && var found := FindByEmail(rows, NormalizeEmail(body["email"].s));
         found.Some? && h.compare(body["password"].s, found.value.password)
    ensures r.Ok? ==>
      && r.status == 200
      && var u := FindByEmail(rows, NormalizeEmail(body["email"].s)).value;
         && h.compare(body["password"].s, u.password)
         && r.payload == LoggedIn("Login successful",
              RoleIdentity(u.id, u.email, EffectiveRole(u), u.profile.firstName, u.profile.lastName),
              MakeToken(jwt, u.id, EffectiveRole(u)))
  {
    if !Truthy(body, "email") || !Truthy(body, "password") then Error(400, MissingFields)
    else
      match FindByEmail(rows, NormalizeEmail(body["email"].s))
      case None => Error(401, InvalidCredentials)
      case Some(u) =>
        if !h.compare(body["password"].s, u.password) then Error(401, InvalidCredentials)
        else
          var role := EffectiveRole(u);
          Ok(200, LoggedIn("Login successful",
                           RoleIdentity(u.id, u.email, role, u.profile.firstName, u.profile.lastName),
                           MakeToken(jwt, u.id, role)))
  }

  /** An unknown e-mail and a wrong password get the very same reply. */
  lemma LoginHidesWhichCheckFailed(unknown: map<int, User>, known: map<int, User>, body: Body,
                                    h: PasswordHasher, jwt: TokenCodec)
    requires Truthy(body, "email") && Truthy(body, "password")
    requires !EmailTaken(unknown, NormalizeEmail(body["email"].s))
    requires forall u :: u in known.Values && u.email == NormalizeEmail(body["email"].s) ==>
               !h.compare(body["password"].s, u.password)
    ensures Login(unknown, body, h, jwt) == Login(known, body, h, jwt) == Error(401, InvalidCredentials)
  {
  }

  /** The token login issues decodes to the id and the role the reply shows. */
  lemma LoginTokenMatchesReply(rows: map<int, User>, body: Body, h: PasswordHasher, jwt: TokenCodec)
    requires SoundCodec(jwt)
    ensures var r := Login(rows, body, h, jwt);
      r.Ok? ==> jwt.verify(r.payload.token) == Some(Claims(r.payload.user.id, r.payload.user.role))
  {
  }

  /** me: the caller's row (by the token's id) with the same role rule as login. */
  function Me(rows: map<int, User>, user: Claims): (r: Response<AuthReply>)
    ensures r.Ok? <==> user.id in rows
    ensures r.Error? <==> user.id !in rows
    ensures r.Error? ==> r == Error(404, "User not found")
    ensures r.Ok? ==>
      && r.status == 200
      && var u := rows[user.id];
         && r.payload == Current(RoleIdentity(u.id, u.email, EffectiveRole(u), u.profile.firstName, u.profile.lastName))
         && (r.payload.user.role == "admin" <==>
               IsAmsaAdminEmail(Some(u.email)) || (u.level.Some? && u.level.value >= AdminLevel))
  {
    if user.id !in rows then Error(404, "User not found")
    else
      var u := rows[user.id];
      Ok(200, Current(RoleIdentity(u.id, u.email, EffectiveRole(u), u.profile.firstName, u.profile.lastName)))
  }

  /** Presenting the token login issued to me reports the same user and the same
      role as the login reply. */
  lemma LoginAndMeAgree(rows: map<int, User>, body: Body, h: PasswordHasher, jwt: TokenCodec)
    requires KeyedById(rows) && SoundCodec(jwt)
    ensures var r := Login(rows, body, h, jwt);
      r.Ok? ==> Me(rows, jwt.verify(r.payload.token).value) == Ok(200, Current(r.payload.user))
  {
    var r := Login(rows, body, h, jwt);
    if r.Ok? {
      var u := FindByEmail(rows, NormalizeEmail(body["email"].s)).value;
      var k :| k in rows && rows[k] == u;
      assert u.id == k;
    }
  }

  /** Signing up and then logging in with the same e-mail and password succeeds,
      and the token names the new row with the role the role rule gives it. */
  lemma SignupThenLogin(rows: map<int, User>, id: int, body: Body, login: Body, h: PasswordHasher,
                        jwt: TokenCodec, xss: string -> string, nonce: nat)
    requires id !in rows && UniqueEmails(rows)
    requires SoundHasher(h) && SoundCodec(jwt)
    requires SignupOutcome(rows, id, body, h, jwt, xss, nonce).0.Ok?
    requires "email" in login && login["email"] == body["email"]
    requires "password" in login && login["password"] == body["password"]
    ensures var rows' := SignupOutcome(rows, id, body, h, jwt, xss, nonce).1;
      var r := Login(rows', login, h, jwt);
      && r.Ok? && r.payload.user.id == id
      && jwt.verify(r.payload.token) == Some(Claims(id, EffectiveRole(rows'[id])))
  {
    var rows' := SignupOutcome(rows, id, body, h, jwt, xss, nonce).1;
    var email := NormalizeEmail(body["email"].s);
    assert rows'[id].email == email;
    assert EmailTaken(rows', email);
    var found := FindByEmail(rows', email).value;
    var k :| k in rows' && rows'[k] == found;
  }

  /** The drift between signup and login: an admin-domain signup is handed a
      "member" token, although login and me report "admin" for the same row. */
  lemma SignupTokenCarriesStoredRole(rows: map<int, User>, id: int, body: Body, h: PasswordHasher,
                                     jwt: TokenCodec, xss: string -> string, nonce: nat)
    requires id !in rows && SoundCodec(jwt)
    requires SignupOutcome(rows, id, body, h, jwt, xss, nonce).0.Ok?
    requires IsAmsaAdminEmail(Some(NormalizeEmail(body["email"].s)))
    ensures var out := SignupOutcome(rows, id, body, h, jwt, xss, nonce);
      && jwt.verify(out.0.payload.token) == Some(Claims(id, "member"))
      && EffectiveRole(out.1[id]) == "admin"
  {
  }
}
