/** The signed-in member's own profile: read it, patch it field by field, and
    change the password. */
module ProfileController {
  import opened Js
  import opened Libs
  import opened Http
  import opened Users
  import AuthController

  const UserNotFound := "User not found"

  datatype ProfileReply =
    | ProfileView(profile: map<Column, Cell>)
    | ProfileUpdated(message: string, profile: map<Column, Cell>)
    | PasswordChanged(message: string)

  /** getProfile: the caller's row without its password column. */
  function GetProfile(rows: map<int, User>, user: Claims): (r: Response<ProfileReply>)
    ensures r.Ok? <==> user.id in rows
    ensures r.Error? <==> user.id !in rows
    ensures r.Error? ==> r == Error(404, UserNotFound)
    ensures r.Ok? ==>
      && r.status == 200 && r.payload.ProfileView?
      && r.payload.profile.Keys == AllColumns - {Password}
      && forall c :: c in r.payload.profile ==> r.payload.profile[c] == CellOf(rows[user.id], c)
  {
    if user.id !in rows then Error(404, UserNotFound)
    else Ok(200, ProfileView(Without(rows[user.id], {Password})))
  }

  /** The new value of a free-text profile field: left alone when the body does not
      mention it, otherwise the sanitised value, or null for a falsy one. */
  function PatchText(current: Option<string>, body: Body, key: string, xss: string -> string): Option<string> {
    if key in body then SanitizedOrNull(body, key, xss) else current
  }

  /** The profile updateProfile writes back. */
  function Patch(p: Profile, body: Body, xss: string -> string): Profile {
    Profile(
      firstName := PatchText(p.firstName, body, "firstName", xss),
      lastName := PatchText(p.lastName, body, "lastName", xss),
      personalEmail := PatchText(p.personalEmail, body, "personalEmail", xss),
      birthday := if "birthday" in body then RawOrNull(body, "birthday") else p.birthday,
      address1 := PatchText(p.address1, body, "address1", xss),
      address2 := PatchText(p.address2, body, "address2", xss),
      city := PatchText(p.city, body, "city", xss),
      state := PatchText(p.state, body, "state", xss),
      zipCode := PatchText(p.zipCode, body, "zipCode", xss),
      phoneNumber := PatchText(p.phoneNumber, body, "phoneNumber", xss),
      facebook := PatchText(p.facebook, body, "facebook", xss),
      instagram := PatchText(p.instagram, body, "instagram", xss),
      linkedin := PatchText(p.linkedin, body, "linkedin", xss),
      schoolName := PatchText(p.schoolName, body, "schoolName", xss),
      schoolCity := PatchText(p.schoolCity, body, "schoolCity", xss),
      schoolState := PatchText(p.schoolState, body, "schoolState", xss),
      degreeLevel := PatchText(p.degreeLevel, body, "degreeLevel", xss),
      graduationYear := PatchText(p.graduationYear, body, "graduationYear", xss),
      schoolYear := PatchText(p.schoolYear, body, "schoolYear", xss),
      major := PatchText(p.major, body, "major", xss),
      major2 := PatchText(p.major2, body, "major2", xss),
      bio := PatchText(p.bio, body, "bio", xss))
  }

  /** The value a profile column ends up with: its old value when the body does not
      carry the column's own name, otherwise the sanitised value (the raw one for
      birthday) or null for a falsy one. */
  function PatchedField(p: Profile, body: Body, xss: string -> string, c: Column): Option<string>
    requires IsProfileColumn(c)
  {
    if Name(c) !in body then ProfileField(p, c)
    else if c == Birthday then RawOrNull(body, Name(c))
    else SanitizedOrNull(body, Name(c), xss)
  }

  lemma PatchColumn(p: Profile, body: Body, xss: string -> string, c: Column)
    requires IsProfileColumn(c)
    ensures ProfileField(Patch(p, body, xss), c) == PatchedField(p, body, xss, c)
  {
    match c
    case FirstName =>
    case LastName =>
    case PersonalEmail =>
    case Birthday =>
    case Address1 =>
    case Address2 =>
    case City =>
    case State =>
    case ZipCode =>
    case PhoneNumber =>
    case Facebook =>
    case Instagram =>
    case Linkedin =>
    case SchoolName =>
    case SchoolCity =>
    case SchoolState =>
    case DegreeLevel =>
    case GraduationYear =>
    case SchoolYear =>
    case Major =>
    case Major2 =>
    case Bio =>
  }

  /** Every profile column follows PatchedField. */
  lemma PatchColumns(p: Profile, body: Body, xss: string -> string)
    ensures forall c :: IsProfileColumn(c) ==> ProfileField(Patch(p, body, xss), c) == PatchedField(p, body, xss, c)
  {
    forall c | IsProfileColumn(c)
      ensures ProfileField(Patch(p, body, xss), c) == PatchedField(p, body, xss, c)
    {
      PatchColumn(p, body, xss, c);
    }
  }

  /** An empty form changes nothing, and sending the same form twice is the same
      as sending it once. */
  lemma PatchIdempotent(p: Profile, body: Body, xss: string -> string)
    ensures Patch(p, map[], xss) == p
    ensures Patch(Patch(p, body, xss), body, xss) == Patch(p, body, xss)
  {
  }

  /** updateProfile: apply every field the body carries, save, and answer with the
      saved row without its password. Only the caller's profile columns change. */
  method UpdateProfile(table: UserTable, user: Claims, body: Body, xss: string -> string) returns (r: Response<ProfileReply>)
    requires table.Valid()
    modifies table
    ensures table.Valid() && table.nextId == old(table.nextId)
    ensures user.id !in old(table.rows) ==> r == Error(404, UserNotFound) && table.rows == old(table.rows)
    ensures user.id in old(table.rows) ==>
      var updated := old(table.rows)[user.id].(profile := Patch(old(table.rows)[user.id].profile, body, xss));
      && table.rows == old(table.rows)[user.id := updated]
      && r == Ok(200, ProfileUpdated("Profile updated successfully", Without(updated, {Password})))
  {
    if user.id !in table.rows {
      return Error(404, UserNotFound);
    }
    var found := table.rows[user.id];
    var p := ApplyUpdates(found.profile, body, xss);
    var saved := found.(profile := p);
    table.Save(saved);
    r := Ok(200, ProfileUpdated("Profile updated successfully", Without(saved, {Password})));
  }

  /** One `if (field !== undefined) user.field = field ? xss(field) : null`. */
  method UpdateText(current: Option<string>, body: Body, key: string, xss: string -> string) returns (v: Option<string>)
    ensures v == PatchText(current, body, key, xss)
  {
    v := current;
    if key in body {
      v := SanitizedOrNull(body, key, xss);
    }
  }

  /** The field-by-field assignments of updateProfile; birthday keeps the raw value
      (`birthday || null`). */
  method ApplyUpdates(current: Profile, body: Body, xss: string -> string) returns (p: Profile)
    ensures p == Patch(current, body, xss)
  {
    var firstName := UpdateText(current.firstName, body, "firstName", xss);
    var lastName := UpdateText(current.lastName, body, "lastName", xss);
    var personalEmail := UpdateText(current.personalEmail, body, "personalEmail", xss);
    var birthday := current.birthday;
    if "birthday" in body { birthday := RawOrNull(body, "birthday"); }
    var address1 := UpdateText(current.address1, body, "address1", xss);
    var address2 := UpdateText(current.address2, body, "address2", xss);
    var city := UpdateText(current.city, body, "city", xss);
    var state := UpdateText(current.state, body, "state", xss);
    var zipCode := UpdateText(current.zipCode, body, "zipCode", xss);
    var phoneNumber := UpdateText(current.phoneNumber, body, "phoneNumber", xss);
    var facebook := UpdateText(current.facebook, body, "facebook", xss);
    var instagram := UpdateText(current.instagram, body, "instagram", xss);
    var linkedin := UpdateText(current.linkedin, body, "linkedin", xss);
    var schoolName := UpdateText(current.schoolName, body, "schoolName", xss);
    var schoolCity := UpdateText(current.schoolCity, body, "schoolCity", xss);
    var schoolState := UpdateText(current.schoolState, body, "schoolState", xss);
    var degreeLevel := UpdateText(current.degreeLevel, body, "degreeLevel", xss);
    var graduationYear := UpdateText(current.graduationYear, body, "graduationYear", xss);
    var schoolYear := UpdateText(current.schoolYear, body, "schoolYear", xss);
    var major := UpdateText(current.major, body, "major", xss);
    var major2 := UpdateText(current.major2, body, "major2", xss);
    var bio := UpdateText(current.bio, body, "bio", xss);
    p := Profile(firstName, lastName, personalEmail, birthday, address1, address2,
      city, state, zipCode, phoneNumber, facebook, instagram, linkedin, schoolName,
      schoolCity, schoolState, degreeLevel, graduationYear, schoolYear, major, major2, bio);
  }

  /** The row updateProfile saves differs from the old one in the profile columns
      only, each as PatchedField says; the reply never shows the password. */
  lemma UpdateTouchesProfileOnly(u: User, body: Body, xss: string -> string)
    ensures var updated := u.(profile := Patch(u.profile, body, xss));
      && (forall c :: !IsProfileColumn(c) ==> CellOf(updated, c) == CellOf(u, c))
      && (forall c :: IsProfileColumn(c) ==> CellOf(updated, c) == Text(PatchedField(u.profile, body, xss, c)))
      && Password !in Without(updated, {Password})
  {
    PatchColumns(u.profile, body, xss);
  }

  const PasswordIncorrect := "Current password is incorrect"

  /** What changePassword answers and what the table holds afterwards. */
  function ChangePasswordOutcome(rows: map<int, User>, user: Claims, body: Body, h: PasswordHasher, nonce: nat)
    : (out: (Response<ProfileReply>, map<int, User>))
    ensures out.0.Error? || out.0.Ok?
    ensures out.0 == Error(400, AuthController.MissingFields) <==>
      !Truthy(body, "currentPassword") || !Truthy(body, "newPassword")
    ensures out.0 == Error(404, UserNotFound) <==>
      Truthy(body, "currentPassword") && Truthy(body, "newPassword") && user.id !in rows
    ensures out.0 == Error(401, PasswordIncorrect) <==>
      && Truthy(body, "currentPassword") && Truthy(body, "newPassword") && user.id in rows
      && !h.compare(body["currentPassword"].s, rows[user.id].password)
    ensures out.0.Ok? <==>
      && Truthy(body, "currentPassword") && Truthy(body, "newPassword") && user.id in rows
      && h.compare(body["currentPassword"].s, rows[user.id].password)
    ensures out.0.Error? ==> out.1 == rows
    ensures out.0.Ok? ==>
      && out.0 == Ok(200, PasswordChanged("Password changed successfully"))
      && user.id in rows
      && out.1 == rows[user.id := rows[user.id].(password := h.hash(body["newPassword"].s, Salt(SaltRounds, nonce)))]
  {
    if !Truthy(body, "currentPassword") || !Truthy(body, "newPassword") then (Error(400, AuthController.MissingFields), rows)
    else if user.id !in rows then (Error(404, UserNotFound), rows)
    else if !h.compare(body["currentPassword"].s, rows[user.id].password) then (Error(401, PasswordIncorrect), rows)
    else
      var u := rows[user.id].(password := h.hash(body["newPassword"].s, Salt(SaltRounds, nonce)));
      (Ok(200, PasswordChanged("Password changed successfully")), rows[user.id := u])
  }

  /** changePassword: both passwords required, the current one must verify, the new
      one is hashed and saved. */
  method ChangePassword(table: UserTable, user: Claims, body: Body, h: PasswordHasher, nonce: nat)
    returns (r: Response<ProfileReply>)
    requires table.Valid()
    modifies table
    ensures table.Valid() && table.nextId == old(table.nextId)
    ensures (r, table.rows) == ChangePasswordOutcome(old(table.rows), user, body, h, nonce)
  {
    if !Truthy(body, "currentPassword") || !Truthy(body, "newPassword") {
      return Error(400, AuthController.MissingFields);
    }
    if user.id !in table.rows {
      return Error(404, UserNotFound);
    }
    var found := table.rows[user.id];
    var match_ := h.compare(body["currentPassword"].s, found.password);
    if !match_ {
      return Error(401, PasswordIncorrect);
    }
    var digest := h.hash(body["newPassword"].s, Salt(SaltRounds, nonce));
    table.Save(found.(password := digest));
    r := Ok(200, PasswordChanged("Password changed successfully"));
  }

  /** After a successful change, logging in with the row's e-mail and the new
      password succeeds for that row. */
  lemma ChangedPasswordLogsIn(rows: map<int, User>, user: Claims, body: Body, h: PasswordHasher, nonce: nat,
                              login: Body, jwt: TokenCodec)
    requires KeyedById(rows) && UniqueEmails(rows) && SoundHasher(h)
    requires ChangePasswordOutcome(rows, user, body, h, nonce).0.Ok?
    requires Truthy(login, "email") && AuthController.NormalizeEmail(login["email"].s) == rows[user.id].email
    requires "password" in login && login["password"] == body["newPassword"]
    ensures var r := AuthController.Login(ChangePasswordOutcome(rows, user, body, h, nonce).1, login, h, jwt);
      r.Ok? && r.payload.user.id == user.id
  {
    var rows' := ChangePasswordOutcome(rows, user, body, h, nonce).1;
    var email := rows[user.id].email;
    assert rows'[user.id].email == email;
    assert EmailTaken(rows', email);
    var found := AuthController.FindByEmail(rows', email).value;
    var k :| k in rows' && rows'[k] == found;
    assert k == user.id;
  }
}
