/** The user table: one record shape (login e-mail, bcrypt digest, stored role,
    numeric level, profile columns) and the Sequelize model operations the
    controllers use on it, create and save. */
module Users {
  import opened Js

  /** The columns a member edits through the profile form. */
  datatype Profile = Profile(
    firstName: Option<string>,
    lastName: Option<string>,
    personalEmail: Option<string>,
    birthday: Option<string>,
    address1: Option<string>,
    address2: Option<string>,
    city: Option<string>,
    state: Option<string>,
    zipCode: Option<string>,
    phoneNumber: Option<string>,
    facebook: Option<string>,
    instagram: Option<string>,
    linkedin: Option<string>,
    schoolName: Option<string>,
    schoolCity: Option<string>,
    schoolState: Option<string>,
    degreeLevel: Option<string>,
    graduationYear: Option<string>,
    schoolYear: Option<string>,
    major: Option<string>,
    major2: Option<string>,
    bio: Option<string>)

  /** A row of the user table. `level` is null on rows that never had one. */
  datatype User = User(
    id: int,
    email: string,
    password: string,
    role: string,
    level: Option<int>,
    emailVerified: bool,
    profile: Profile,
    profilePic: Option<string>,
    hash: Option<string>,
    hashExpiresAt: Option<string>,
    acceptanceStatus: Option<string>)

  /** The stored role a new row gets: the column's default. */
  const DefaultRole := "member"

  /** The columns of the user table. */
  datatype Column =
    | Id | Email | Password | Role | Level | EmailVerified
    | ProfilePic | Hash | HashExpiresAt | AcceptanceStatus
    | FirstName | LastName | PersonalEmail | Birthday | Address1 | Address2
    | City | State | ZipCode | PhoneNumber | Facebook | Instagram | Linkedin
    | SchoolName | SchoolCity | SchoolState | DegreeLevel | GraduationYear
    | SchoolYear | Major | Major2 | Bio

  const AllColumns: set<Column> := {
    Id, Email, Password, Role, Level, EmailVerified,
    ProfilePic, Hash, HashExpiresAt, AcceptanceStatus,
    FirstName, LastName, PersonalEmail, Birthday, Address1, Address2,
    City, State, ZipCode, PhoneNumber, Facebook, Instagram, Linkedin,
    SchoolName, SchoolCity, SchoolState, DegreeLevel, GraduationYear,
    SchoolYear, Major, Major2, Bio }

  /** The attribute name of a column, as it appears in JSON and in request bodies. */
  function Name(c: Column): string {
    match c
    case Id => "id"
    case Email => "email"
    case Password => "password"
    case Role => "role"
    case Level => "level"
    case EmailVerified => "emailVerified"
    case ProfilePic => "profilePic"
    case Hash => "hash"
    case HashExpiresAt => "hashExpiresAt"
    case AcceptanceStatus => "acceptanceStatus"
    case FirstName => "firstName"
    case LastName => "lastName"
    case PersonalEmail => "personalEmail"
    case Birthday => "birthday"
    case Address1 => "address1"
    case Address2 => "address2"
    case City => "city"
    case State => "state"
    case ZipCode => "zipCode"
    case PhoneNumber => "phoneNumber"
    case Facebook => "facebook"
    case Instagram => "instagram"
    case Linkedin => "linkedin"
    case SchoolName => "schoolName"
    case SchoolCity => "schoolCity"
    case SchoolState => "schoolState"
    case DegreeLevel => "degreeLevel"
    case GraduationYear => "graduationYear"
    case SchoolYear => "schoolYear"
    case Major => "major"
    case Major2 => "major2"
    case Bio => "bio"
  }

  predicate IsProfileColumn(c: Column) {
    !(c.Id? || c.Email? || c.Password? || c.Role? || c.Level? || c.EmailVerified?
      || c.ProfilePic? || c.Hash? || c.HashExpiresAt? || c.AcceptanceStatus?)
  }

  /** The value of one profile column. */
  function ProfileField(p: Profile, c: Column): Option<string>
    requires IsProfileColumn(c)
  {
    match c
    case FirstName => p.firstName
    case LastName => p.lastName
    case PersonalEmail => p.personalEmail
    case Birthday => p.birthday
    case Address1 => p.address1
    case Address2 => p.address2
    case City => p.city
    case State => p.state
    case ZipCode => p.zipCode
    case PhoneNumber => p.phoneNumber
    case Facebook => p.facebook
    case Instagram => p.instagram
    case Linkedin => p.linkedin
    case SchoolName => p.schoolName
    case SchoolCity => p.schoolCity
    case SchoolState => p.schoolState
    case DegreeLevel => p.degreeLevel
    case GraduationYear => p.graduationYear
    case SchoolYear => p.schoolYear
    case Major => p.major
    case Major2 => p.major2
    case Bio => p.bio
  }

  /** A cell of a row as it is serialised. */
  datatype Cell = Text(text: Option<string>) | Number(number: Option<int>) | Flag(flag: bool)

  function CellOf(u: User, c: Column): Cell {
    match c
    case Id => Number(Some(u.id))
    case Email => Text(Some(u.email))
    case Password => Text(Some(u.password))
    case Role => Text(Some(u.role))
    case Level => Number(u.level)
    case EmailVerified => Flag(u.emailVerified)
    case ProfilePic => Text(u.profilePic)
    case Hash => Text(u.hash)
    case HashExpiresAt => Text(u.hashExpiresAt)
    case AcceptanceStatus => Text(u.acceptanceStatus)
    case _ => Text(ProfileField(u.profile, c))
  }

  /** `findByPk(id, { attributes: { exclude } })`: every column but the excluded ones. */
  function Without(u: User, exclude: set<Column>): (v: map<Column, Cell>)
    ensures v.Keys == AllColumns - exclude
    ensures forall c :: c in v ==> v[c] == CellOf(u, c)
  {
    map c | c in AllColumns - exclude :: CellOf(u, c)
  }

  /** Every stored row sits under its own id. */
  ghost predicate KeyedById(rows: map<int, User>) {
    forall k :: k in rows ==> rows[k].id == k
  }

  /** The e-mail column is unique. */
  ghost predicate UniqueEmails(rows: map<int, User>) {
    forall j, k :: j in rows && k in rows && rows[j].email == rows[k].email ==> j == k
  }

  predicate EmailTaken(rows: map<int, User>, email: string) {
    exists k :: k in rows && rows[k].email == email
  }

  /** The user table with its serial id counter. */
  class UserTable {
    var rows: map<int, User>
    var nextId: int

    ghost predicate Valid()
      reads this
    {
      && KeyedById(rows)
      && (forall k :: k in rows ==> k < nextId)
      && UniqueEmails(rows)
    }

    constructor ()
      ensures Valid() && rows == map[]
    {
      rows := map[];
      nextId := 1;
    }

    /** `db.User.create(draft)`: the database gives the row the next serial id.
        The unique e-mail constraint is the caller's to respect. */
    method Create(draft: User) returns (created: User)
      requires Valid() && !EmailTaken(rows, draft.email)
      modifies this
      ensures Valid()
      ensures created == draft.(id := old(nextId)) && created.id !in old(rows)
      ensures rows == old(rows)[created.id := created] && nextId == old(nextId) + 1
    {
      created := draft.(id := nextId);
      rows := rows[nextId := created];
      nextId := nextId + 1;
    }

    /** `user.save()` on a loaded record whose e-mail was not touched. */
    method Save(u: User)
      requires Valid() && u.id in rows && u.email == rows[u.id].email
      modifies this
      ensures Valid()
      ensures rows == old(rows)[u.id := u] && nextId == old(nextId)
    {
      rows := rows[u.id := u];
    }
  }
}
