/** Looking members up: the public profile card, the signed-in view of a
    profile (own or someone else's), and the team page grouped by board. */
module UserController {
  import opened Js
  import opened Libs
  import opened Http
  import opened Users
  import opened Postgres

  const UserIdRequired := "User ID is required"
  const UserNotFound := "User not found"
  const ServerNotAvailable := "Server not available"

  /** Columns a public profile card hides. */
  const PublicExclude: set<Column> := {
    Password, Hash, HashExpiresAt, Birthday, Address1, Address2, City, State,
    ZipCode, PhoneNumber, AcceptanceStatus, EmailVerified, Level,
    SchoolCity, SchoolState, SchoolYear, Email, PersonalEmail }

  /** Columns hidden from a signed-in member looking at their own profile. */
  const OwnExclude: set<Column> := { Password, Hash, HashExpiresAt }

  /** Columns hidden from a signed-in member looking at someone else: the public
      list less the two e-mail columns. */
  const OtherExclude: set<Column> := {
    Password, Hash, HashExpiresAt, Birthday, Address1, Address2, City, State,
    ZipCode, PhoneNumber, AcceptanceStatus, EmailVerified, Level,
    SchoolCity, SchoolState, SchoolYear }

  /** The columns that reach a stranger: name, picture, social links and study. */
  lemma PublicColumns()
    ensures AllColumns - PublicExclude ==
      { Id, Role, ProfilePic, FirstName, LastName, Facebook, Instagram, Linkedin,
        SchoolName, DegreeLevel, GraduationYear, Major, Major2, Bio }
    ensures OtherExclude == PublicExclude - {Email, PersonalEmail}
    ensures OwnExclude < OtherExclude < PublicExclude
  {
  }

  /** What `findByPk` comes back with: the row, nothing, or a failed query. */
  datatype Lookup = Found(user: User) | Missing | Failed

  /** `findByPk(id)` for a numeric id: the number is compared with the key
      column as it is, so an id that no row has, in the integer range or not,
      finds nothing. */
  function FindById(rows: map<int, User>, id: int): (l: Lookup)
    ensures !l.Failed?
    ensures l.Found? <==> id in rows
    ensures l.Found? ==> l.user == rows[id]
  {
    if id in rows then Found(rows[id]) else Missing
  }

  /** `findByPk(id)` for the text of a route parameter: the database reads the
      text as an integer, and text it cannot read makes the query fail. */
  function FindByParam(rows: map<int, User>, param: string): (l: Lookup)
    ensures l.Failed? <==> Int4Input(param).None?
    ensures l.Missing? <==> Int4Input(param).Some? && Int4Input(param).value !in rows
    ensures l.Found? ==> Int4Input(param).value in rows && l.user == rows[Int4Input(param).value]
  {
    match Int4Input(param)
    case None => Failed
    case Some(id) => FindById(rows, id)
  }

  /** The id a profile request looks up: the parameter as the database reads
      it, or the caller's own (numeric) id when there is none; None when the
      database cannot read the parameter. */
  function RequestedId(user: Claims, param: string): (id: Option<int>)
    ensures param != "" ==> id == Int4Input(param)
    ensures param != "" && id.Some? ==> MinInt4 <= id.value <= MaxInt4
    ensures param == "" ==> id == Some(user.id)
  {
    if param != "" then Int4Input(param) else Some(user.id)
  }

  /** getPublicUser for `/public-profile/:id`. */
  function GetPublicUser(rows: map<int, User>, param: string): (r: Response<map<Column, Cell>>)
    ensures r.Error? || r.Ok?
    ensures r == Error(400, UserIdRequired) <==> param == ""
    ensures r == Error(500, ServerNotAvailable) <==> param != "" && Int4Input(param).None?
    ensures r == Error(404, UserNotFound) <==>
      param != "" && Int4Input(param).Some? && Int4Input(param).value !in rows
    ensures r.Ok? <==> param != "" && Int4Input(param).Some? && Int4Input(param).value in rows
    ensures r.Ok? ==>
      && r.status == 200
      && r.payload.Keys == AllColumns - PublicExclude
      && forall c :: c in r.payload ==> r.payload[c] == CellOf(rows[Int4Input(param).value], c)
  {
    if param == "" then Error(400, UserIdRequired)
    else
      match FindByParam(rows, param)
      case Failed => Error(500, ServerNotAvailable)
      case Missing => Error(404, UserNotFound)
      case Found(u) => Ok(200, Without(u, PublicExclude))
  }

  /** getUserProfile for `/profile/:id`, behind requireAuth. An empty parameter
      falls back to the caller's own id (and a zero id is refused as missing); the
      caller sees their own columns when the parameter parses to their id. */
  function GetUserProfile(rows: map<int, User>, user: Claims, param: string): (r: Response<map<Column, Cell>>)
    ensures r.Error? || r.Ok?
    ensures r == Error(400, UserIdRequired) <==> param == "" && user.id == 0
    ensures r == Error(500, ServerNotAvailable) <==> param != "" && Int4Input(param).None?
    ensures r == Error(404, UserNotFound) <==>
      (param != "" || user.id != 0) && RequestedId(user, param).Some? && RequestedId(user, param).value !in rows
    ensures r.Ok? <==>
      (param != "" || user.id != 0) && RequestedId(user, param).Some? && RequestedId(user, param).value in rows
    ensures r.Ok? ==> r.status == 200
    ensures r.Ok? && param == "" ==> r.payload == Without(rows[user.id], OwnExclude)
    ensures r.Ok? && param != "" ==>
      r.payload == Without(rows[Int4Input(param).value],
                           if ParseInt(param) == Some(user.id) then OwnExclude else OtherExclude)
  {
    if param == "" then
      if user.id == 0 then Error(400, UserIdRequired)
      else
        match FindById(rows, user.id)
        case Found(u) => Ok(200, Without(u, OwnExclude))
        case _ => Error(404, UserNotFound)
    else
      var isOwnProfile := ParseInt(param) == Some(user.id);
      match FindByParam(rows, param)
      case Failed => Error(500, ServerNotAvailable)
      case Missing => Error(404, UserNotFound)
      case Found(u) => Ok(200, Without(u, if isOwnProfile then OwnExclude else OtherExclude))
  }

  /** Asking for one's own id, written out in decimal, gives the same answer as
      asking with no id at all, for every id the integer column can hold. */
  lemma OwnIdMeansOwnProfile(rows: map<int, User>, user: Claims)
    requires user.id != 0
    requires MinInt4 <= user.id <= MaxInt4
    ensures GetUserProfile(rows, user, IntString(user.id)) == GetUserProfile(rows, user, "")
  {
    var s := IntString(user.id);
    assert s != "" && ParseInt(s) == Some(user.id) by {
      ParseIntString(user.id);
    }
    assert FindByParam(rows, s) == FindById(rows, user.id) by {
      Int4ReadsDecimal(user.id);
    }
    var expected := match FindById(rows, user.id)
      case Found(u) => Ok(200, Without(u, OwnExclude))
      case _ => Error(404, UserNotFound);
    assert GetUserProfile(rows, user, s) == expected;
    assert GetUserProfile(rows, user, "") == expected;
  }

  /** Outside the integer column's range the two requests part: the decimal
      text is refused by the database (500), while the bare number finds no
      row (404). */
  lemma OutOfRangeOwnIdDiverges(rows: map<int, User>, user: Claims)
    requires !(MinInt4 <= user.id <= MaxInt4)
    requires user.id !in rows
    ensures GetUserProfile(rows, user, IntString(user.id)) == Error(500, ServerNotAvailable)
    ensures GetUserProfile(rows, user, "") == Error(404, UserNotFound)
  {
    Int4ReadsDecimal(user.id);
  }

  /** With every row stored under its own id, a signed-in member gets the own
      view of a profile exactly when the row found is their own: whatever text
      the database reads as a number, parseInt reads as the same number. */
  lemma OwnViewIsOwnRow(rows: map<int, User>, user: Claims, param: string)
    requires KeyedById(rows)
    requires param != ""
    ensures var r := GetUserProfile(rows, user, param);
      r.Ok? ==> r.payload == Without(rows[Int4Input(param).value],
                                     if rows[Int4Input(param).value].id == user.id then OwnExclude else OtherExclude)
  {
    match FindByParam(rows, param)
    case Failed =>
    case Missing =>
    case Found(u) =>
      var k := Int4Input(param).value;
      Int4AgreesWithParseInt(param);
      assert u.id == k;
      var exclude := if ParseInt(param) == Some(user.id) then OwnExclude else OtherExclude;
      assert exclude == if u.id == user.id then OwnExclude else OtherExclude;
      assert GetUserProfile(rows, user, param) == Ok(200, Without(u, exclude));
  }

  /** Asking for someone else's profile never shows their address, phone or
      birthday. */
  lemma OthersSeeNoContactDetails(rows: map<int, User>, user: Claims, param: string)
    requires ParseInt(param) != Some(user.id) && param != ""
    ensures var r := GetUserProfile(rows, user, param);
      r.Ok? ==> forall c :: c in {Birthday, Address1, Address2, City, State, ZipCode, PhoneNumber} ==> c !in r.payload
  {
  }

  /** Taking the e-mail columns off the hidden list adds exactly them to what shows. */
  lemma EmailColumnsAdded()
    ensures (AllColumns - PublicExclude) + {Email, PersonalEmail} == AllColumns - OtherExclude
  {
    PublicColumns();
    assert Email in AllColumns && PersonalEmail in AllColumns;
  }

  /** The signed-in view of someone else shows everything the public card does,
      plus the two e-mail columns. */
  lemma SignedInSeesMoreThanPublic(rows: map<int, User>, user: Claims, param: string)
    requires ParseInt(param) != Some(user.id)
    ensures var pub := GetPublicUser(rows, param);
      var signed := GetUserProfile(rows, user, param);
      pub.Ok? ==> signed.Ok? && pub.payload.Keys + {Email, PersonalEmail} == signed.payload.Keys
                  && forall c :: c in pub.payload ==> pub.payload[c] == signed.payload[c]
  {
    if param != "" {
      match FindByParam(rows, param)
      case Failed =>
      case Missing =>
      case Found(u) =>
        assert GetPublicUser(rows, param) == Ok(200, Without(u, PublicExclude));
        assert GetUserProfile(rows, user, param) == Ok(200, Without(u, OtherExclude));
        EmailColumnsAdded();
    }
  }

  /** For a parameter that is given, the signed-in view fails exactly when the
      public card does, with the same status and message. */
  lemma SignedInFailsLikePublic(rows: map<int, User>, user: Claims, param: string)
    requires param != ""
    ensures var pub := GetPublicUser(rows, param);
      var signed := GetUserProfile(rows, user, param);
      (pub.Ok? <==> signed.Ok?) && (pub.Error? ==> signed == pub)
  {
  }

  /** The user columns the team page joins in. */
  datatype MemberUser = MemberUser(
    firstName: Option<string>, lastName: Option<string>, email: string,
    schoolName: Option<string>, profilePic: Option<string>, linkedin: Option<string>)

  /** A row of the role table, with its user joined in. */
  datatype RoleRow = RoleRow(
    userId: int, name: Option<string>, year: Option<int>, yearEnd: Option<int>,
    role: Option<string>, user: Option<MemberUser>)

  /** The team page: executive board members grouped by their (truthy) year, the
      strategy board, and this year's executive board. */
  datatype Members = Members(tuz: map<int, seq<RoleRow>>, sb: seq<RoleRow>, currentTuz: seq<RoleRow>)

  /** What a team-page filter selects on: the role, or the year. */
  datatype Selector = RoleIs(role: string) | YearIs(year: int)

  predicate Selects(k: Selector, m: RoleRow) {
    match k
    case RoleIs(role) => m.role == Some(role)
    case YearIs(year) => m.year == Some(year)
  }

  /** `ms.filter(...)`: the selected rows, in their original order. */
  function Filter(ms: seq<RoleRow>, k: Selector): (out: seq<RoleRow>)
    ensures |out| <= |ms|
    ensures forall m :: m in out <==> m in ms && Selects(k, m)
  {
    if ms == [] then []
    else
      var rest := Filter(ms[..|ms| - 1], k);
      assert ms == ms[..|ms| - 1] + [ms[|ms| - 1]];
      if Selects(k, ms[|ms| - 1]) then rest + [ms[|ms| - 1]] else rest
  }

  /** The rows with this role, in their original order. */
  function WithRole(ms: seq<RoleRow>, role: string): (out: seq<RoleRow>)
    ensures |out| <= |ms|
    ensures forall m :: m in out <==> m in ms && m.role == Some(role)
  {
    Filter(ms, RoleIs(role))
  }

  /** The rows of this year, in their original order. */
  function InYear(ms: seq<RoleRow>, year: int): (out: seq<RoleRow>)
    ensures |out| <= |ms|
    ensures forall m :: m in out <==> m in ms && m.year == Some(year)
  {
    Filter(ms, YearIs(year))
  }

  /** Filtering keeps the order of the rows: it distributes over concatenation. */
  lemma {:induction false} FilterAppend(a: seq<RoleRow>, b: seq<RoleRow>, k: Selector)
    ensures Filter(a + b, k) == Filter(a, k) + Filter(b, k)
    decreases |b|
  {
    if b == [] {
      assert a + b == a;
    } else {
      var b' := b[..|b| - 1];
      assert (a + b)[..|a + b| - 1] == a + b';
      FilterAppend(a, b', k);
    }
  }

  /** `Array.from(new Set(tuz.map(x => x.year).filter(Boolean)))`: each non-zero
      year once, in order of first appearance. */
  function TruthyYears(ms: seq<RoleRow>): (ys: seq<int>)
    ensures forall y :: y in ys <==> y != 0 && InYear(ms, y) != []
    ensures forall i, j :: 0 <= i < j < |ys| ==> ys[i] != ys[j]
  {
    if ms == [] then []
    else
      var rest := TruthyYears(ms[..|ms| - 1]);
      var m := ms[|ms| - 1];
      assert forall y :: InYear(ms, y) != [] <==> InYear(ms[..|ms| - 1], y) != [] || m.year == Some(y);
      if m.year.Some? && m.year.value != 0 && m.year.value !in rest then rest + [m.year.value] else rest
  }

  /** The first loop of getMembers: one pass sorting rows into the strategy board
      ("sb") and the executive board ("tuz"); rows with other roles are dropped. */
  method SplitBoards(members: seq<RoleRow>) returns (sbFilter: seq<RoleRow>, tuzFilter: seq<RoleRow>)
    ensures sbFilter == WithRole(members, "sb") && tuzFilter == WithRole(members, "tuz")
  {
    sbFilter, tuzFilter := [], [];
    var i := 0;
    while i < |members|
      invariant 0 <= i <= |members|
      invariant sbFilter == WithRole(members[..i], "sb")
      invariant tuzFilter == WithRole(members[..i], "tuz")
    {
      assert members[..i + 1][..i] == members[..i];
      if members[i].role == Some("sb") {
        sbFilter := sbFilter + [members[i]];
      } else if members[i].role == Some("tuz") {
        tuzFilter := tuzFilter + [members[i]];
      }
      i := i + 1;
    }
    assert members[..|members|] == members;
  }

  /** The second loop: executive-board rows whose year is the current one. */
  method CurrentBoard(members: seq<RoleRow>, currentYear: int) returns (currentTuzFilter: seq<RoleRow>)
    ensures currentTuzFilter == InYear(WithRole(members, "tuz"), currentYear)
  {
    currentTuzFilter := [];
    var i := 0;
    while i < |members|
      invariant 0 <= i <= |members|
      invariant currentTuzFilter == InYear(WithRole(members[..i], "tuz"), currentYear)
    {
      CurrentBoardStep(members, i, currentYear);
      if members[i].role == Some("tuz") && members[i].year == Some(currentYear) {
        currentTuzFilter := currentTuzFilter + [members[i]];
      }
      i := i + 1;
    }
    assert members[..|members|] == members;
  }

  /** One more row reaches the current board iff it is an executive-board row of
      the current year. */
  lemma CurrentBoardStep(ms: seq<RoleRow>, i: nat, year: int)
    requires i < |ms|
    ensures InYear(WithRole(ms[..i + 1], "tuz"), year) ==
      InYear(WithRole(ms[..i], "tuz"), year) + (if ms[i].role == Some("tuz") && ms[i].year == Some(year) then [ms[i]] else [])
  {
    assert ms[..i + 1] == ms[..i] + [ms[i]];
    FilterAppend(ms[..i], [ms[i]], RoleIs("tuz"));
    FilterAppend(WithRole(ms[..i], "tuz"), WithRole([ms[i]], "tuz"), YearIs(year));
  }

  /** The third loop: an empty list under every year. */
  method EmptyGroups(years: seq<int>) returns (groups: map<int, seq<RoleRow>>)
    ensures forall y :: y in groups <==> y in years
    ensures forall y :: y in groups ==> groups[y] == []
  {
    groups := map[];
    var i := 0;
    while i < |years|
      invariant 0 <= i <= |years|
      invariant forall y :: y in groups <==> y in years[..i]
      invariant forall y :: y in groups ==> groups[y] == []
    {
      assert years[..i + 1] == years[..i] + [years[i]];
      groups := groups[years[i] := []];
      i := i + 1;
    }
    assert years[..|years|] == years;
  }

  /** The last two loops: an empty list under every truthy year, then each row with
      a truthy year pushed onto its year's list. */
  method GroupByYear(tuzFilter: seq<RoleRow>) returns (tuzMembers: map<int, seq<RoleRow>>)
    ensures forall y :: y in tuzMembers <==> y != 0 && InYear(tuzFilter, y) != []
    ensures forall y :: y in tuzMembers ==> tuzMembers[y] == InYear(tuzFilter, y)
  {
    var years := TruthyYears(tuzFilter);
    var groups := EmptyGroups(years);
    forall m | m in tuzFilter && m.year.Some? && m.year.value != 0
      ensures m.year.value in groups
    {
      assert m in InYear(tuzFilter, m.year.value);
    }
    tuzMembers := PushByYear(groups, tuzFilter);
  }

  /** The last loop: every row with a truthy year appended to its year's list,
      which the previous loop created. */
  method PushByYear(groups: map<int, seq<RoleRow>>, tuzFilter: seq<RoleRow>) returns (tuzMembers: map<int, seq<RoleRow>>)
    requires 0 !in groups
    requires forall m :: m in tuzFilter && m.year.Some? && m.year.value != 0 ==> m.year.value in groups
    requires forall y :: y in groups ==> groups[y] == []
    ensures tuzMembers.Keys == groups.Keys
    ensures forall y :: y in tuzMembers ==> tuzMembers[y] == InYear(tuzFilter, y)
  {
    tuzMembers := groups;
    var i := 0;
    while i < |tuzFilter|
      invariant 0 <= i <= |tuzFilter|
      invariant tuzMembers.Keys == groups.Keys
      invariant forall y :: y in tuzMembers ==> tuzMembers[y] == InYear(tuzFilter[..i], y)
    {
      var member := tuzFilter[i];
      var before := tuzMembers;
      if member.year.Some? && member.year.value != 0 {
        tuzMembers := tuzMembers[member.year.value := tuzMembers[member.year.value] + [member]];
      }
      PushStep(before, tuzMembers, tuzFilter, i);
      i := i + 1;
    }
    assert tuzFilter[..|tuzFilter|] == tuzFilter;
  }

  /** Appending row `i` to its year's list (when its year is truthy and has a list)
      turns the lists of the first `i` rows into the lists of the first `i + 1`. */
  lemma PushStep(before: map<int, seq<RoleRow>>, after: map<int, seq<RoleRow>>, all: seq<RoleRow>, i: nat)
    requires i < |all| && 0 !in before
    requires forall y :: y in before ==> before[y] == InYear(all[..i], y)
    requires after == if all[i].year.Some? && all[i].year.value != 0 && all[i].year.value in before
                      then before[all[i].year.value := before[all[i].year.value] + [all[i]]] else before
    ensures after.Keys == before.Keys
    ensures forall y :: y in after ==> after[y] == InYear(all[..i + 1], y)
  {
    assert all[..i + 1] == all[..i] + [all[i]];
    InYearStep(all[..i], all[i]);
  }

  lemma InYearStep(ms: seq<RoleRow>, m: RoleRow)
    ensures forall y :: InYear(ms + [m], y) == InYear(ms, y) + (if m.year == Some(y) then [m] else [])
  {
    forall y ensures InYear(ms + [m], y) == InYear(ms, y) + (if m.year == Some(y) then [m] else []) {
      assert (ms + [m])[..|ms|] == ms;
    }
  }

  /** getMembers: 503 while the role model is not registered; otherwise the three
      lists of the team page. */
  method GetMembers(ready: bool, members: seq<RoleRow>, currentYear: int) returns (r: Response<Members>)
    ensures r.Ok? <==> ready
    ensures r.Error? <==> !ready
    ensures r.Error? ==> r == Error(503, "DB not ready")
    ensures r.Ok? ==>
      && r.status == 200
      && r.payload.sb == WithRole(members, "sb")
      && r.payload.currentTuz == InYear(WithRole(members, "tuz"), currentYear)
      && (forall y :: y in r.payload.tuz <==> y != 0 && InYear(WithRole(members, "tuz"), y) != [])
      && (forall y :: y in r.payload.tuz ==> r.payload.tuz[y] == InYear(WithRole(members, "tuz"), y))
  {
    if !ready {
      return Error(503, "DB not ready");
    }
    var sbFilter, tuzFilter := SplitBoards(members);
    var currentTuzFilter := CurrentBoard(members, currentYear);
    var tuzMembers := GroupByYear(tuzFilter);
    r := Ok(200, Members(tuzMembers, sbFilter, currentTuzFilter));
  }

  /** The two boards never share a row, and a row sits in the year group of the
      executive board exactly when it is an executive-board row of that year. */
  lemma BoardsPartition(members: seq<RoleRow>, m: RoleRow, y: int)
    ensures !(m in WithRole(members, "sb") && m in WithRole(members, "tuz"))
    ensures m in InYear(WithRole(members, "tuz"), y) <==> m in members && m.role == Some("tuz") && m.year == Some(y)
  {
  }

  /** This year's board is non-empty exactly when this year has a group among the
      executive-board years. */
  lemma CurrentBoardIsItsYearGroup(members: seq<RoleRow>, currentYear: int)
    requires currentYear != 0
    ensures currentYear in TruthyYears(WithRole(members, "tuz")) <==> InYear(WithRole(members, "tuz"), currentYear) != []
  {
  }
}
