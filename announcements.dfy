/** The announcement routes: anyone may list announcements or read one; only an
    admin may create, edit or delete one. */
module Announcements {
  import opened Js
  import opened Libs
  import opened Http
  import opened AuthMiddleware
  import opened Validation
  import opened Listing

  /** A row of the announcement table; times are timestamps. */
  datatype Announcement = Announcement(
    id: int, title: string, body: string, publishedAt: int, authorId: int, createdAt: int)

  datatype AnnouncementReply = One(announcement: Announcement) | Many(announcements: seq<Announcement>) | Deleted

  const NotFound := "Not found"
  const TitleRequired := "Title is required"
  const BodyRequired := "Body is required"

  ghost predicate KeyedById(rows: map<int, Announcement>) {
    forall k :: k in rows ==> rows[k].id == k
  }

  /** The announcement table with its serial id counter. */
  class AnnouncementTable {
    var rows: map<int, Announcement>
    var nextId: int

    ghost predicate Valid()
      reads this
    {
      KeyedById(rows) && forall k :: k in rows ==> k < nextId
    }

    constructor ()
      ensures Valid() && rows == map[]
    {
      rows := map[];
      nextId := 1;
    }

    /** `Announcement.create(draft)` */
    method Create(draft: Announcement) returns (created: Announcement)
      requires Valid()
      modifies this
      ensures Valid()
      ensures created == draft.(id := old(nextId)) && created.id !in old(rows)
      ensures rows == old(rows)[created.id := created] && nextId == old(nextId) + 1
    {
      created := draft.(id := nextId);
      rows := rows[nextId := created];
      nextId := nextId + 1;
    }

    /** `a.update(data)` */
    method Update(a: Announcement)
      requires Valid() && a.id in rows
      modifies this
      ensures Valid()
      ensures rows == old(rows)[a.id := a] && nextId == old(nextId)
    {
      rows := rows[a.id := a];
    }

    /** `a.destroy()` */
    method Destroy(id: int)
      requires Valid()
      modifies this
      ensures Valid()
      ensures rows == old(rows) - {id} && nextId == old(nextId)
    {
      rows := rows - {id};
    }
  }

  /** `publishedAt` after `optional().isISO8601().toDate()`: absent stays absent,
      a date the parser rejects becomes null. */
  function PublishedAt(body: Body, lib: Sanitizers): Option<int> {
    if "publishedAt" in body then lib.toDate(ToStr(body, "publishedAt")) else None
  }

  /** The POST chains: title and body required, publishedAt optional but ISO 8601. */
  function CreateErrors(body: Body, lib: Sanitizers): (errs: seq<FieldError>)
    ensures errs == [] <==>
      && Truthy(body, "title") && Truthy(body, "body")
      && ("publishedAt" !in body || lib.isIso8601(ToStr(body, "publishedAt")))
  {
    Required(body, "title", TitleRequired) + Required(body, "body", BodyRequired)
    + OptionalIso8601(body, "publishedAt", lib.isIso8601)
  }

  /** What POST /api/announcement answers and what the table holds afterwards,
      given the id the database would give a new row and the current time. */
  function CreateOutcome(rows: map<int, Announcement>, id: int, authorization: Option<string>, jwt: TokenCodec,
                         body: Body, lib: Sanitizers, now: int): (out: (Response<AnnouncementReply>, map<int, Announcement>))
    requires id !in rows
    ensures AdminGate(authorization, jwt).Stop? ==>
      out.0 == Error(AdminGate(authorization, jwt).status, AdminGate(authorization, jwt).message)
    ensures out.0.Invalid? <==> AdminGate(authorization, jwt).Next? && CreateErrors(body, lib) != []
    ensures !out.0.Ok? ==> out.1 == rows
    ensures out.0.Ok? <==> AdminGate(authorization, jwt).Next? && CreateErrors(body, lib) == []
    ensures out.0.Ok? ==>
      && AdminGate(authorization, jwt).user.role == "admin"
      && out.0.status == 201 && out.0.payload.One?
      && var a := out.0.payload.announcement;
         && out.1 == rows[id := a] && a.id == id
         && a.title == lib.xss(body["title"].s) && a.body == lib.xss(body["body"].s)
         && a.publishedAt == (if PublishedAt(body, lib).Some? then PublishedAt(body, lib).value else now)
         && a.authorId == AdminGate(authorization, jwt).user.id && a.createdAt == now
  {
    match AdminGate(authorization, jwt)
    case Stop(s, m) => (Error(s, m), rows)
    case Next(user) =>
      var errors := CreateErrors(body, lib);
      if errors != [] then (Invalid(errors), rows)
      else
        var publishedAt := PublishedAt(body, lib);
        var a := Announcement(id, lib.xss(body["title"].s), lib.xss(body["body"].s),
                              if publishedAt.Some? then publishedAt.value else now, user.id, now);
        (Ok(201, One(a)), rows[id := a])
  }

  /** POST /api/announcement: requireAuth, requireRole("admin"), validate, then the handler. */
  method CreateAnnouncement(table: AnnouncementTable, req: Request, jwt: TokenCodec, body: Body,
                            lib: Sanitizers, now: int) returns (r: Response<AnnouncementReply>)
    requires table.Valid()
    modifies table, req
    ensures table.Valid()
    ensures old(table.nextId) !in old(table.rows)
    ensures (r, table.rows) == CreateOutcome(old(table.rows), old(table.nextId), req.authorization, jwt, body, lib, now)
  {
    var g := RequireAuth(req, jwt);
    if g.Stop? {
      return Error(g.status, g.message);
    }
    g := RequireRole("admin", req.user);
    if g.Stop? {
      return Error(g.status, g.message);
    }
    var errors := CreateErrors(body, lib);
    if errors != [] {
      return Invalid(errors);
    }
    var publishedAt := PublishedAt(body, lib);
    var a := table.Create(Announcement(0, lib.xss(body["title"].s), lib.xss(body["body"].s),
                                       if publishedAt.Some? then publishedAt.value else now, g.user.id, now));
    r := Ok(201, One(a));
  }

  /** The PUT chains: title and body, when present, must be strings; publishedAt,
      when present, ISO 8601. */
  function UpdateErrors(body: Body, lib: Sanitizers): (errs: seq<FieldError>)
    ensures errs == [] <==>
      && ("title" !in body || body["title"].Str?) && ("body" !in body || body["body"].Str?)
      && ("publishedAt" !in body || lib.isIso8601(ToStr(body, "publishedAt")))
  {
    OptionalString(body, "title") + OptionalString(body, "body")
    + OptionalIso8601(body, "publishedAt", lib.isIso8601)
  }

  /** The row after an edit: a truthy title or body replaces that field, a date
      that parsed replaces publishedAt; everything else stays. */
  function Edited(a: Announcement, body: Body, lib: Sanitizers): Announcement {
    var publishedAt := PublishedAt(body, lib);
    a.(title := if Truthy(body, "title") then lib.xss(body["title"].s) else a.title,
       body := if Truthy(body, "body") then lib.xss(body["body"].s) else a.body,
       publishedAt := if publishedAt.Some? then publishedAt.value else a.publishedAt)
  }

  /** An edit never changes the id, the author or the creation time, and a body
      that carries nothing usable changes nothing. */
  lemma EditKeepsIdentity(a: Announcement, body: Body, lib: Sanitizers)
    ensures var e := Edited(a, body, lib);
      e.id == a.id && e.authorId == a.authorId && e.createdAt == a.createdAt
    ensures !Truthy(body, "title") && !Truthy(body, "body") && PublishedAt(body, lib).None? ==>
      Edited(a, body, lib) == a
  {
  }

  /** What PUT /api/announcement/:id answers and what the table holds afterwards. */
  function UpdateOutcome(rows: map<int, Announcement>, id: int, authorization: Option<string>, jwt: TokenCodec,
                         body: Body, lib: Sanitizers): (out: (Response<AnnouncementReply>, map<int, Announcement>))
    ensures AdminGate(authorization, jwt).Stop? ==>
      out.0 == Error(AdminGate(authorization, jwt).status, AdminGate(authorization, jwt).message)
    ensures out.0.Invalid? <==> AdminGate(authorization, jwt).Next? && UpdateErrors(body, lib) != []
    ensures out.0 == Error(404, NotFound) <==>
      AdminGate(authorization, jwt).Next? && UpdateErrors(body, lib) == [] && id !in rows
    ensures out.0.Ok? <==> AdminGate(authorization, jwt).Next? && UpdateErrors(body, lib) == [] && id in rows
    ensures !out.0.Ok? ==> out.1 == rows
    ensures out.0.Ok? ==>
      && AdminGate(authorization, jwt).Next? && AdminGate(authorization, jwt).user.role == "admin"
      && id in rows && out.0 == Ok(200, One(Edited(rows[id], body, lib)))
      && out.1 == rows[id := Edited(rows[id], body, lib)]
  {
    match AdminGate(authorization, jwt)
    case Stop(s, m) => (Error(s, m), rows)
    case Next(_) =>
      var errors := UpdateErrors(body, lib);
      if errors != [] then (Invalid(errors), rows)
      else if id !in rows then (Error(404, NotFound), rows)
      else
        var a := Edited(rows[id], body, lib);
        (Ok(200, One(a)), rows[id := a])
  }

  /** PUT /api/announcement/:id. */
  method UpdateAnnouncement(table: AnnouncementTable, req: Request, jwt: TokenCodec, id: int, body: Body,
                            lib: Sanitizers) returns (r: Response<AnnouncementReply>)
    requires table.Valid()
    modifies table, req
    ensures table.Valid()
    ensures (r, table.rows) == UpdateOutcome(old(table.rows), id, req.authorization, jwt, body, lib)
  {
    var g := RequireAuth(req, jwt);
    if g.Stop? {
      return Error(g.status, g.message);
    }
    g := RequireRole("admin", req.user);
    if g.Stop? {
      return Error(g.status, g.message);
    }
    var errors := UpdateErrors(body, lib);
    if errors != [] {
      return Invalid(errors);
    }
    if id !in table.rows {
      return Error(404, NotFound);
    }
    var updated := Edited(table.rows[id], body, lib);
    table.Update(updated);
    r := Ok(200, One(updated));
  }

  /** What DELETE /api/announcement/:id answers and what the table holds afterwards. */
  function DeleteOutcome(rows: map<int, Announcement>, id: int, authorization: Option<string>, jwt: TokenCodec)
    : (out: (Response<AnnouncementReply>, map<int, Announcement>))
    ensures AdminGate(authorization, jwt).Stop? ==>
      out.0 == Error(AdminGate(authorization, jwt).status, AdminGate(authorization, jwt).message)
    ensures out.0 == Error(404, NotFound) <==> AdminGate(authorization, jwt).Next? && id !in rows
    ensures out.0.Ok? <==> AdminGate(authorization, jwt).Next? && id in rows
    ensures !out.0.Ok? ==> out.1 == rows
    ensures out.0.Ok? ==> out.0 == Ok(200, Deleted) && out.1.Keys == rows.Keys - {id}
    ensures forall k :: k in out.1 ==> k in rows && out.1[k] == rows[k]
  {
    match AdminGate(authorization, jwt)
    case Stop(s, m) => (Error(s, m), rows)
    case Next(_) =>
      if id !in rows then (Error(404, NotFound), rows)
      else (Ok(200, Deleted), rows - {id})
  }

  /** DELETE /api/announcement/:id. */
  method DeleteAnnouncement(table: AnnouncementTable, req: Request, jwt: TokenCodec, id: int)
    returns (r: Response<AnnouncementReply>)
    requires table.Valid()
    modifies table, req
    ensures table.Valid()
    ensures (r, table.rows) == DeleteOutcome(old(table.rows), id, req.authorization, jwt)
  {
    var g := RequireAuth(req, jwt);
    if g.Stop? {
      return Error(g.status, g.message);
    }
    g := RequireRole("admin", req.user);
    if g.Stop? {
      return Error(g.status, g.message);
    }
    if id !in table.rows {
      return Error(404, NotFound);
    }
    table.Destroy(id);
    r := Ok(200, Deleted);
  }

  /** GET /api/announcement/:id */
  function GetAnnouncement(rows: map<int, Announcement>, id: int): (r: Response<AnnouncementReply>)
    ensures r.Ok? <==> id in rows
    ensures r.Error? <==> id !in rows
    ensures r.Error? ==> r == Error(404, NotFound)
    ensures r.Ok? ==> r == Ok(200, One(rows[id]))
  {
    if id in rows then Ok(200, One(rows[id])) else Error(404, NotFound)
  }

  /** What an admin creates, or edits, is what reading it back by id returns; what
      an admin deletes is no longer found. */
  lemma WritesReadBack(rows: map<int, Announcement>, id: int, authorization: Option<string>, jwt: TokenCodec,
                       body: Body, lib: Sanitizers, now: int)
    requires KeyedById(rows)
    ensures id !in rows && CreateOutcome(rows, id, authorization, jwt, body, lib, now).0.Ok? ==>
      var out := CreateOutcome(rows, id, authorization, jwt, body, lib, now);
      GetAnnouncement(out.1, id) == Ok(200, out.0.payload) && KeyedById(out.1)
    ensures UpdateOutcome(rows, id, authorization, jwt, body, lib).0.Ok? ==>
      var out := UpdateOutcome(rows, id, authorization, jwt, body, lib);
      GetAnnouncement(out.1, id) == out.0 && KeyedById(out.1)
    ensures DeleteOutcome(rows, id, authorization, jwt).0.Ok? ==>
      GetAnnouncement(DeleteOutcome(rows, id, authorization, jwt).1, id) == Error(404, NotFound)
  {
  }

  /** The sort key of the announcement list: latest publishedAt first, ties by
      latest createdAt. */
  function ByPublication(a: Announcement): Key {
    Key(a.publishedAt, a.createdAt)
  }

  /** GET /api/announcement: every announcement once, newest publication first. */
  ghost function ListAnnouncements(rows: map<int, Announcement>): (r: Response<AnnouncementReply>)
    ensures r.Ok? && r.status == 200 && r.payload.Many?
    ensures multiset(r.payload.announcements) == multiset(rows.Values)
    ensures forall i, j :: 0 <= i < j < |r.payload.announcements| ==>
      var a, b := r.payload.announcements[i], r.payload.announcements[j];
      a.publishedAt > b.publishedAt || (a.publishedAt == b.publishedAt && a.createdAt >= b.createdAt)
  {
    var all := SortDescending(Enumerate(rows.Values), ByPublication);
    assert Descending(all, ByPublication);
    Ok(200, Many(all))
  }
}
