/** The blog routes: anyone may list blogs and read one by its slug; only an
    admin may create, edit or delete one. The slug, derived from the title, is
    unique across the table. */
module Blogs {
  import opened Js
  import opened Libs
  import opened Http
  import opened AuthMiddleware
  import opened Validation
  import opened Listing

  /** A row of the blog table; `createdAt` is the timestamp the row was made. */
  datatype Blog = Blog(
    id: int, title: string, slug: string, content: string,
    coverImageUrl: Option<string>, authorId: int, createdAt: int)

  datatype BlogReply = One(blog: Blog) | Many(blogs: seq<Blog>) | Deleted

  const NotFound := "Not found"
  const TitleRequired := "Title is required"
  const ContentRequired := "Content is required"
  const TitleTaken := "A blog with this title already exists"
  const TitleTakenByOther := "Another blog already has this title"

  ghost predicate KeyedById(rows: map<int, Blog>) {
    forall k :: k in rows ==> rows[k].id == k
  }

  /** The slug column is unique. */
  ghost predicate UniqueSlugs(rows: map<int, Blog>) {
    forall j, k :: j in rows && k in rows && rows[j].slug == rows[k].slug ==> j == k
  }

  /** `findOne({ where: { slug } })` finds a row. */
  predicate SlugTaken(rows: map<int, Blog>, slug: string) {
    exists k :: k in rows && rows[k].slug == slug
  }

  /** `findOne({ where: { slug, id: { [Op.ne]: id } } })` finds a row. */
  predicate SlugTakenByOther(rows: map<int, Blog>, slug: string, id: int) {
    exists k :: k in rows && k != id && rows[k].slug == slug
  }

  /** The blog table with its serial id counter. */
  class BlogTable {
    var rows: map<int, Blog>
    var nextId: int

    ghost predicate Valid()
      reads this
    {
      && KeyedById(rows)
      && (forall k :: k in rows ==> k < nextId)
      && UniqueSlugs(rows)
    }

    constructor ()
      ensures Valid() && rows == map[]
    {
      rows := map[];
      nextId := 1;
    }

    /** `Blog.create(draft)` with a slug no row has. */
    method Create(draft: Blog) returns (created: Blog)
      requires Valid() && !SlugTaken(rows, draft.slug)
      modifies this
      ensures Valid()
      ensures created == draft.(id := old(nextId)) && created.id !in old(rows)
      ensures rows == old(rows)[created.id := created] && nextId == old(nextId) + 1
    {
      created := draft.(id := nextId);
      rows := rows[nextId := created];
      nextId := nextId + 1;
    }

    /** `blog.update(data)` with a slug no other row has. */
    method Update(b: Blog)
      requires Valid() && b.id in rows && !SlugTakenByOther(rows, b.slug, b.id)
      modifies this
      ensures Valid()
      ensures rows == old(rows)[b.id := b] && nextId == old(nextId)
    {
      rows := rows[b.id := b];
    }

    /** `blog.destroy()` */
    method Destroy(id: int)
      requires Valid()
      modifies this
      ensures Valid()
      ensures rows == old(rows) - {id} && nextId == old(nextId)
    {
      rows := rows - {id};
    }
  }

  /** `slugify(title, { lower: true, strict: true })` */
  function Slug(lib: Sanitizers, title: string): string {
    lib.slugify(title)
  }

  /** The POST chains: title and content required, the cover optional but a string. */
  function CreateErrors(body: Body): (errs: seq<FieldError>)
    ensures errs == [] <==>
      Truthy(body, "title") && Truthy(body, "content") && ("coverImageUrl" !in body || body["coverImageUrl"].Str?)
  {
    Required(body, "title", TitleRequired) + Required(body, "content", ContentRequired)
    + OptionalString(body, "coverImageUrl")
  }

  /** What POST /api/blogs answers and what the table holds afterwards, given the
      id the database would give a new row and the current time. */
  function CreateOutcome(rows: map<int, Blog>, id: int, authorization: Option<string>, jwt: TokenCodec,
                         body: Body, lib: Sanitizers, now: int): (out: (Response<BlogReply>, map<int, Blog>))
    requires id !in rows
    ensures AdminGate(authorization, jwt).Stop? ==>
      out.0 == Error(AdminGate(authorization, jwt).status, AdminGate(authorization, jwt).message)
    ensures out.0.Invalid? <==> AdminGate(authorization, jwt).Next? && CreateErrors(body) != []
    ensures out.0 == Error(409, TitleTaken) <==>
      && AdminGate(authorization, jwt).Next? && CreateErrors(body) == []
      && SlugTaken(rows, Slug(lib, body["title"].s))
    ensures out.0.Ok? <==>
      && AdminGate(authorization, jwt).Next? && CreateErrors(body) == []
      && !SlugTaken(rows, Slug(lib, body["title"].s))
    ensures !out.0.Ok? ==> out.1 == rows
    ensures out.0.Ok? ==>
      && AdminGate(authorization, jwt).Next? && AdminGate(authorization, jwt).user.role == "admin"
      && out.0.status == 201 && out.0.payload.One?
      && var b := out.0.payload.blog;
         && out.1 == rows[id := b]
         && b.id == id && b.slug == Slug(lib, body["title"].s)
         && b.title == lib.xss(body["title"].s) && b.content == lib.xss(body["content"].s)
         && b.coverImageUrl == SanitizedOrNull(body, "coverImageUrl", lib.xss)
         && b.authorId == AdminGate(authorization, jwt).user.id && b.createdAt == now
    ensures UniqueSlugs(rows) ==> UniqueSlugs(out.1)
  {
    match AdminGate(authorization, jwt)
    case Stop(s, m) => (Error(s, m), rows)
    case Next(user) =>
      var errors := CreateErrors(body);
      if errors != [] then (Invalid(errors), rows)
      else
        var title := body["title"].s;
        var slug := Slug(lib, title);
        if SlugTaken(rows, slug) then (Error(409, TitleTaken), rows)
        else
          var b := Blog(id, lib.xss(title), slug, lib.xss(body["content"].s),
                        SanitizedOrNull(body, "coverImageUrl", lib.xss), user.id, now);
          (Ok(201, One(b)), rows[id := b])
  }

  /** POST /api/blogs: requireAuth, requireRole("admin"), validate, then the handler. */
  method CreateBlog(table: BlogTable, req: Request, jwt: TokenCodec, body: Body, lib: Sanitizers, now: int)
    returns (r: Response<BlogReply>)
    requires table.Valid()
    modifies table, req
    ensures table.Valid()
    ensures old(table.nextId) !in old(table.rows)
    ensures (r, table.rows) == CreateOutcome(old(table.rows), old(table.nextId), req.authorization, jwt, body, lib, now)
  {
    var g := RequireAuth(req, jwt);
    if g.Stop? {
      return Error(g.status, g.message);
    }
    g := RequireRole("admin", req.user);
    if g.Stop? {
      return Error(g.status, g.message);
    }
    var errors := CreateErrors(body);
    if errors != [] {
      return Invalid(errors);
    }
    var title := body["title"].s;
    var content := body["content"].s;
    var slug := Slug(lib, title);
    if SlugTaken(table.rows, slug) {
      return Error(409, TitleTaken);
    }
    var cover := if Truthy(body, "coverImageUrl") then Some(lib.xss(body["coverImageUrl"].s)) else None;
    var blog := table.Create(Blog(0, lib.xss(title), slug, lib.xss(content), cover, g.user.id, now));
    r := Ok(201, One(blog));
  }

  /** The PUT chains: each of the three fields, when present, must be a string. */
  function UpdateErrors(body: Body): (errs: seq<FieldError>)
    ensures errs == [] <==> forall key :: key in ["title", "content", "coverImageUrl"] && key in body ==> body[key].Str?
  {
    OptionalString(body, "title") + OptionalString(body, "content") + OptionalString(body, "coverImageUrl")
  }

  /** The row after an edit: a truthy title replaces the title and the slug, a
      truthy content or cover replaces that field; everything else stays. */
  function Edited(b: Blog, body: Body, lib: Sanitizers): Blog {
    b.(title := if Truthy(body, "title") then lib.xss(body["title"].s) else b.title,
       slug := if Truthy(body, "title") then Slug(lib, body["title"].s) else b.slug,
       content := if Truthy(body, "content") then lib.xss(body["content"].s) else b.content,
       coverImageUrl := if Truthy(body, "coverImageUrl") then Some(lib.xss(body["coverImageUrl"].s)) else b.coverImageUrl)
  }

  /** What PUT /api/blogs/:id answers and what the table holds afterwards. */
  function UpdateOutcome(rows: map<int, Blog>, id: int, authorization: Option<string>, jwt: TokenCodec,
                         body: Body, lib: Sanitizers): (out: (Response<BlogReply>, map<int, Blog>))
    ensures AdminGate(authorization, jwt).Stop? ==>
      out.0 == Error(AdminGate(authorization, jwt).status, AdminGate(authorization, jwt).message)
    ensures out.0.Invalid? <==> AdminGate(authorization, jwt).Next? && UpdateErrors(body) != []
    ensures out.0 == Error(404, NotFound) <==>
      AdminGate(authorization, jwt).Next? && UpdateErrors(body) == [] && id !in rows
    ensures out.0 == Error(409, TitleTakenByOther) <==>
      && AdminGate(authorization, jwt).Next? && UpdateErrors(body) == [] && id in rows
      && Truthy(body, "title") && SlugTakenByOther(rows, Slug(lib, body["title"].s), id)
    ensures out.0.Ok? <==>
      && AdminGate(authorization, jwt).Next? && UpdateErrors(body) == [] && id in rows
      && !(Truthy(body, "title") && SlugTakenByOther(rows, Slug(lib, body["title"].s), id))
    ensures !out.0.Ok? ==> out.1 == rows
    ensures out.0.Ok? ==>
      && AdminGate(authorization, jwt).Next? && AdminGate(authorization, jwt).user.role == "admin"
      && id in rows && out.0 == Ok(200, One(Edited(rows[id], body, lib)))
      && out.1 == rows[id := Edited(rows[id], body, lib)]
    ensures UniqueSlugs(rows) ==> UniqueSlugs(out.1)
  {
    match AdminGate(authorization, jwt)
    case Stop(s, m) => (Error(s, m), rows)
    case Next(_) =>
      var errors := UpdateErrors(body);
      if errors != [] then (Invalid(errors), rows)
      else if id !in rows then (Error(404, NotFound), rows)
      else if Truthy(body, "title") && SlugTakenByOther(rows, Slug(lib, body["title"].s), id) then
        (Error(409, TitleTakenByOther), rows)
      else
        var b := Edited(rows[id], body, lib);
        (Ok(200, One(b)), rows[id := b])
  }

  /** An edit never changes a blog's id, author or creation time, and a body
      without truthy fields changes nothing. */
  lemma EditKeepsIdentity(b: Blog, body: Body, lib: Sanitizers)
    ensures var e := Edited(b, body, lib);
      e.id == b.id && e.authorId == b.authorId && e.createdAt == b.createdAt
    ensures !Truthy(body, "title") && !Truthy(body, "content") && !Truthy(body, "coverImageUrl") ==>
      Edited(b, body, lib) == b
  {
  }

  /** PUT /api/blogs/:id. */
  method UpdateBlog(table: BlogTable, req: Request, jwt: TokenCodec, id: int, body: Body, lib: Sanitizers)
    returns (r: Response<BlogReply>)
    requires table.Valid()
    modifies table, req
    ensures table.Valid()
    ensures (r, table.rows) == UpdateOutcome(old(table.rows), id, req.authorization, jwt, body, lib)
  {
    var g := RequireAuth(req, jwt);
    if g.Stop? {
      return Error(g.status, g.message);
    }
    g := RequireRole("admin", req.user);
    if g.Stop? {
      return Error(g.status, g.message);
    }
    var errors := UpdateErrors(body);
    if errors != [] {
      return Invalid(errors);
    }
    if id !in table.rows {
      return Error(404, NotFound);
    }
    var blog := table.rows[id];
    if Truthy(body, "title") {
      var slug := Slug(lib, body["title"].s);
      if SlugTakenByOther(table.rows, slug, blog.id) {
        return Error(409, TitleTakenByOther);
      }
    }
    var updated := Edited(blog, body, lib);
    table.Update(updated);
    r := Ok(200, One(updated));
  }

  /** What DELETE /api/blogs/:id answers and what the table holds afterwards. */
  function DeleteOutcome(rows: map<int, Blog>, id: int, authorization: Option<string>, jwt: TokenCodec)
    : (out: (Response<BlogReply>, map<int, Blog>))
    ensures AdminGate(authorization, jwt).Stop? ==>
      out.0 == Error(AdminGate(authorization, jwt).status, AdminGate(authorization, jwt).message)
    ensures out.0 == Error(404, NotFound) <==> AdminGate(authorization, jwt).Next? && id !in rows
    ensures !out.0.Ok? ==> out.1 == rows
    ensures out.0.Ok? <==> AdminGate(authorization, jwt).Next? && id in rows
    ensures out.0.Ok? ==> out.0 == Ok(200, Deleted) && out.1.Keys == rows.Keys - {id}
    ensures forall k :: k in out.1 ==> k in rows && out.1[k] == rows[k]
  {
    match AdminGate(authorization, jwt)
    case Stop(s, m) => (Error(s, m), rows)
    case Next(_) =>
      if id !in rows then (Error(404, NotFound), rows)
      else (Ok(200, Deleted), rows - {id})
  }

  /** DELETE /api/blogs/:id. */
  method DeleteBlog(table: BlogTable, req: Request, jwt: TokenCodec, id: int) returns (r: Response<BlogReply>)
    requires table.Valid()
    modifies table, req
    ensures table.Valid()
    ensures (r, table.rows) == DeleteOutcome(old(table.rows), id, req.authorization, jwt)
  {
    var g := RequireAuth(req, jwt);
    if g.Stop? {
      return Error(g.status, g.message);
    }
    g := RequireRole("admin", req.user);
    if g.Stop? {
      return Error(g.status, g.message);
    }
    if id !in table.rows {
      return Error(404, NotFound);
    }
    table.Destroy(id);
    r := Ok(200, Deleted);
  }

  /** GET /api/blogs/:slug */
  ghost function GetBySlug(rows: map<int, Blog>, slug: string): (r: Response<BlogReply>)
    ensures r.Ok? <==> SlugTaken(rows, slug)
    ensures r.Error? <==> !SlugTaken(rows, slug)
    ensures r.Error? ==> r == Error(404, NotFound)
    ensures r.Ok? ==> r.status == 200 && r.payload.One? && r.payload.blog in rows.Values && r.payload.blog.slug == slug
  {
    if SlugTaken(rows, slug) then
      var k :| k in rows && rows[k].slug == slug;
      Ok(200, One(rows[k]))
    else Error(404, NotFound)
  }

  /** A blog an admin just created is what its slug now leads to. */
  lemma CreateThenGetBySlug(rows: map<int, Blog>, id: int, authorization: Option<string>, jwt: TokenCodec,
                            body: Body, lib: Sanitizers, now: int)
    requires id !in rows && UniqueSlugs(rows)
    requires CreateOutcome(rows, id, authorization, jwt, body, lib, now).0.Ok?
    ensures var out := CreateOutcome(rows, id, authorization, jwt, body, lib, now);
      GetBySlug(out.1, out.0.payload.blog.slug) == Ok(200, out.0.payload)
  {
    var out := CreateOutcome(rows, id, authorization, jwt, body, lib, now);
    var b := out.0.payload.blog;
    assert out.1[id].slug == b.slug;
    var k :| k in out.1 && out.1[k].slug == b.slug;
    assert k == id;
  }

  /** A successful edit leaves the blog findable under its (possibly new) slug. */
  lemma UpdateThenGetBySlug(rows: map<int, Blog>, id: int, authorization: Option<string>, jwt: TokenCodec,
                            body: Body, lib: Sanitizers)
    requires UniqueSlugs(rows)
    requires UpdateOutcome(rows, id, authorization, jwt, body, lib).0.Ok?
    ensures var out := UpdateOutcome(rows, id, authorization, jwt, body, lib);
      GetBySlug(out.1, out.0.payload.blog.slug) == Ok(200, out.0.payload)
  {
    var out := UpdateOutcome(rows, id, authorization, jwt, body, lib);
    var b := out.0.payload.blog;
    assert out.1[id] == b;
    var k :| k in out.1 && out.1[k].slug == b.slug;
    assert k == id;
  }

  /** After a delete the removed blog's slug leads nowhere, and every other
      blog is still found under its own slug. */
  lemma DeleteThenGetBySlug(rows: map<int, Blog>, id: int, authorization: Option<string>, jwt: TokenCodec, k: int)
    requires UniqueSlugs(rows)
    requires DeleteOutcome(rows, id, authorization, jwt).0.Ok?
    requires k in rows
    ensures var rows' := DeleteOutcome(rows, id, authorization, jwt).1;
      GetBySlug(rows', rows[k].slug) == if k == id then Error(404, NotFound) else Ok(200, One(rows[k]))
  {
    var rows' := DeleteOutcome(rows, id, authorization, jwt).1;
    assert rows' == rows - {id};
    if k != id {
      assert rows'[k] == rows[k];
      var j :| j in rows' && rows'[j].slug == rows[k].slug;
      assert j == k;
    }
  }

  /** The sort key of the blog list: newest `createdAt` first. */
  function ByCreatedAt(b: Blog): Key {
    Key(b.createdAt, 0)
  }

  /** GET /api/blogs: every blog once, newest first. */
  ghost function ListBlogs(rows: map<int, Blog>): (r: Response<BlogReply>)
    ensures r.Ok? && r.status == 200 && r.payload.Many?
    ensures multiset(r.payload.blogs) == multiset(rows.Values)
    ensures forall i, j :: 0 <= i < j < |r.payload.blogs| ==>
      r.payload.blogs[i].createdAt >= r.payload.blogs[j].createdAt
  {
    var all := SortDescending(Enumerate(rows.Values), ByCreatedAt);
    assert Descending(all, ByCreatedAt);
    Ok(200, Many(all))
  }
}
