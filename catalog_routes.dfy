/**
 * routes/catalog.js, as mounted under `/catalog` by app.js: the guarded
 * `modifyRouter` (login check, then privilege check, on the four entity
 * prefixes) runs before the open `router`, and the first route whose verb
 * and pattern match the request handles it.
 *
 * A path is given by its segments after `/catalog` (`/book/42/update` is
 * `["book", "42", "update"]`, `/` is `[]`).
 */
module CatalogRoutes {
  import opened Library
  import UserModel

  datatype Verb = Get | Post

  datatype Entity = BookEntity | AuthorEntity | GenreEntity | InstanceEntity

  /** The handler kinds of a controller, one per route. */
  datatype Kind = List | Detail | CreateForm | Create | DeleteForm | Delete | UpdateForm | Update

  datatype Handler = Home | Handle(entity: Entity, kind: Kind)

  /** A handler that shows or performs a create, update or delete. */
  predicate IsMutation(h: Handler)
  {
    h.Handle? && h.kind != List && h.kind != Detail
  }

  /** The path segment naming one entity (`/book/...`) and its list (`/books`). */
  function Single(e: Entity): string
  {
    match e
    case BookEntity => "book"
    case AuthorEntity => "author"
    case GenreEntity => "genre"
    case InstanceEntity => "bookinstance"
  }

  function Plural(e: Entity): string
  {
    Single(e) + "s"
  }

  /** A pattern segment: a literal, or a `:id` parameter that matches any non-empty segment. */
  datatype Segment = Lit(s: string) | Param

  datatype Route = Route(verb: Verb, pattern: seq<Segment>, handler: Handler)

  predicate Matches(pattern: seq<Segment>, path: seq<string>)
  {
    |pattern| == |path|
    && forall i | 0 <= i < |path| ::
         (pattern[i].Lit? ==> path[i] == pattern[i].s) && (pattern[i].Param? ==> path[i] != "")
  }

  /** The six routes an entity registers on `modifyRouter`, in registration order. */
  function MutationRoutes(e: Entity): seq<Route>
  {
    var n := Lit(Single(e));
    [Route(Get, [n, Lit("create")], Handle(e, CreateForm)),
     Route(Post, [n, Lit("create")], Handle(e, Create)),
     Route(Get, [n, Param, Lit("delete")], Handle(e, DeleteForm)),
     Route(Post, [n, Param, Lit("delete")], Handle(e, Delete)),
     Route(Get, [n, Param, Lit("update")], Handle(e, UpdateForm)),
     Route(Post, [n, Param, Lit("update")], Handle(e, Update))]
  }

  const Entities: seq<Entity> := [BookEntity, AuthorEntity, GenreEntity, InstanceEntity]

  /** The routes the given entities register on `modifyRouter`, entity by entity. */
  function MutationRoutesOf(es: seq<Entity>): seq<Route>
  {
    if es == [] then [] else MutationRoutes(es[0]) + MutationRoutesOf(es[1..])
  }

  /** `modifyRouter`'s routes. */
  const ModifyRoutes: seq<Route> := MutationRoutesOf(Entities)

  /** The two routes an entity registers on the open `router`: its detail page, then its list. */
  function PageRoutes(e: Entity): seq<Route>
  {
    [Route(Get, [Lit(Single(e)), Param], Handle(e, Detail)),
     Route(Get, [Lit(Plural(e))], Handle(e, List))]
  }

  /** The pages the given entities register on the open `router`, entity by entity. */
  function PageRoutesOf(es: seq<Entity>): seq<Route>
  {
    if es == [] then [] else PageRoutes(es[0]) + PageRoutesOf(es[1..])
  }

  /** The open `router`'s routes: the home page, then each entity's pages. */
  const OpenRoutes: seq<Route> := [Route(Get, [], Home)] + PageRoutesOf(Entities)

  /** Distinct entities have distinct path segments, and no list segment names a single entity. */
  lemma SegmentsDistinct(e1: Entity, e2: Entity)
    ensures Single(e1) == Single(e2) ==> e1 == e2
    ensures Plural(e1) == Plural(e2) ==> e1 == e2
    ensures Plural(e1) != Single(e2)
  {
    assert e1 != e2 ==> |Single(e1)| != |Single(e2)|;
    assert Plural(e1)[0] == Single(e1)[0];
    assert |Plural(e1)| != |Single(e2)| || Single(e1)[0] != Single(e2)[0];
  }

  /**
   * Every route of `modifyRouter` reaches a create, update or delete
   * handler, has at least two segments, and starts with its entity's
   * segment; the two-segment ones end in `create`.
   */
  lemma ModifyRoutesShape()
    ensures forall rt | rt in ModifyRoutes :: ModifyShape(rt)
  {
    MutationRoutesOfShape(Entities);
  }

  predicate ModifyShape(rt: Route)
  {
    IsMutation(rt.handler) && |rt.pattern| >= 2 && rt.pattern[0] == Lit(Single(rt.handler.entity))
    && (|rt.pattern| == 2 ==> rt.pattern[1] == Lit("create"))
  }

  lemma {:induction false} MutationRoutesOfShape(es: seq<Entity>)
    ensures forall rt | rt in MutationRoutesOf(es) :: ModifyShape(rt)
  {
    if es != [] {
      MutationRoutesOfShape(es[1..]);
      assert forall rt | rt in MutationRoutes(es[0]) :: ModifyShape(rt);
    }
  }

  /** Every route of the open router is a GET of the home page, a detail page or a list page. */
  lemma OpenRoutesShape()
    ensures forall rt | rt in OpenRoutes :: OpenShape(rt)
  {
    PageRoutesOfShape(Entities);
  }

  predicate OpenShape(rt: Route)
  {
    rt.verb == Get && !IsMutation(rt.handler)
    && (rt.handler == Home ==> rt.pattern == [])
    && (rt.handler.Handle? ==>
          (rt.handler.kind == Detail && rt.pattern == [Lit(Single(rt.handler.entity)), Param])
          || (rt.handler.kind == List && rt.pattern == [Lit(Plural(rt.handler.entity))]))
  }

  lemma {:induction false} PageRoutesOfShape(es: seq<Entity>)
    ensures forall rt | rt in PageRoutesOf(es) :: OpenShape(rt)
  {
    if es != [] {
      PageRoutesOfShape(es[1..]);
      assert forall rt | rt in PageRoutes(es[0]) :: OpenShape(rt);
    }
  }

  /** Every entity's pages are among the open routes. */
  lemma PageRoutesOpen(e: Entity)
    ensures forall rt | rt in PageRoutes(e) :: rt in OpenRoutes
  {
    PageRoutesOfContains(Entities, e);
  }

  lemma {:induction false} PageRoutesOfContains(es: seq<Entity>, e: Entity)
    requires e in es
    ensures forall rt | rt in PageRoutes(e) :: rt in PageRoutesOf(es)
  {
    if es[0] != e {
      PageRoutesOfContains(es[1..], e);
    }
  }

  /** The first route of `routes` that matches, or None: how Express picks a handler. */
  function FirstRoute(routes: seq<Route>, verb: Verb, path: seq<string>): (r: Option<Route>)
    ensures r.Some? ==> r.value in routes && r.value.verb == verb && Matches(r.value.pattern, path)
    ensures r.None? ==> forall rt | rt in routes :: !(rt.verb == verb && Matches(rt.pattern, path))
  {
    if |routes| == 0 then None
    else if routes[0].verb == verb && Matches(routes[0].pattern, path) then Some(routes[0])
    else FirstRoute(routes[1..], verb, path)
  }

  /** A route that is the only match in the table is the one picked. */
  lemma FirstRouteIs(routes: seq<Route>, verb: Verb, path: seq<string>, rt: Route)
    requires rt in routes && rt.verb == verb && Matches(rt.pattern, path)
    requires forall r | r in routes && r.verb == verb && Matches(r.pattern, path) :: r == rt
    ensures FirstRoute(routes, verb, path) == Some(rt)
  {
  }

  /** When no route of `a` matches, the first match in `a + b` is the first match in `b`. */
  lemma {:induction false} FirstRouteOfAppend(a: seq<Route>, b: seq<Route>, verb: Verb, path: seq<string>)
    ensures FirstRoute(a + b, verb, path).Some? && FirstRoute(a + b, verb, path).value !in a ==>
      forall rt | rt in a :: !(rt.verb == verb && Matches(rt.pattern, path))
  {
    if |a| > 0 {
      assert (a + b)[1..] == a[1..] + b;
      FirstRouteOfAppend(a[1..], b, verb, path);
    }
  }

  /** `modifyRouter` is mounted first, so its routes are tried before the open ones. */
  function Lookup(verb: Verb, path: seq<string>): (r: Option<Route>)
    ensures r.Some? ==> (r.value in ModifyRoutes || r.value in OpenRoutes)
                        && r.value.verb == verb && Matches(r.value.pattern, path)
    ensures r.Some? && r.value !in ModifyRoutes ==>
      forall rt | rt in ModifyRoutes :: !(rt.verb == verb && Matches(rt.pattern, path))
    ensures r.None? ==> forall rt | rt in ModifyRoutes + OpenRoutes :: !(rt.verb == verb && Matches(rt.pattern, path))
  {
    FirstRouteOfAppend(ModifyRoutes, OpenRoutes, verb, path);
    FirstRoute(ModifyRoutes + OpenRoutes, verb, path)
  }

  /** `modifyRouter.use('/book/', ...)` and its three siblings: the first segment names an entity. */
  predicate Guarded(path: seq<string>)
    ensures Guarded(path) <==>
      |path| > 0 && (path[0] == "book" || path[0] == "author" || path[0] == "genre" || path[0] == "bookinstance")
  {
    assert Entities[0] == BookEntity && Entities[1] == AuthorEntity;
    assert Entities[2] == GenreEntity && Entities[3] == InstanceEntity;
    assert Single(BookEntity) == "book" && Single(AuthorEntity) == "author";
    assert Single(GenreEntity) == "genre" && Single(InstanceEntity) == "bookinstance";
    |path| > 0 && exists e | e in Entities :: path[0] == Single(e)
  }

  /** The argument `require_privilege` actually uses: only its first one, "admin". */
  const Privilege: string := "admin"

  /** require_privilege's test: `priv.indexOf(role) < 0` refuses, so any substring of `priv` passes. */
  predicate PrivilegeAdmits(priv: string, role: string)
    ensures PrivilegeAdmits(priv, role) <==> exists j | 0 <= j <= |priv| :: OccursAt(priv, role, j)
  {
    IndexOf(priv, role) >= 0
  }

  /** How a catalog request ends. */
  datatype Decision =
    | ToLogin                    // require_login: redirect to /users/login
    | Forbidden                  // require_privilege: an error with status 403
    | Dispatch(handler: Handler) // a controller action runs
    | NoRoute                    // nothing matched: the 404 handler

  /**
   * The request pipeline as written. `session` is the signed-in user, if
   * any. On a guarded prefix the login check runs first and the privilege
   * check second; only then, or on any other path, is a route looked up.
   */
  function Decide(session: Option<UserModel.User>, verb: Verb, path: seq<string>): (d: Decision)
    ensures d == ToLogin <==> Guarded(path) && session.None?
    ensures d == Forbidden <==> Guarded(path) && session.Some? && !PrivilegeAdmits(Privilege, session.value.role)
    ensures d.Dispatch? ==> Lookup(verb, path).Some? && d.handler == Lookup(verb, path).value.handler
    ensures d == NoRoute ==> Lookup(verb, path).None?
  {
    if Guarded(path) && session.None? then ToLogin
    else if Guarded(path) && !PrivilegeAdmits(Privilege, session.value.role) then Forbidden
    else match Lookup(verb, path)
      case None => NoRoute
      case Some(rt) => Dispatch(rt.handler)
  }

  /** Of the schema's roles, only `admin` passes the privilege check as written. */
  lemma OnlyAdminPasses(role: string)
    requires role in UserModel.Roles
    ensures PrivilegeAdmits(Privilege, role) <==> role == "admin"
  {
    if role == "librarian" {
      assert !OccursAt(Privilege, role, 0);
    } else if role == "user" {
      forall j | 0 <= j <= |Privilege| ensures !OccursAt(Privilege, role, j) {
        assert j <= 1 ==> Privilege[j + 1] != role[1];
      }
    } else {
      assert OccursAt(Privilege, role, 0);
    }
  }

  /** Every route that reaches a create, update or delete handler starts with an entity prefix. */
  lemma MutationRoutesAreGuarded(verb: Verb, path: seq<string>)
    requires Lookup(verb, path).Some? && IsMutation(Lookup(verb, path).value.handler)
    ensures Guarded(path)
  {
    ModifyRoutesShape();
    OpenRoutesShape();
    var e := MutationStartsWithEntity(ModifyRoutes + OpenRoutes, verb, path);
    EntitiesComplete(e);
  }

  /** In a table of guarded and open routes, a path that picks a mutation handler starts with its entity's segment. */
  lemma MutationStartsWithEntity(table: seq<Route>, verb: Verb, path: seq<string>) returns (e: Entity)
    requires forall rt | rt in table :: ModifyShape(rt) || OpenShape(rt)
    requires FirstRoute(table, verb, path).Some? && IsMutation(FirstRoute(table, verb, path).value.handler)
    ensures |path| > 0 && path[0] == Single(e)
  {
    var rt := FirstRoute(table, verb, path).value;
    e := rt.handler.entity;
    assert ModifyShape(rt);
    assert rt.pattern[0] == Lit(Single(e));
  }

  lemma EntitiesComplete(e: Entity)
    ensures e in Entities
  {
    match e
    case BookEntity => assert Entities[0] == e;
    case AuthorEntity => assert Entities[1] == e;
    case GenreEntity => assert Entities[2] == e;
    case InstanceEntity => assert Entities[3] == e;
  }

  /**
   * No create, update or delete handler runs for an anonymous request or
   * for a signed-in user of any role but `admin`.
   */
  lemma MutationsNeedAdmin(session: Option<UserModel.User>, verb: Verb, path: seq<string>)
    requires session.Some? ==> session.value.role in UserModel.Roles
    requires Decide(session, verb, path).Dispatch? && IsMutation(Decide(session, verb, path).handler)
    ensures session.Some? && session.value.role == "admin"
  {
    MutationRoutesAreGuarded(verb, path);
    OnlyAdminPasses(session.value.role);
  }

  /**
   * On a guarded prefix an anonymous request is sent to the login page and
   * no handler runs; it is never refused with a 403, because the login
   * check comes first.
   */
  lemma AnonymousSentToLogin(verb: Verb, path: seq<string>)
    requires Guarded(path)
    ensures Decide(None, verb, path) == ToLogin
  {
  }

  /** An administrator passes both checks, so the route table alone decides. */
  lemma AdminPassesGuard(u: UserModel.User, verb: Verb, path: seq<string>)
    requires u.role == "admin"
    ensures Decide(Some(u), verb, path) == match Lookup(verb, path)
      case None => NoRoute
      case Some(rt) => Dispatch(rt.handler)
  {
    OnlyAdminPasses(u.role);
  }

  /** The home page and the four list pages are open to everyone. */
  lemma ListPagesOpen(session: Option<UserModel.User>, e: Entity)
    ensures Decide(session, Get, []) == Dispatch(Home)
    ensures Decide(session, Get, [Plural(e)]) == Dispatch(Handle(e, List))
  {
    ModifyRoutesShape();
    OpenRoutesShape();
    PageRoutesOpen(e);
    assert Route(Get, [Lit(Plural(e))], Handle(e, List)) in PageRoutes(e);
    OnlyRouteMatches(ModifyRoutes + OpenRoutes, e);
    forall e' ensures Plural(e) != Single(e') {
      SegmentsDistinct(e, e');
    }
  }

  /** In a table of guarded and open routes, `/` picks the home page and `/<entities>` the list page. */
  lemma OnlyRouteMatches(table: seq<Route>, e: Entity)
    requires forall rt | rt in table :: ModifyShape(rt) || OpenShape(rt)
    requires Route(Get, [], Home) in table
    requires Route(Get, [Lit(Plural(e))], Handle(e, List)) in table
    ensures FirstRoute(table, Get, []) == Some(Route(Get, [], Home))
    ensures FirstRoute(table, Get, [Plural(e)]) == Some(Route(Get, [Lit(Plural(e))], Handle(e, List)))
  {
    var list := Route(Get, [Lit(Plural(e))], Handle(e, List));
    forall r | r in table && r.verb == Get && Matches(r.pattern, [])
      ensures r == Route(Get, [], Home)
    {
    }
    forall r | r in table && r.verb == Get && Matches(r.pattern, [Plural(e)])
      ensures r == list
    {
      assert r.pattern[0] == Lit(Plural(e));
      SegmentsDistinct(r.handler.entity, e);
    }
    FirstRouteIs(table, Get, [], Route(Get, [], Home));
    FirstRouteIs(table, Get, [Plural(e)], list);
  }

  /**
   * As written, the `/book/` (and sibling) guards also cover the detail
   * pages of the open router, which are matched after them: an anonymous
   * visitor to `/book/<id>` is sent to the login page.
   */
  lemma DetailPagesGuardedAsWritten(e: Entity, id: string)
    requires id != ""
    ensures Decide(None, Get, [Single(e), id]) == ToLogin
  {
    assert Single(e) == [Single(e)][0];
  }

  /** As written, a librarian cannot create a book. */
  lemma LibrarianForbiddenAsWritten(u: UserModel.User)
    requires u.role == "librarian"
    ensures Decide(Some(u), Post, ["book", "create"]) == Forbidden
  {
    OnlyAdminPasses(u.role);
  }

  /** The roles `require_privilege("admin", "librarian")` was called with. */
  const IntendedRoles: seq<string> := ["admin", "librarian"]

  /**
   * The evidently intended pipeline: the route is looked up first; only
   * create, update and delete handlers need a signed-in user, whose role
   * must be one of the two privileged roles.
   */
  function IntendedDecide(session: Option<UserModel.User>, verb: Verb, path: seq<string>): Decision
  {
    match Lookup(verb, path)
    case None => NoRoute
    case Some(rt) =>
      if !IsMutation(rt.handler) then Dispatch(rt.handler)
      else if session.None? then ToLogin
      else if session.value.role !in IntendedRoles then Forbidden
      else Dispatch(rt.handler)
  }

  /**
   * Under the intended pipeline a create, update or delete handler runs
   * exactly for a signed-in admin or librarian, and every other handler
   * runs for anyone.
   */
  lemma IntendedGuard(session: Option<UserModel.User>, verb: Verb, path: seq<string>)
    requires Lookup(verb, path).Some?
    ensures var h := Lookup(verb, path).value.handler;
      (IsMutation(h) ==>
         (IntendedDecide(session, verb, path) == Dispatch(h)
          <==> session.Some? && (session.value.role == "admin" || session.value.role == "librarian")))
      && (!IsMutation(h) ==> IntendedDecide(session, verb, path) == Dispatch(h))
  {
  }

  /**
   * Under the intended pipeline an anonymous visitor sees the detail pages
   * (an id of `create` names the create form, which comes first).
   */
  lemma IntendedDetailPagesOpen(e: Entity, id: string)
    requires id != "" && id != "create"
    ensures IntendedDecide(None, Get, [Single(e), id]) == Dispatch(Handle(e, Detail))
  {
    ModifyRoutesShape();
    OpenRoutesShape();
    PageRoutesOpen(e);
    var detail := Route(Get, [Lit(Single(e)), Param], Handle(e, Detail));
    assert detail in PageRoutes(e);
    DetailIsOnlyMatch(ModifyRoutes + OpenRoutes, e, id);
  }

  /** In a table of guarded and open routes, `/<entity>/<id>` (for an id other than `create`) picks the detail page. */
  lemma DetailIsOnlyMatch(table: seq<Route>, e: Entity, id: string)
    requires id != "" && id != "create"
    requires forall rt | rt in table :: ModifyShape(rt) || OpenShape(rt)
    requires Route(Get, [Lit(Single(e)), Param], Handle(e, Detail)) in table
    ensures FirstRoute(table, Get, [Single(e), id]) == Some(Route(Get, [Lit(Single(e)), Param], Handle(e, Detail)))
  {
    var detail := Route(Get, [Lit(Single(e)), Param], Handle(e, Detail));
    forall r | r in table && r.verb == Get && Matches(r.pattern, [Single(e), id])
      ensures r == detail
    {
      OnlyDetailMatches(e, id, r);
    }
    FirstRouteIs(table, Get, [Single(e), id], detail);
  }

  /** The only route matching `/<entity>/<id>`, for an id other than `create`, is that entity's detail page. */
  lemma OnlyDetailMatches(e: Entity, id: string, r: Route)
    requires id != "create"
    requires ModifyShape(r) || OpenShape(r)
    requires Matches(r.pattern, [Single(e), id])
    ensures r == Route(Get, [Lit(Single(e)), Param], Handle(e, Detail))
  {
    assert r.pattern[0] == Lit(Single(e));
    SegmentsDistinct(r.handler.entity, e);
  }
}
