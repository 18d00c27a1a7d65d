/** The item router: which handler a request reaches, which handlers sit
    behind the `protect` gate, and what a gated write can and cannot do to
    the collection. */
module ItemRoutes {
  import opened Wrappers
  import opened Strings
  import opened Documents
  import opened ItemSchema
  import opened UserSchema
  import opened ItemQueries
  import opened ItemStore
  import opened AuthGate

  datatype Verb = Get | Post | Put | Delete

  /** The handler a request reaches; `:id` stays the raw path segment. */
  datatype Handler =
    | AllItems | LostItems | FoundItems | Search | Filter | ItemById(id: string)
    | CreateItem | MyItems | UpdateItem(id: string) | DeleteItem(id: string)
    | NoRoute

  /** The router is neither strict nor case-sensitive (the defaults of
      `express.Router()`): one trailing slash is optional, so a single
      trailing empty segment is dropped before matching. */
  function Trail(path: seq<string>): (q: seq<string>)
    ensures q == path || (path != [] && path[|path| - 1] == "" && q == path[..|path| - 1])
  {
    if path != [] && path[|path| - 1] == "" then path[..|path| - 1] else path
  }

  /** A path segment matches a fixed, lower-case route segment up to the
      case of its letters. */
  predicate SegmentIs(s: string, name: string) {
    Lower(s) == name
  }

  /** The path of the owner's listing, `/user/my-items`. */
  predicate MyItemsPath(path: seq<string>) {
    var q := Trail(path);
    |q| == 2 && SegmentIs(q[0], "user") && SegmentIs(q[1], "my-items")
  }

  /** A path that `/:id` matches: one non-empty segment, the identifier. */
  predicate IdPath(path: seq<string>) {
    var q := Trail(path);
    |q| == 1 && q[0] != ""
  }

  /** The fixed one-segment routes registered before `/:id`. */
  predicate FixedSegment(s: string) {
    Lower(s) in ["lost", "found", "search", "filter"]
  }

  /** Express tries the routes in registration order; `path` is the list of
      segments below `/api/items`. */
  function Resolve(verb: Verb, path: seq<string>): (h: Handler)
    ensures |path| > 3 ==> h == NoRoute
    ensures verb == Post ==> h == (if Trail(path) == [] then CreateItem else NoRoute)
    ensures verb == Put ==> h == (if IdPath(path) then UpdateItem(Trail(path)[0]) else NoRoute)
    ensures verb == Delete ==> h == (if IdPath(path) then DeleteItem(Trail(path)[0]) else NoRoute)
    ensures h.ItemById? ==> verb == Get && IdPath(path) && Trail(path) == [h.id] && !FixedSegment(h.id)
    ensures h == MyItems <==> verb == Get && MyItemsPath(path)
    ensures h == AllItems <==> verb == Get && Trail(path) == []
  {
    var q := Trail(path);
    match verb
    case Get =>
      if q == [] then AllItems
      else if |q| == 1 && SegmentIs(q[0], "lost") then LostItems
      else if |q| == 1 && SegmentIs(q[0], "found") then FoundItems
      else if |q| == 1 && SegmentIs(q[0], "search") then Search
      else if |q| == 1 && SegmentIs(q[0], "filter") then Filter
      else if IdPath(path) then ItemById(q[0])
      else if MyItemsPath(path) then MyItems
      else NoRoute
    case Post => if q == [] then CreateItem else NoRoute
    case Put => if IdPath(path) then UpdateItem(q[0]) else NoRoute
    case Delete => if IdPath(path) then DeleteItem(q[0]) else NoRoute
  }

  /** The handlers registered behind `protect`. */
  predicate Protected(h: Handler) {
    h.CreateItem? || h.MyItems? || h.UpdateItem? || h.DeleteItem?
  }

  /** Every read but the owner's own listing is public, and every write is
      protected. */
  lemma ProtectedExactly(verb: Verb, path: seq<string>)
    ensures Resolve(verb, path) != NoRoute ==>
      (Protected(Resolve(verb, path)) <==> verb != Get || MyItemsPath(path))
  {
  }

  /** The fixed segments registered before `/:id` win over it, whatever the
      case of their letters, and any other non-empty single segment is an
      identifier; the owner's listing is two segments deep, so `/my-items`
      is looked up as an identifier. */
  lemma OneSegmentRoutes(s: string)
    requires s != ""
    ensures Resolve(Get, [s]) == (
      if Lower(s) == "lost" then LostItems
      else if Lower(s) == "found" then FoundItems
      else if Lower(s) == "search" then Search
      else if Lower(s) == "filter" then Filter
      else ItemById(s))
    ensures Resolve(Get, [s, ""]) == Resolve(Get, [s])
  {
    assert [s, ""][..1] == [s];
  }

  /** A non-empty segment that is not a fixed one is an identifier for GET,
      PUT and DELETE alike. */
  lemma IdSegmentRoutes(id: string)
    requires id != "" && !FixedSegment(id)
    ensures Resolve(Get, [id]) == ItemById(id)
    ensures Resolve(Put, [id]) == UpdateItem(id)
    ensures Resolve(Delete, [id]) == DeleteItem(id)
  {
    OneSegmentRoutes(id);
  }

  /** `/my-items` is an identifier, not the owner's listing. */
  lemma MyItemsSegmentIsAnId()
    ensures Resolve(Get, ["my-items"]) == ItemById("my-items")
  {
    OneSegmentRoutes("my-items");
    assert |Lower("my-items")| == 8;
  }

  /** `/LOST` and `/lost/` reach `getLostItems`. */
  lemma LostVariants()
    ensures Resolve(Get, ["LOST"]) == LostItems
    ensures Resolve(Get, ["lost", ""]) == LostItems
  {
    LowerPointwise("LOST", "lost");
    LowerPointwise("lost", "lost");
    OneSegmentRoutes("LOST");
    OneSegmentRoutes("lost");
  }

  /** Two segments that spell `user/my-items` up to case reach the owner's
      listing. */
  lemma OwnerListSegments(a: string, b: string)
    requires SegmentIs(a, "user") && SegmentIs(b, "my-items")
    ensures Resolve(Get, [a, b]) == MyItems
  {
    assert |b| == 8;
    assert Trail([a, b]) == [a, b];
  }

  /** `/user/my-items` reaches the owner's listing. */
  lemma OwnerListPath()
    ensures Resolve(Get, ["user", "my-items"]) == MyItems
  {
    LowerPointwise("user", "user");
    LowerPointwise("my-items", "my-items");
    OwnerListSegments("user", "my-items");
  }

  /** `/User/My-Items` reaches the owner's listing. */
  lemma MixedCaseOwnerList()
    ensures Resolve(Get, ["User", "My-Items"]) == MyItems
  {
    LowerPointwise("User", "user");
    LowerPointwise("My-Items", "my-items");
    OwnerListSegments("User", "My-Items");
  }

  /** `GET /user/my-items`: the gate, then `getMyItems` with whatever the
      gate put in `req.user`. */
  function MyItemsThroughGate(c: Collection, header: Option<string>, verify: Verifier, users: map<ObjectId, UserRecord>): (r: Reply)
    requires WellKeyed(c)
    ensures Decide(header, verify, users) == NoToken ==> r == Reply(401, Message(NoTokenMessage))
    ensures Decide(header, verify, users) == TokenFailed ==> r == Reply(401, Message(TokenFailedMessage))
    ensures Decide(header, verify, users).Authenticated? ==> r == GetMyItems(c, Decide(header, verify, users).user)
  {
    match Decide(header, verify, users)
    case NoToken => Reply(401, Message(NoTokenMessage))
    case TokenFailed => Reply(401, Message(TokenFailedMessage))
    case Authenticated(u) => GetMyItems(c, u)
  }

  /** Whoever presents a token that verifies to `id`, with a user stored
      under `id`, sees exactly the documents that user owns. */
  lemma MyItemsAreTheTokenOwners(c: Collection, t: string, verify: Verifier, users: map<ObjectId, UserRecord>, id: ObjectId)
    requires WellKeyed(c)
    requires t != "" && ' ' !in t && verify(t) == Some(id) && id in users && users[id].id == id
    ensures MyItemsThroughGate(c, Some("Bearer " + t), verify, users).status == 200
    ensures forall x :: x in MyItemsThroughGate(c, Some("Bearer " + t), verify, users).body.items <==>
      StoredIn(c, x) && x.userId == id
  {
    BearerTokenAuthenticates(t, verify, users);
  }

  /** The three protected writes with their arguments. */
  datatype WriteRequest =
    | CreateRequest(body: CreateBody)
    | UpdateRequest(id: ObjectId, update: ItemUpdate)
    | DeleteRequest(id: ObjectId)

  /** The item API over one collection. */
  class ItemApi {
    const store: ItemStore

    constructor (store: ItemStore)
      ensures this.store == store
    {
      this.store := store;
    }

    /** A protected write: the gate runs first and either answers 401 or
        hands `req.user` to the handler. */
    method Write(req: WriteRequest, header: Option<string>, verify: Verifier, users: map<ObjectId, UserRecord>) returns (r: Reply)
      requires store.Valid()
      modifies store
      ensures store.Valid()
      ensures Decide(header, verify, users) == NoToken ==>
        && r == Reply(401, Message(NoTokenMessage))
        && store.items == old(store.items) && store.clock == old(store.clock)
      ensures Decide(header, verify, users) == TokenFailed ==>
        && r == Reply(401, Message(TokenFailedMessage))
        && store.items == old(store.items) && store.clock == old(store.clock)
      ensures Decide(header, verify, users) == Authenticated(None) ==>
        store.items == old(store.items) && store.clock == old(store.clock)
      ensures store.items != old(store.items) ==>
        && Decide(header, verify, users).Authenticated?
        && Decide(header, verify, users).user.Some?
      ensures !req.CreateRequest? && store.items != old(store.items) ==>
        && req.id in old(store.items)
        && old(store.items)[req.id].userId == Decide(header, verify, users).user.value.id
      ensures var touched := if req.CreateRequest? then old(store.clock) else req.id;
        forall k :: k != touched ==>
          && (k in store.items <==> k in old(store.items))
          && (k in old(store.items) ==> store.items[k] == old(store.items)[k])
      ensures !req.CreateRequest? ==> store.clock == old(store.clock)
      ensures req.UpdateRequest? && store.items != old(store.items) ==>
        && req.id in old(store.items)
        && ApplyUpdate(old(store.items)[req.id], req.update).Ok?
        && r == Reply(200, One(ApplyUpdate(old(store.items)[req.id], req.update).value))
        && store.Snapshot() == Replace(old(store.Snapshot()), req.id, ApplyUpdate(old(store.items)[req.id], req.update).value)
      ensures req.DeleteRequest? && store.items != old(store.items) ==>
        && r == Reply(200, Message(DeletedMessage))
        && store.Snapshot() == Remove(old(store.Snapshot()), req.id)
      ensures req.CreateRequest? && store.items != old(store.items) ==>
        && r.status == 201 && r.body.One?
        && store.Snapshot() == Insert(old(store.Snapshot()), r.body.item)
      ensures store.items == old(store.items) ==> store.clock == old(store.clock)
      ensures Decide(header, verify, users).Authenticated? ==>
        match req
        case CreateRequest(body) =>
          CreateOutcome(old(store.Snapshot()), store.Snapshot(), body, Decide(header, verify, users).user, r)
        case UpdateRequest(id, update) =>
          UpdateOutcome(old(store.Snapshot()), store.Snapshot(), id, update, Decide(header, verify, users).user, r)
        case DeleteRequest(id) =>
          DeleteOutcome(old(store.Snapshot()), store.Snapshot(), id, Decide(header, verify, users).user, r)
      ensures req.CreateRequest? && r.status == 201 ==>
        && r.body.One?
        && Decide(header, verify, users).user.Some?
        && r.body.item.userId == Decide(header, verify, users).user.value.id
    {
      var exchange := new Exchange();
      exchange.Protect(header, verify, users);
      if exchange.nextCalls == 0 {
        return exchange.responses[0];
      }
      match req
      case CreateRequest(body) =>
        r := store.CreateItem(body, exchange.user);
      case UpdateRequest(id, update) =>
        r := store.UpdateItem(id, update, exchange.user);
      case DeleteRequest(id) =>
        r := store.DeleteItem(id, exchange.user);
    }
  }
}
