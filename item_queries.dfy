/** The read-only endpoints of the item controller: every list is a filter
    over the collection followed by a sort on `createdAt`, newest first. */
module ItemQueries {
  import opened Wrappers
  import opened Strings
  import opened Documents
  import opened ItemSchema
  import opened UserSchema

  /** The item collection: documents by identifier, and the clock that hands
      out the next identifier and creation instant. */
  datatype Collection = Collection(items: map<ObjectId, Item>, clock: nat)

  /** Every document sits under its own identifier, which the clock has
      already handed out. */
  predicate WellKeyed(c: Collection) {
    forall k :: k in c.items ==> c.items[k].id == k && k < c.clock
  }

  /** `x` is the document stored under its identifier. */
  predicate StoredIn(c: Collection, x: Item) {
    x.id in c.items && c.items[x.id] == x
  }

  /** The response of an endpoint: a status code and a JSON body. */
  datatype Body = One(item: Item) | Many(items: seq<Item>) | Message(text: string)
  datatype Reply = Reply(status: nat, body: Body)

  /** What a query document selects. `Fields` is the optional-criteria record
      that `filterItems` builds: a `None` criterion is a wildcard. */
  datatype Criterion =
    | Everything
    | StatusIs(value: string)
    | OwnedBy(owner: ObjectId)
    | TextMatch(q: string)
    | Fields(category: Option<string>, status: Option<string>)

  predicate Matches(crit: Criterion, x: Item) {
    match crit
    case Everything => true
    case StatusIs(s) => x.status == s
    case OwnedBy(u) => x.userId == u
    case TextMatch(q) => ContainsIgnoreCase(x.title, q) || ContainsIgnoreCase(x.description, q)
    case Fields(cat, st) => (cat.None? || x.category == cat.value) && (st.None? || x.status == st.value)
  }

  /** The documents with an identifier below `n`, in identifier order. */
  function Scan(c: Collection, n: nat): seq<Item>
    requires WellKeyed(c)
  {
    if n == 0 then []
    else if n - 1 in c.items then Scan(c, n - 1) + [c.items[n - 1]]
    else Scan(c, n - 1)
  }

  /** Each stored document with an identifier below `n` occurs in the scan
      exactly once, and nothing else does. */
  lemma {:induction false} ScanCount(c: Collection, n: nat, x: Item)
    requires WellKeyed(c)
    ensures multiset(Scan(c, n))[x] == if x.id < n && StoredIn(c, x) then 1 else 0
  {
    if n > 0 {
      ScanCount(c, n - 1, x);
    }
  }

  /** The documents that satisfy `crit`, in their original order. */
  function Select(s: seq<Item>, crit: Criterion): (r: seq<Item>)
    ensures |r| <= |s|
  {
    if s == [] then []
    else if Matches(crit, s[0]) then [s[0]] + Select(s[1..], crit)
    else Select(s[1..], crit)
  }

  /** A document occurs in the selection as often as in the input if it
      satisfies the criterion, and not at all otherwise. */
  lemma {:induction false} SelectCount(s: seq<Item>, crit: Criterion, x: Item)
    ensures multiset(Select(s, crit))[x] == if Matches(crit, x) then multiset(s)[x] else 0
  {
    if s != [] {
      SelectCount(s[1..], crit, x);
      assert s == [s[0]] + s[1..];
    }
  }

  /** `.sort('-createdAt')`: later creation instants come first. */
  predicate NewestFirst(s: seq<Item>) {
    forall i, j :: 0 <= i < j < |s| ==> s[i].createdAt >= s[j].createdAt
  }

  /** Puts `x` in front of the first document that is not newer than it. */
  function InsertNewest(x: Item, s: seq<Item>): (r: seq<Item>)
    ensures multiset(r) == multiset(s) + multiset{x}
  {
    if s == [] then [x]
    else if x.createdAt >= s[0].createdAt then [x] + s
    else
      assert s == [s[0]] + s[1..];
      [s[0]] + InsertNewest(x, s[1..])
  }

  /** No document of `s` was created after `t`. */
  predicate NotNewerThan(s: seq<Item>, t: nat) {
    forall i :: 0 <= i < |s| ==> s[i].createdAt <= t
  }

  /** Inserting a document that is not newer than `t` keeps the bound. */
  lemma {:induction false} InsertNewestBound(x: Item, s: seq<Item>, t: nat)
    requires NotNewerThan(s, t) && x.createdAt <= t
    ensures NotNewerThan(InsertNewest(x, s), t)
  {
    if s != [] && x.createdAt < s[0].createdAt {
      InsertNewestBound(x, s[1..], t);
      var r := InsertNewest(x, s[1..]);
      assert forall i :: 1 <= i < |r| + 1 ==> ([s[0]] + r)[i] == r[i - 1];
    }
  }

  /** A newest-first list with a head at least as new as all of it. */
  lemma ConsNewest(h: Item, s: seq<Item>)
    requires NewestFirst(s) && NotNewerThan(s, h.createdAt)
    ensures NewestFirst([h] + s)
  {
    var r := [h] + s;
    forall i, j | 0 <= i < j < |r| ensures r[i].createdAt >= r[j].createdAt {
      assert r[j] == s[j - 1];
      if i > 0 {
        assert r[i] == s[i - 1];
      }
    }
  }

  lemma {:induction false} InsertNewestSorted(x: Item, s: seq<Item>)
    requires NewestFirst(s)
    ensures NewestFirst(InsertNewest(x, s))
  {
    if s == [] {
    } else if x.createdAt >= s[0].createdAt {
      assert NotNewerThan(s, x.createdAt) by {
        forall i | 0 <= i < |s| ensures s[i].createdAt <= x.createdAt {
          assert i == 0 || s[0].createdAt >= s[i].createdAt;
        }
      }
      ConsNewest(x, s);
    } else {
      var tail := s[1..];
      assert NewestFirst(tail) && NotNewerThan(tail, s[0].createdAt) by {
        forall i | 0 <= i < |tail| ensures tail[i] == s[i + 1] {
        }
      }
      InsertNewestSorted(x, tail);
      InsertNewestBound(x, tail, s[0].createdAt);
      ConsNewest(s[0], InsertNewest(x, tail));
    }
  }

  /** Insertion sort, newest first, and stable: documents created at the
      same instant keep their order. */
  function SortNewest(s: seq<Item>): (r: seq<Item>)
    ensures multiset(r) == multiset(s)
  {
    if s == [] then []
    else
      assert s == [s[0]] + s[1..];
      InsertNewest(s[0], SortNewest(s[1..]))
  }

  lemma {:induction false} SortNewestSorted(s: seq<Item>)
    ensures NewestFirst(SortNewest(s))
  {
    if s != [] {
      SortNewestSorted(s[1..]);
      InsertNewestSorted(s[0], SortNewest(s[1..]));
    }
  }

  /** `find(filter).sort('-createdAt')`. */
  function Find(c: Collection, crit: Criterion): seq<Item>
    requires WellKeyed(c)
  {
    SortNewest(Select(Scan(c, c.clock), crit))
  }

  /** How often `x` occurs in a listing: once if it is stored and satisfies
      the criterion, never otherwise. */
  lemma FindCount(c: Collection, crit: Criterion, x: Item)
    requires WellKeyed(c)
    ensures multiset(Find(c, crit))[x] == if StoredIn(c, x) && Matches(crit, x) then 1 else 0
    ensures x in Find(c, crit) <==> StoredIn(c, x) && Matches(crit, x)
  {
    ScanCount(c, c.clock, x);
    SelectCount(Scan(c, c.clock), crit, x);
    assert StoredIn(c, x) ==> x.id < c.clock;
  }

  /** What every list endpoint returns: exactly the stored documents that
      satisfy the criterion, each of them once, newest first. */
  lemma FindSpec(c: Collection, crit: Criterion)
    requires WellKeyed(c)
    ensures NewestFirst(Find(c, crit))
    ensures forall x :: multiset(Find(c, crit))[x] == if StoredIn(c, x) && Matches(crit, x) then 1 else 0
    ensures forall x :: x in Find(c, crit) <==> StoredIn(c, x) && Matches(crit, x)
  {
    SortNewestSorted(Select(Scan(c, c.clock), crit));
    forall x
      ensures multiset(Find(c, crit))[x] == if StoredIn(c, x) && Matches(crit, x) then 1 else 0
      ensures x in Find(c, crit) <==> StoredIn(c, x) && Matches(crit, x)
    {
      FindCount(c, crit, x);
    }
  }

  /** Selecting never brings in a document newer than the input's newest. */
  lemma {:induction false} SelectNotNewer(s: seq<Item>, crit: Criterion, bound: nat)
    requires forall i :: 0 <= i < |s| ==> s[i].createdAt <= bound
    ensures forall i :: 0 <= i < |Select(s, crit)| ==> Select(s, crit)[i].createdAt <= bound
  {
    if s != [] {
      SelectNotNewer(s[1..], crit, bound);
    }
  }

  /** Selecting after inserting a matching document is inserting it after
      selecting, on a newest-first list. */
  lemma {:induction false} SelectInsertMatching(x: Item, s: seq<Item>, crit: Criterion)
    requires NewestFirst(s) && Matches(crit, x)
    ensures Select(InsertNewest(x, s), crit) == InsertNewest(x, Select(s, crit))
  {
    if s == [] {
    } else if x.createdAt >= s[0].createdAt {
      assert InsertNewest(x, s) == [x] + s;
      assert ([x] + s)[1..] == s;
      var t := Select(s, crit);
      assert Select([x] + s, crit) == [x] + t;
      forall i | 0 <= i < |s| ensures s[i].createdAt <= s[0].createdAt {
        assert i == 0 || s[0].createdAt >= s[i].createdAt;
      }
      SelectNotNewer(s, crit, s[0].createdAt);
      assert t == [] || x.createdAt >= t[0].createdAt;
    } else {
      var r := InsertNewest(x, s[1..]);
      assert InsertNewest(x, s) == [s[0]] + r;
      assert ([s[0]] + r)[1..] == r;
      assert NewestFirst(s[1..]) by {
        forall i, j | 0 <= i < j < |s[1..]| ensures s[1..][i].createdAt >= s[1..][j].createdAt {
          assert s[1..][i] == s[i + 1] && s[1..][j] == s[j + 1];
        }
      }
      SelectInsertMatching(x, s[1..], crit);
    }
  }

  /** A document that does not match leaves the selection as it was. */
  lemma {:induction false} SelectInsertOther(x: Item, s: seq<Item>, crit: Criterion)
    requires !Matches(crit, x)
    ensures Select(InsertNewest(x, s), crit) == Select(s, crit)
  {
    if s == [] {
    } else if x.createdAt >= s[0].createdAt {
      assert ([x] + s)[1..] == s;
    } else {
      var r := InsertNewest(x, s[1..]);
      assert ([s[0]] + r)[1..] == r;
      SelectInsertOther(x, s[1..], crit);
    }
  }

  /** Filtering then sorting is sorting then filtering. */
  lemma {:induction false} SelectSort(s: seq<Item>, crit: Criterion)
    ensures Select(SortNewest(s), crit) == SortNewest(Select(s, crit))
  {
    if s != [] {
      SelectSort(s[1..], crit);
      SortNewestSorted(s[1..]);
      if Matches(crit, s[0]) {
        SelectInsertMatching(s[0], SortNewest(s[1..]), crit);
      } else {
        SelectInsertOther(s[0], SortNewest(s[1..]), crit);
      }
    }
  }

  lemma {:induction false} SelectEverything(s: seq<Item>)
    ensures Select(s, Everything) == s
  {
    if s != [] {
      SelectEverything(s[1..]);
    }
  }

  /** Each list endpoint returns exactly the documents of the full listing
      that satisfy its criterion, in the same order. */
  lemma {:induction false} FindIsSelectOfAll(c: Collection, crit: Criterion)
    requires WellKeyed(c)
    ensures Find(c, crit) == Select(Find(c, Everything), crit)
  {
    var s := Scan(c, c.clock);
    SelectEverything(s);
    SelectSort(s, crit);
  }

  /** A list whose statuses are all allowed splits into its lost and its
      found documents. */
  lemma {:induction false} SelectSplitsByStatus(s: seq<Item>)
    requires forall x :: x in s ==> x.status in Statuses
    ensures |Select(s, StatusIs("lost"))| + |Select(s, StatusIs("found"))| == |s|
  {
    if s != [] {
      assert forall x :: x in s[1..] ==> x in s;
      SelectSplitsByStatus(s[1..]);
    }
  }

  /** When every stored document satisfies the schema, the lost and the
      found listings together are as long as the full listing. */
  lemma LostAndFoundPartitionAll(c: Collection)
    requires WellKeyed(c)
    requires forall k :: k in c.items ==> ValidItem(c.items[k])
    ensures |Find(c, StatusIs("lost"))| + |Find(c, StatusIs("found"))| == |Find(c, Everything)|
  {
    FindIsSelectOfAll(c, StatusIs("lost"));
    FindIsSelectOfAll(c, StatusIs("found"));
    forall x | x in Find(c, Everything) ensures x.status in Statuses {
      FindCount(c, Everything, x);
    }
    SelectSplitsByStatus(Find(c, Everything));
  }

  // The endpoints

  /** `getAllItems`. */
  function GetAllItems(c: Collection): (r: Reply)
    requires WellKeyed(c)
    ensures r.status == 200 && r.body.Many?
    ensures NewestFirst(r.body.items)
    ensures forall x :: x in r.body.items <==> StoredIn(c, x)
    ensures forall x :: multiset(r.body.items)[x] == if StoredIn(c, x) then 1 else 0
  {
    FindSpec(c, Everything);
    Reply(200, Many(Find(c, Everything)))
  }

  /** `getLostItems`. */
  function GetLostItems(c: Collection): (r: Reply)
    requires WellKeyed(c)
    ensures r.status == 200 && r.body == Many(Select(GetAllItems(c).body.items, StatusIs("lost")))
  {
    FindIsSelectOfAll(c, StatusIs("lost"));
    Reply(200, Many(Find(c, StatusIs("lost"))))
  }

  /** `getFoundItems`. */
  function GetFoundItems(c: Collection): (r: Reply)
    requires WellKeyed(c)
    ensures r.status == 200 && r.body == Many(Select(GetAllItems(c).body.items, StatusIs("found")))
  {
    FindIsSelectOfAll(c, StatusIs("found"));
    Reply(200, Many(Find(c, StatusIs("found"))))
  }

  /** `getItemById`: 404 for an identifier with no document, the document
      otherwise. */
  function GetItemById(c: Collection, id: ObjectId): (r: Reply)
    ensures r.status == 404 <==> id !in c.items
    ensures id !in c.items ==> r.body == Message("Item not found")
    ensures id in c.items ==> r == Reply(200, One(c.items[id]))
  {
    if id in c.items then Reply(200, One(c.items[id])) else Reply(404, Message("Item not found"))
  }

  /** The message of the `TypeError` thrown when a handler reads `req.user.id`
      while `req.user` is `null`. */
  const NullUserMessage := "Cannot read properties of null (reading 'id')"

  /** `getMyItems`: the owner is the authenticated caller (`req.user`), never
      a parameter; a `null` caller makes the handler throw. */
  function GetMyItems(c: Collection, caller: Option<PublicUser>): (r: Reply)
    requires WellKeyed(c)
    ensures caller.None? ==> r == Reply(500, Message(NullUserMessage))
    ensures caller.Some? ==> r.status == 200 && r.body.Many?
    ensures caller.Some? ==> forall x :: x in r.body.items <==> StoredIn(c, x) && x.userId == caller.value.id
    ensures caller.Some? ==> NewestFirst(r.body.items)
    ensures caller.Some? ==> forall x :: multiset(r.body.items)[x] <= 1
    ensures caller.Some? ==> r.body.items == Select(GetAllItems(c).body.items, OwnedBy(caller.value.id))
  {
    if caller.None? then Reply(500, Message(NullUserMessage))
    else
      FindSpec(c, OwnedBy(caller.value.id));
      FindIsSelectOfAll(c, OwnedBy(caller.value.id));
      Reply(200, Many(Find(c, OwnedBy(caller.value.id))))
  }

  /** `searchItems`: an absent or empty query is refused; otherwise a
      document is listed iff its title or its description contains the
      query, ignoring case. */
  function SearchItems(c: Collection, q: Option<string>): (r: Reply)
    requires WellKeyed(c)
    ensures !Truthy(q) <==> r.status == 400
    ensures !Truthy(q) ==> r.body == Message("Please provide search query")
    ensures Truthy(q) ==> r.status == 200 && r.body.Many?
    ensures Truthy(q) ==> forall x :: x in r.body.items <==>
      StoredIn(c, x) && (ContainsIgnoreCase(x.title, q.value) || ContainsIgnoreCase(x.description, q.value))
    ensures Truthy(q) ==> r.body.items == Select(GetAllItems(c).body.items, TextMatch(q.value))
  {
    if !Truthy(q) then Reply(400, Message("Please provide search query"))
    else
      FindSpec(c, TextMatch(q.value));
      FindIsSelectOfAll(c, TextMatch(q.value));
      Reply(200, Many(Find(c, TextMatch(q.value))))
  }

  /** The query document of `filterItems`: a criterion only for a truthy
      parameter. Casting the query runs the `lowercase` setter of `status`
      on the value, as it does on a stored document. */
  function FilterOf(category: Option<string>, status: Option<string>): (crit: Criterion)
    ensures crit.Fields?
    ensures crit.category == (if Truthy(category) then category else None)
    ensures crit.status == (if Truthy(status) then Some(Lower(status.value)) else None)
  {
    Fields(if Truthy(category) then category else None, if Truthy(status) then Some(Lower(status.value)) else None)
  }

  /** `filterItems`: the given criteria are AND-combined, a missing one is a
      wildcard, and with neither the result is the full listing. */
  function FilterItems(c: Collection, category: Option<string>, status: Option<string>): (r: Reply)
    requires WellKeyed(c)
    ensures r.status == 200 && r.body.Many?
    ensures forall x :: x in r.body.items <==>
      && StoredIn(c, x)
      && (Truthy(category) ==> x.category == category.value)
      && (Truthy(status) ==> x.status == Lower(status.value))
    ensures forall x :: multiset(r.body.items)[x] <= 1
    ensures NewestFirst(r.body.items)
    ensures r.body.items == Select(GetAllItems(c).body.items, FilterOf(category, status))
    ensures !Truthy(category) && !Truthy(status) ==> r == GetAllItems(c)
  {
    FilterMembers(c, category, status);
    NoCriteriaSelectsAll(c, category, status);
    FindSpec(c, FilterOf(category, status));
    FindIsSelectOfAll(c, FilterOf(category, status));
    Reply(200, Many(Find(c, FilterOf(category, status))))
  }

  lemma FilterMembers(c: Collection, category: Option<string>, status: Option<string>)
    requires WellKeyed(c)
    ensures forall x :: x in Find(c, FilterOf(category, status)) <==>
      && StoredIn(c, x)
      && (Truthy(category) ==> x.category == category.value)
      && (Truthy(status) ==> x.status == Lower(status.value))
  {
    forall x
      ensures x in Find(c, FilterOf(category, status)) <==>
        && StoredIn(c, x)
        && (Truthy(category) ==> x.category == category.value)
        && (Truthy(status) ==> x.status == Lower(status.value))
    {
      FindCount(c, FilterOf(category, status), x);
    }
  }

  lemma NoCriteriaSelectsAll(c: Collection, category: Option<string>, status: Option<string>)
    requires WellKeyed(c)
    ensures !Truthy(category) && !Truthy(status) ==> Find(c, FilterOf(category, status)) == Find(c, Everything)
  {
    var crit := FilterOf(category, status);
    if !Truthy(category) && !Truthy(status) {
      FindIsSelectOfAll(c, crit);
      SelectEverything(Find(c, Everything));
      SelectSameCriterion(Find(c, Everything), crit, Everything);
    }
  }

  /** Two criteria that select the same documents select the same list. */
  lemma {:induction false} SelectSameCriterion(s: seq<Item>, a: Criterion, b: Criterion)
    requires forall x :: Matches(a, x) == Matches(b, x)
    ensures Select(s, a) == Select(s, b)
  {
    if s != [] {
      SelectSameCriterion(s[1..], a, b);
    }
  }

  /** A status parameter that lower-cases to `lost`, such as `LOST`, lists
      exactly the lost documents. */
  lemma StatusFilterIgnoresCase(c: Collection, status: string)
    requires WellKeyed(c) && Lower(status) == "lost"
    ensures FilterItems(c, None, Some(status)).body == GetLostItems(c).body
  {
    var all := GetAllItems(c).body.items;
    var crit := FilterOf(None, Some(status));
    assert crit == Fields(None, Some("lost"));
    assert FilterItems(c, None, Some(status)).body == Many(Select(all, crit));
    SelectSameCriterion(all, crit, StatusIs("lost"));
  }

  lemma UpperCaseLostFilter(c: Collection)
    requires WellKeyed(c)
    ensures FilterItems(c, None, Some("LOST")).body == GetLostItems(c).body
  {
    LowerPointwise("LOST", "lost");
    StatusFilterIgnoresCase(c, "LOST");
  }

  /** A run of the title that equals the query up to the case of its
      letters makes the document match the search. */
  lemma SearchFindsTitle(x: Item, q: string, w: string, i: nat)
    requires OccursAt(x.title, w, i) && Lower(w) == Lower(q)
    ensures Matches(TextMatch(q), x)
  {
    LowerSliceWord(x.title, i, w, Lower(q));
    ContainsWitness(Lower(x.title), Lower(q), i);
  }

  /** The same for a run of the description. */
  lemma SearchFindsDescription(x: Item, q: string, w: string, i: nat)
    requires OccursAt(x.description, w, i) && Lower(w) == Lower(q)
    ensures Matches(TextMatch(q), x)
  {
    LowerSliceWord(x.description, i, w, Lower(q));
    ContainsWitness(Lower(x.description), Lower(q), i);
  }

  /** Where `w` occurs in `s`, its lower-case form `l` occurs in `Lower(s)`. */
  lemma LowerSliceWord(s: string, i: nat, w: string, l: string)
    requires OccursAt(s, w, i) && |l| == |w|
    requires forall k :: 0 <= k < |w| ==> LowerChar(w[k]) == l[k]
    ensures OccursAt(Lower(s), l, i)
  {
    var t := Lower(s);
    forall k | 0 <= k < |l| ensures t[i..i + |l|][k] == l[k] {
      assert s[i..i + |w|][k] == w[k];
    }
  }
}
