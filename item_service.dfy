/** The client's item service: the request each wrapper sends, the filter
    and search URLs, and the `{success, data} | {success, message}` shape of
    every answer. How the server reads the URLs back is modelled by a small
    query-string reader (the part after `?` and before `#`, pieces split on
    `&`, key and value split on the first `=`, `+` and `%XX` decoded). */
module ItemService {
  import opened Wrappers
  import opened Strings
  import opened ItemQueries
  import opened ItemRoutes

  // Percent-decoding, as the server's query parser applies it

  function HexDigit(n: nat): (c: char)
    requires n < 16
  {
    if n < 10 then ('0' as int + n) as char else ('A' as int + n - 10) as char
  }

  function HexValue(c: char): (v: Option<nat>)
    ensures v.Some? ==> v.value < 16
  {
    if '0' <= c <= '9' then Some(c as int - '0' as int)
    else if 'A' <= c <= 'F' then Some(c as int - 'A' as int + 10)
    else if 'a' <= c <= 'f' then Some(c as int - 'a' as int + 10)
    else None
  }

  lemma HexRoundTrip(n: nat)
    requires n < 16
    ensures HexValue(HexDigit(n)) == Some(n)
  {
  }

  /** `+` is a space and `%XX` the character with that code; anything else
      stands for itself. */
  function Decode(s: string): string
    decreases |s|
  {
    if s == [] then []
    else if s[0] == '+' then [' '] + Decode(s[1..])
    else if s[0] == '%' && |s| >= 3 && HexValue(s[1]).Some? && HexValue(s[2]).Some? then
      [(16 * HexValue(s[1]).value + HexValue(s[2]).value) as char] + Decode(s[3..])
    else [s[0]] + Decode(s[1..])
  }

  /** The characters that mean something to the query parser or the URL. */
  predicate Special(c: char) {
    c == '%' || c == '&' || c == '=' || c == '+' || c == '#'
  }

  /** A value that reaches the server as written. */
  predicate Plain(s: string) {
    forall i :: 0 <= i < |s| ==> !Special(s[i])
  }

  lemma {:induction false} DecodePlain(s: string)
    requires Plain(s)
    ensures Decode(s) == s
  {
    if s != [] {
      assert Plain(s[1..]) by {
        forall i | 0 <= i < |s[1..]| ensures !Special(s[1..][i]) {
          assert s[1..][i] == s[i + 1];
        }
      }
      DecodePlain(s[1..]);
    }
  }

  /** `encodeURIComponent`, restricted to the characters the parser treats
      specially. */
  function EncodeChar(c: char): (e: string)
    ensures c !in "&=#" ==> '&' !in e && '=' !in e && '#' !in e
    ensures Special(c) ==> '&' !in e && '=' !in e && '#' !in e
  {
    if Special(c) then ['%', HexDigit(c as int / 16), HexDigit(c as int % 16)] else [c]
  }

  function Encode(s: string): (e: string)
    ensures '&' !in e && '=' !in e && '#' !in e
  {
    if s == [] then [] else EncodeChar(s[0]) + Encode(s[1..])
  }

  lemma DecodeEncodedChar(c: char, t: string)
    ensures Decode(EncodeChar(c) + t) == [c] + Decode(t)
  {
    var s := EncodeChar(c) + t;
    if Special(c) {
      HexRoundTrip(c as int / 16);
      HexRoundTrip(c as int % 16);
      assert s[3..] == t;
    } else {
      assert s[1..] == t;
    }
  }

  /** Decoding undoes encoding. */
  lemma {:induction false} DecodeEncode(s: string)
    ensures Decode(Encode(s)) == s
  {
    if s != [] {
      DecodeEncode(s[1..]);
      DecodeEncodedChar(s[0], Encode(s[1..]));
      assert [s[0]] + s[1..] == s;
    }
  }

  // Reading a query string

  datatype Param = Param(key: string, value: string)

  /** One `key=value` piece; a piece without `=` has the empty value. */
  function ParsePiece(p: string): Param {
    Param(Decode(Before(p, '=')), match After(p, '=') case None => "" case Some(v) => Decode(v))
  }

  /** The part of the URL after its first `?` and before any `#`. */
  function QueryOf(url: string): string {
    match After(url, '?')
    case None => ""
    case Some(q) => Before(q, '#')
  }

  /** The value of the first piece with key `key`. */
  function Lookup(pieces: seq<string>, key: string): Option<string> {
    if pieces == [] then None
    else if ParsePiece(pieces[0]).key == key then Some(ParsePiece(pieces[0]).value)
    else Lookup(pieces[1..], key)
  }

  /** What the server reads as `req.query[key]`. */
  function QueryValue(url: string, key: string): Option<string> {
    Lookup(Split(QueryOf(url), '&'), key)
  }

  /** A plain key and a value without `&` or `#` read back as written. */
  lemma ParseKeyValue(k: string, v: string)
    requires Plain(k) && '=' !in k
    ensures ParsePiece(k + "=" + v) == Param(k, Decode(v))
  {
    CutAt(k, '=', v);
    DecodePlain(k);
  }

  /** A first piece `k=v` with a plain key answers the lookup of `k` and
      is passed over for any other key. */
  lemma LookupHead(k: string, v: string, rest: seq<string>, key: string)
    requires Plain(k) && '=' !in k
    ensures Lookup([k + ['='] + v] + rest, key) == if k == key then Some(Decode(v)) else Lookup(rest, key)
  {
    var pieces := [k + ['='] + v] + rest;
    assert pieces[0] == k + ['='] + v && pieces[1..] == rest;
    CutAt(k, '=', v);
    DecodePlain(k);
  }

  /** An empty piece has the empty key. */
  lemma LookupEmptyPiece(key: string)
    requires key != ""
    ensures Lookup([""], key) == None
  {
    assert Before("", '=') == "" && After("", '=') == None;
    assert Decode("") == "";
  }

  // The filter URL

  /** The URL `filterItems` builds: the `category` piece with a trailing
      `&` when a category is given, then the `status` piece when a status
      is given. */
  function FilterTarget(category: Option<string>, status: Option<string>): string {
    "/items/filter?"
    + (if Truthy(category) then "category=" + category.value + "&" else "")
    + (if Truthy(status) then "status=" + status.value else "")
  }

  /** `filterItems` building its URL by successive appends. */
  method FilterUrl(category: Option<string>, status: Option<string>) returns (url: string)
    ensures url == FilterTarget(category, status)
  {
    url := "/items/filter?";
    if Truthy(category) {
      url := url + "category=" + category.value + "&";
    }
    if Truthy(status) {
      url := url + "status=" + status.value;
    }
  }

  /** With neither criterion the URL is the bare path and question mark. */
  lemma FilterUrlWithoutCriteria(category: Option<string>, status: Option<string>)
    requires !Truthy(category) && !Truthy(status)
    ensures FilterTarget(category, status) == "/items/filter?"
  {
  }

  /** With a category only, the URL ends in the category piece's `&`. */
  lemma FilterUrlCategoryOnly(category: Option<string>, status: Option<string>)
    requires Truthy(category) && !Truthy(status)
    ensures FilterTarget(category, status) == "/items/filter?category=" + category.value + "&"
    ensures FilterTarget(category, status)[|FilterTarget(category, status)| - 1] == '&'
  {
  }

  /** The part of `path + "?" + query` the parser reads. */
  lemma QueryAfter(path: string, query: string)
    requires '?' !in path && '#' !in query
    ensures QueryOf(path + ['?'] + query) == query
  {
    CutAt(path, '?', query);
  }

  lemma FilterQueryOf(a: string, b: string)
    requires '#' !in a && '#' !in b
    ensures QueryOf("/items/filter?" + a + b) == a + b
  {
    assert "/items/filter?" + a + b == "/items/filter" + ['?'] + (a + b);
    QueryAfter("/items/filter", a + b);
  }

  /** A `key=value` piece with a plain value holds neither `&` nor `#`. */
  lemma PieceIsClean(k: string, v: string)
    requires Plain(k) && Plain(v)
    ensures '&' !in k + "=" + v && '#' !in k + "=" + v
  {
    var p := k + "=" + v;
    forall i | 0 <= i < |p| ensures p[i] != '&' && p[i] != '#' {
      if i < |k| {
        assert p[i] == k[i];
      } else if i > |k| {
        assert p[i] == v[i - |k| - 1];
      }
    }
  }

  /** The pieces the server splits the filter query into. */
  lemma FilterPieces(category: Option<string>, status: Option<string>)
    requires Truthy(category) ==> Plain(category.value)
    requires Truthy(status) ==> Plain(status.value)
    ensures Split(QueryOf(FilterTarget(category, status)), '&') == FilterPieceList(category, status)
  {
    var b := if Truthy(status) then "status=" + status.value else "";
    if Truthy(status) {
      PieceIsClean("status", status.value);
    }
    SplitNoSep(b, '&');
    if Truthy(category) {
      var c := "category=" + category.value;
      PieceIsClean("category", category.value);
      assert c + "&" == c + ['&'];
      assert '#' !in c + "&";
      FilterQueryOf(c + "&", b);
      assert c + "&" + b == c + ['&'] + b;
      SplitAfter(c, '&', b);
    } else {
      FilterQueryOf("", b);
      assert "" + b == b;
    }
  }

  /** The pieces of the filter query. */
  function FilterPieceList(category: Option<string>, status: Option<string>): seq<string> {
    (if Truthy(category) then ["category=" + category.value] else [])
    + [if Truthy(status) then "status=" + status.value else ""]
  }

  /** What the server looks up in those pieces. */
  lemma FilterLookup(category: Option<string>, status: Option<string>)
    requires Truthy(category) ==> Plain(category.value)
    requires Truthy(status) ==> Plain(status.value)
    ensures Lookup(FilterPieceList(category, status), "category") == (if Truthy(category) then category else None)
    ensures Lookup(FilterPieceList(category, status), "status") == (if Truthy(status) then status else None)
  {
    var last := if Truthy(status) then "status=" + status.value else "";
    assert Lookup([last], "status") == (if Truthy(status) then status else None)
        && Lookup([last], "category") == None by {
      if Truthy(status) {
        assert last == "status" + ['='] + status.value;
        assert [last] == [last] + [];
        LookupHead("status", status.value, [], "status");
        LookupHead("status", status.value, [], "category");
        DecodePlain(status.value);
      } else {
        LookupEmptyPiece("status");
        LookupEmptyPiece("category");
      }
    }
    if Truthy(category) {
      var first := "category=" + category.value;
      assert first == "category" + ['='] + category.value;
      assert FilterPieceList(category, status) == [first] + [last];
      LookupHead("category", category.value, [last], "category");
      LookupHead("category", category.value, [last], "status");
      DecodePlain(category.value);
    } else {
      assert FilterPieceList(category, status) == [last];
    }
  }

  /** For plain values, the server reads back exactly the criteria the
      client was given, so the backend builds the same filter. */
  lemma FilterRoundTrip(category: Option<string>, status: Option<string>)
    requires Truthy(category) ==> Plain(category.value)
    requires Truthy(status) ==> Plain(status.value)
    ensures QueryValue(FilterTarget(category, status), "category") == (if Truthy(category) then category else None)
    ensures QueryValue(FilterTarget(category, status), "status") == (if Truthy(status) then status else None)
    ensures FilterOf(QueryValue(FilterTarget(category, status), "category"),
                     QueryValue(FilterTarget(category, status), "status")) == FilterOf(category, status)
  {
    var url := FilterTarget(category, status);
    assert Split(QueryOf(url), '&') == FilterPieceList(category, status) by {
      FilterPieces(category, status);
    }
    FilterLookup(category, status);
  }

  // The search URL

  /** `searchItems` as written: the query goes into the URL unencoded. */
  function SearchUrl(q: string): (u: string)
    ensures RoutePath(u) == Some(["search"])
    ensures '#' !in q ==> QueryOf(u) == "q=" + q
  {
    SearchTarget(q);
    "/items/search?q=" + q
  }

  /** The path of `/items/<seg>?<query>` is the one segment `seg`. */
  lemma OneSegmentWithQuery(seg: string, query: string)
    requires seg != [] && '/' !in seg && '?' !in seg
    ensures RoutePath("/items/" + seg + ['?'] + query) == Some([seg])
  {
    var p := "/items/" + seg;
    assert '?' !in p;
    CutAt(p, '?', query);
    assert p[..7] == "/items/" && p[7..] == seg;
    SplitNoSep(seg, '/');
  }

  lemma SearchTarget(q: string)
    ensures RoutePath("/items/search?q=" + q) == Some(["search"])
    ensures '#' !in q ==> QueryOf("/items/search?q=" + q) == "q=" + q
  {
    var seg, query := "search", "q=" + q;
    assert "/items/search?q=" + q == "/items/" + seg + ['?'] + query;
    OneSegmentWithQuery(seg, query);
    assert "/items/search?q=" + q == "/items/search" + ['?'] + query;
    if '#' !in q {
      assert '#' !in query;
      QueryAfter("/items/search", query);
    }
  }

  /** A `k=v` piece with a plain key and a value free of `&` and `#`
      holds neither. */
  lemma KeyValueClean(k: string, v: string)
    requires Plain(k) && '&' !in v && '#' !in v
    ensures '&' !in k + ['='] + v && '#' !in k + ['='] + v
  {
    var p := k + ['='] + v;
    forall i | 0 <= i < |p| ensures p[i] != '&' && p[i] != '#' {
      if i < |k| {
        assert p[i] == k[i];
      } else if i > |k| {
        assert p[i] == v[i - |k| - 1];
      }
    }
  }

  /** The first piece of a query answers the lookup of its key, whatever
      follows it after an `&`. */
  lemma FirstParam(path: string, k: string, v: string, b: string)
    requires '?' !in path && Plain(k) && '=' !in k
    requires '&' !in v && '#' !in v && '#' !in b
    ensures QueryValue(path + ['?'] + k + ['='] + v + ['&'] + b, k) == Some(Decode(v))
  {
    var piece := k + ['='] + v;
    var query := piece + ['&'] + b;
    assert path + ['?'] + k + ['='] + v + ['&'] + b == path + ['?'] + query;
    KeyValueClean(k, v);
    assert '#' !in query;
    QueryAfter(path, query);
    SplitAfter(piece, '&', b);
    LookupHead(k, v, Split(b, '&'), k);
  }

  /** A query of one piece answers the lookup of its key. */
  lemma OnlyParam(path: string, k: string, v: string)
    requires '?' !in path && Plain(k) && '=' !in k
    requires '&' !in v && '#' !in v
    ensures QueryValue(path + ['?'] + k + ['='] + v, k) == Some(Decode(v))
  {
    var piece := k + ['='] + v;
    assert path + ['?'] + k + ['='] + v == path + ['?'] + piece;
    KeyValueClean(k, v);
    QueryAfter(path, piece);
    SplitNoSep(piece, '&');
    assert [piece] == [piece] + [];
    LookupHead(k, v, [], k);
  }

  /** A query holding `&` reaches the server cut short at it. */
  lemma SearchCutAtAmpersand(a: string, b: string)
    requires Plain(a) && '#' !in b
    ensures QueryValue(SearchUrl(a + "&" + b), "q") == Some(a)
  {
    var q := a + "&" + b;
    SearchUrlShape(q, a, b);
    assert '&' !in a && '#' !in a;
    FirstParam("/items/search", "q", a, b);
    DecodePlain(a);
  }

  lemma SearchUrlShape(q: string, a: string, b: string)
    requires q == a + "&" + b
    ensures SearchUrl(q) == "/items/search" + ['?'] + "q" + ['='] + a + ['&'] + b
  {
  }

  /** "salt & pepper" arrives as "salt ". */
  lemma SaltAndPepper()
    ensures QueryValue(SearchUrl("salt & pepper"), "q") == Some("salt ")
  {
    assert "salt & pepper" == "salt " + "&" + " pepper";
    SearchCutAtAmpersand("salt ", " pepper");
  }

  /** The search URL with the query encoded. */
  function SearchUrlEncoded(q: string): string {
    "/items/search?q=" + Encode(q)
  }

  /** The server reads back every query as it was typed. */
  lemma SearchRoundTrip(q: string)
    ensures QueryValue(SearchUrlEncoded(q), "q") == Some(q)
  {
    assert SearchUrlEncoded(q) == "/items/search" + ['?'] + "q" + ['='] + Encode(q);
    OnlyParam("/items/search", "q", Encode(q));
    DecodeEncode(q);
  }

  // The wrappers

  /** The ten wrappers with their arguments. */
  datatype Call =
    | AllItemsCall | LostItemsCall | FoundItemsCall | ItemByIdCall(id: string)
    | CreateCall | UpdateCall(id: string) | DeleteCall(id: string) | MyItemsCall
    | SearchCall(q: string) | FilterCall(category: Option<string>, status: Option<string>)

  /** The method and URL each wrapper requests, relative to the API base. */
  function Request(call: Call): (r: (Verb, string))
    ensures r.0 == Get <==> !(call.CreateCall? || call.UpdateCall? || call.DeleteCall?)
    ensures call.CreateCall? ==> r.0 == Post
    ensures call.UpdateCall? ==> r.0 == Put
    ensures call.DeleteCall? ==> r.0 == Delete
  {
    match call
    case AllItemsCall => (Get, "/items")
    case LostItemsCall => (Get, "/items/lost")
    case FoundItemsCall => (Get, "/items/found")
    case ItemByIdCall(id) => (Get, "/items/" + id)
    case CreateCall => (Post, "/items")
    case UpdateCall(id) => (Put, "/items/" + id)
    case DeleteCall(id) => (Delete, "/items/" + id)
    case MyItemsCall => (Get, "/items/user/my-items")
    case SearchCall(q) => (Get, SearchUrl(q))
    case FilterCall(c, s) => (Get, FilterTarget(c, s))
  }

  /** The message each wrapper falls back to. */
  function Fallback(call: Call): (m: string)
    ensures m != ""
  {
    match call
    case AllItemsCall => "Failed to fetch items"
    case LostItemsCall => "Failed to fetch lost items"
    case FoundItemsCall => "Failed to fetch found items"
    case ItemByIdCall(_) => "Failed to fetch item"
    case CreateCall => "Failed to create item"
    case UpdateCall(_) => "Failed to update item"
    case DeleteCall(_) => "Failed to delete item"
    case MyItemsCall => "Failed to fetch your items"
    case SearchCall(_) => "Search failed"
    case FilterCall(_, _) => "Filter failed"
  }

  /** How the request ended: a 2xx answer with its data, or an error whose
      response body may carry a `message`. */
  datatype Response<T> = Answered(data: T) | Failed(serverMessage: Option<string>)

  datatype ServiceResult<T> = Success(data: T) | Failure(message: string)

  /** The shape every wrapper returns. */
  function Wrap<T>(call: Call, response: Response<T>): (r: ServiceResult<T>)
    ensures r.Success? <==> response.Answered?
    ensures r.Success? ==> r.data == response.data
    ensures r.Failure? ==> r.message != ""
    ensures r.Failure? && Truthy(response.serverMessage) ==> r.message == response.serverMessage.value
    ensures r.Failure? && !Truthy(response.serverMessage) ==> r.message == Fallback(call)
  {
    match response
    case Answered(d) => Success(d)
    case Failed(m) => Failure(if Truthy(m) then m.value else Fallback(call))
  }

  /** The segments of a URL's path below `/items`, if it lies there. */
  function RoutePath(url: string): Option<seq<string>> {
    var p := Before(url, '?');
    if p == "/items" then Some([])
    else if |p| > 7 && p[..7] == "/items/" then Some(Split(p[7..], '/'))
    else None
  }

  /** `"/items/" + rest` lies below `/items`, with the segments of `rest`. */
  lemma ItemsPath(rest: string)
    requires rest != [] && '?' !in rest
    ensures RoutePath("/items/" + rest) == Some(Split(rest, '/'))
  {
    var url := "/items/" + rest;
    assert '?' !in url;
    BeforeAbsent(url, '?');
    assert url[..7] == "/items/" && url[7..] == rest;
  }

  /** The list of all items is the route with no segment. */
  lemma AllItemsReachesList()
    ensures RoutePath(Request(AllItemsCall).1) == Some([])
    ensures Resolve(Get, RoutePath(Request(AllItemsCall).1).value) == AllItems
  {
  }

  /** Two segments separated by a slash. */
  lemma TwoSegments(a: string, b: string)
    requires '/' !in a && '/' !in b
    ensures Split(a + ['/'] + b, '/') == [a, b]
  {
    SplitAfter(a, '/', b);
    SplitNoSep(b, '/');
  }

  /** A path of two segments below `/items`, without a query. */
  lemma TwoSegmentRoute(url: string, a: string, b: string)
    requires a != "" && '/' !in a && '/' !in b && '?' !in a && '?' !in b
    requires url == "/items/" + a + ['/'] + b
    ensures RoutePath(url) == Some([a, b])
  {
    var rest := a + ['/'] + b;
    assert url == "/items/" + rest;
    ItemsPath(rest);
    TwoSegments(a, b);
  }

  /** The URL that the owner's-listing wrapper requests reaches the
      protected `getMyItems` route. */
  lemma MyItemsReachesOwnerList(url: string)
    requires url == Request(MyItemsCall).1
    ensures RoutePath(url) == Some(["user", "my-items"])
    ensures Resolve(Request(MyItemsCall).0, RoutePath(url).value) == MyItems && Protected(MyItems)
  {
    assert url == "/items/" + "user" + ['/'] + "my-items";
    TwoSegmentRoute(url, "user", "my-items");
    OwnerListPath();
  }

  /** The calls on one item reach the handlers on `/:id`, with the verb each
      wrapper sends, for identifiers without `/` or `?` that are not one of
      the fixed segments in any letter case. */
  lemma IdCallsReachTheirHandlers(id: string)
    requires id != "" && '/' !in id && '?' !in id
    requires !FixedSegment(id)
    ensures RoutePath(Request(ItemByIdCall(id)).1) == Some([id])
    ensures Resolve(Request(ItemByIdCall(id)).0, RoutePath(Request(ItemByIdCall(id)).1).value) == ItemById(id)
    ensures Resolve(Request(UpdateCall(id)).0, RoutePath(Request(UpdateCall(id)).1).value) == UpdateItem(id)
    ensures Resolve(Request(DeleteCall(id)).0, RoutePath(Request(DeleteCall(id)).1).value) == DeleteItem(id)
  {
    var url := "/items/" + id;
    assert Request(ItemByIdCall(id)) == (Get, url);
    assert Request(UpdateCall(id)) == (Put, url);
    assert Request(DeleteCall(id)) == (Delete, url);
    ItemsPath(id);
    SplitNoSep(id, '/');
    IdSegmentRoutes(id);
  }

  /** The create wrapper posts to the collection and reaches `createItem`. */
  lemma CreateCallReachesCreate()
    ensures RoutePath(Request(CreateCall).1) == Some([])
    ensures Resolve(Request(CreateCall).0, RoutePath(Request(CreateCall).1).value) == CreateItem
  {
  }
}
