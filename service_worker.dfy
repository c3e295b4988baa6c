/**
  * The offline service worker (sw.js): the versioned cache names, the
  * scope-relative path, the five-way classification of GET requests with
  * the cache policy of each branch, the pruning of old caches on
  * activation and the precache with its fallback on installation.
  *
  * The Cache API is modelled as a sequence of cache names in creation
  * order (what `caches.keys()` lists) and a map from each name to the
  * stored responses, keyed by request URL. The network is a parameter:
  * the outcome a `fetch` would have.
  */
module ServiceWorker {
  import opened Wrappers
  import opened JsString

  // ---------------------------------------------------------------------
  // Constants.
  // ---------------------------------------------------------------------

  const SwVersion := "v32"
  const CacheStatic := "cdl-static-" + SwVersion
  const CachePages := "cdl-pages-" + SwVersion

  /** The files the installation tries to precache. */
  const CoreAssets: seq<string> := [
    "./", "./index.html", "./offline.html", "./manifest.webmanifest", "./favicon.ico",
    "./logo-cdl.png", "./logo_mantenimiento.png", "./angular.png",
    "./apple-touch-icon.png", "./icon-32.png", "./icon-152.png", "./icon-192.png", "./icon-512-maskable.png",
    "./repuestos.csv"
  ]

  /** The fallback precache when `CoreAssets` cannot all be stored. */
  const MinimalAssets: seq<string> := ["./", "./offline.html", "./manifest.webmanifest"]

  const OfflineUrl := "./offline.html"

  /** The extensions `STATIC_EXT` accepts (`woff2?` is both `woff` and `woff2`). */
  const StaticExtensions: seq<string> := [
    "png", "jpg", "jpeg", "webp", "gif", "svg", "ico", "css", "js", "json",
    "webmanifest", "ttf", "woff", "woff2", "pdf", "csv", "html"
  ]

  /** Both current cache names are built from the version, and they differ. */
  lemma CacheNames()
    ensures CacheStatic == "cdl-static-v32" && CachePages == "cdl-pages-v32"
    ensures CacheStatic != CachePages
  {
    assert CacheStatic[4] != CachePages[4];
  }

  /** The fallback precache asks for nothing the full precache does not. */
  lemma MinimalWithinCore()
    ensures forall u :: u in MinimalAssets ==> u in CoreAssets
    ensures OfflineUrl in MinimalAssets
  {
    assert MinimalAssets[0] == CoreAssets[0];
    assert MinimalAssets[1] == CoreAssets[2];
    assert MinimalAssets[2] == CoreAssets[3];
  }

  // ---------------------------------------------------------------------
  // Requests, responses and the network.
  // ---------------------------------------------------------------------

  /** A request: its HTTP method, its mode, its URL and the path of that URL. */
  datatype Request = Request(httpMethod: string, mode: string, url: string, pathname: string)

  datatype Response = Response(status: int, headers: map<string, string>, body: string)

  /** `response.ok`: the status is in the range 200-299. */
  predicate Ok(r: Response) {
    200 <= r.status <= 299
  }

  /** What `fetch` does: resolve with a response (of any status) or reject. */
  datatype NetResult = Fetched(response: Response) | NetworkError

  /** The answer the API branch makes up when it is offline and has no copy. */
  const OfflineApiResponse :=
    Response(503, map["Content-Type" := "application/json"], "{\"ok\":false,\"error\":\"offline\"}")

  // ---------------------------------------------------------------------
  // pathRelativeToScope and the classification of requests.
  // ---------------------------------------------------------------------

  /** `pathRelativeToScope`: the path with the scope's path stripped from its front, when it is there. */
  function PathRelativeToScope(path: string, scope: string): (rel: string)
    ensures StartsWith(path, scope) ==> scope + rel == path
    ensures !StartsWith(path, scope) ==> rel == path
  {
    if StartsWith(path, scope) then
      assert path == path[..|scope|] + path[|scope|..];
      path[|scope|..]
    else path
  }

  /** `/\.pdf$/i`. */
  predicate IsPdf(path: string) {
    EndsWith(ToLower(path), ".pdf")
  }

  /** `STATIC_EXT`: the path ends in a dot and one of the static extensions, in any letter case. */
  predicate HasStaticExtension(path: string) {
    exists i :: 0 <= i < |StaticExtensions| && EndsWith(ToLower(path), "." + StaticExtensions[i])
  }

  /** A manual: a PDF under `manuales/` inside the scope. */
  predicate IsManual(rel: string) {
    StartsWith(rel, "manuales/") && IsPdf(rel)
  }

  /** The five branches of the fetch handler, in priority order. */
  datatype Branch = Navigation | Api | Manual | StaticAsset | Fallback

  const BranchOrder: seq<Branch> := [Navigation, Api, Manual, StaticAsset, Fallback]

  /** The test that selects each branch of `BranchOrder`; `apiHint` stands for `API_HINT.test`. */
  function Tests(req: Request, scope: string, apiHint: string -> bool): (t: seq<bool>)
    ensures |t| == |BranchOrder| && t[4]
  {
    [ req.mode == "navigate",
      apiHint(req.url),
      IsManual(PathRelativeToScope(req.pathname, scope)),
      HasStaticExtension(req.pathname),
      true ]
  }

  /** The index of the first true test. */
  function FirstTrue(t: seq<bool>): (i: nat)
    requires true in t
    ensures i < |t| && t[i]
    ensures forall j :: 0 <= j < i ==> !t[j]
  {
    if t[0] then 0
    else
      assert true in t[1..] by {
        var k :| 0 <= k < |t| && t[k];
        assert t[1..][k - 1] == t[k];
      }
      1 + FirstTrue(t[1..])
  }

  /** Which branch of the fetch handler takes the request; `None` when the worker does not answer. */
  function Classify(req: Request, scope: string, apiHint: string -> bool): Option<Branch> {
    if req.httpMethod != "GET" then None
    else if req.mode == "navigate" then Some(Navigation)
    else if apiHint(req.url) then Some(Api)
    else if IsManual(PathRelativeToScope(req.pathname, scope)) then Some(Manual)
    else if HasStaticExtension(req.pathname) then Some(StaticAsset)
    else Some(Fallback)
  }

  /**
    * Only GET requests are answered, and every GET request goes to exactly
    * one branch: the first whose test holds, in priority order.
    */
  lemma ClassifyFirstMatch(req: Request, scope: string, apiHint: string -> bool)
    ensures Classify(req, scope, apiHint).None? <==> req.httpMethod != "GET"
    ensures req.httpMethod == "GET" ==>
              var t := Tests(req, scope, apiHint);
              true in t && Classify(req, scope, apiHint) == Some(BranchOrder[FirstTrue(t)])
  {
    var t := Tests(req, scope, apiHint);
    assert t[4] && true in t;
    var i := FirstTrue(t);
    if i > 0 { assert !t[0]; }
    if i > 1 { assert !t[1]; }
    if i > 2 { assert !t[2]; }
    if i > 3 { assert !t[3]; }
  }

  // ---------------------------------------------------------------------
  // The cache storage as a value.
  // ---------------------------------------------------------------------

  /** Removes every occurrence of `x`. */
  function Without(names: seq<string>, x: string): (r: seq<string>)
    ensures forall n :: n in r <==> n in names && n != x
    ensures |r| <= |names|
  {
    if names == [] then []
    else if names[|names| - 1] == x then Without(names[..|names| - 1], x)
    else Without(names[..|names| - 1], x) + [names[|names| - 1]]
  }

  /** No name occurs twice. */
  predicate Distinct(names: seq<string>) {
    forall i, j :: 0 <= i < j < |names| ==> names[i] != names[j]
  }

  /** The cache listed at position `i` holds `url`. */
  predicate HoldsAt(names: seq<string>, stores: map<string, map<string, Response>>, url: string, i: int) {
    0 <= i < |names| && names[i] in stores && url in stores[names[i]]
  }

  /** Position `i` is the first, in list order, whose cache holds `url`. */
  predicate FirstHolder(names: seq<string>, stores: map<string, map<string, Response>>, url: string, i: int) {
    HoldsAt(names, stores, url, i) && forall j :: 0 <= j < i ==> !HoldsAt(names, stores, url, j)
  }

  /** The first of `names` whose store holds `url`. */
  function FirstHit(names: seq<string>, stores: map<string, map<string, Response>>, url: string): (r: Option<Response>)
    ensures r.Some? ==> exists i :: FirstHolder(names, stores, url, i) && r.value == stores[names[i]][url]
    ensures r.None? <==> forall i :: 0 <= i < |names| ==> !HoldsAt(names, stores, url, i)
    decreases |names|
  {
    if names == [] then None
    else if names[0] in stores && url in stores[names[0]] then
      assert FirstHolder(names, stores, url, 0);
      Some(stores[names[0]][url])
    else
      var r := FirstHit(names[1..], stores, url);
      assert forall i :: 1 <= i < |names| ==> (HoldsAt(names, stores, url, i) <==> HoldsAt(names[1..], stores, url, i - 1));
      if r.Some? then
        var i :| FirstHolder(names[1..], stores, url, i) && r.value == stores[names[1..][i]][url];
        assert FirstHolder(names, stores, url, i + 1);
        r
      else r
  }

  /** `caches`: the names in creation order and the responses each cache holds, by URL. */
  datatype Caches = Caches(names: seq<string>, stores: map<string, map<string, Response>>)
  {
    /** Each name is listed once, and exactly the listed names have a store. */
    ghost predicate Valid() {
      Distinct(names) && forall n :: n in stores <==> n in names
    }

    /** `caches.open(name)`: creates an empty cache at the end of the list when there is none. */
    function Open(name: string): (r: Caches)
      ensures name in r.stores
      ensures name in stores ==> r == this
      ensures name !in stores ==> r.names == names + [name] && r.stores == stores[name := map[]]
      ensures forall n :: n in stores ==> n in r.stores && r.stores[n] == stores[n]
      ensures Valid() ==> r.Valid()
    {
      if name in stores then this
      else
        var r := Caches(names + [name], stores[name := map[]]);
        assert Valid() ==> r.Valid() by {
          if Valid() {
            assert forall i :: 0 <= i < |names| ==> names[i] in stores;
          }
        }
        r
    }

    /** `cache.put(url, response)`: a partial response (status 206) is refused and nothing changes. */
    function Put(name: string, url: string, response: Response): (r: Caches)
      requires name in stores
      ensures r.names == names && r.stores.Keys == stores.Keys
      ensures forall n :: n in stores && n != name ==> r.stores[n] == stores[n]
      ensures response.status != 206 ==> url in r.stores[name] && r.stores[name][url] == response
      ensures response.status != 206 ==> r.stores[name].Keys == stores[name].Keys + {url}
      ensures forall u :: u in stores[name] && u != url ==> u in r.stores[name] && r.stores[name][u] == stores[name][u]
      ensures response.status == 206 ==> r == this
      ensures Valid() ==> r.Valid()
    {
      if response.status == 206 then this
      else Caches(names, stores[name := stores[name][url := response]])
    }

    /** `cache.match(url)` on the cache `name`. */
    function Match(name: string, url: string): Option<Response> {
      if name in stores && url in stores[name] then Some(stores[name][url]) else None
    }

    /** `caches.match(url)`: the first cache, in creation order, that holds `url`. */
    function MatchAll(url: string): Option<Response> {
      FirstHit(names, stores, url)
    }

    /** `caches.delete(name)`: the cache and its name disappear. */
    function Delete(name: string): (r: Caches)
      ensures name !in r.names && name !in r.stores
      ensures forall n :: n != name ==> (n in r.names <==> n in names)
      ensures forall n :: n in stores && n != name ==> n in r.stores && r.stores[n] == stores[n]
      ensures name !in names ==> r.names == names
      ensures Distinct(names) ==> forall i :: 0 <= i < |names| && names[i] == name ==> r.names == names[..i] + names[i + 1..]
      ensures Valid() ==> r.Valid()
    {
      var r := Caches(Without(names, name), stores - {name});
      assert Valid() ==> Distinct(r.names) by {
        if Valid() { DistinctWithout(names, name); }
      }
      assert name !in names ==> r.names == names by {
        if name !in names { WithoutAbsent(names, name); }
      }
      assert Distinct(names) ==> forall i :: 0 <= i < |names| && names[i] == name ==> r.names == names[..i] + names[i + 1..] by {
        if Distinct(names) {
          forall i | 0 <= i < |names| && names[i] == name
            ensures r.names == names[..i] + names[i + 1..]
          {
            WithoutAt(names, i);
          }
        }
      }
      r
    }
  }

  /** Removing the name at position `i` of a list without repetitions keeps the others in order. */
  lemma WithoutAt(names: seq<string>, i: nat)
    requires Distinct(names) && i < |names|
    ensures Without(names, names[i]) == names[..i] + names[i + 1..]
  {
    var a, k, b := names[..i], names[i], names[i + 1..];
    DistinctAround(names, i);
    SplitAround(names, i);
    WithoutSingle(a, k, b);
  }

  /** A list is what comes before position `i`, the element there, and what comes after. */
  lemma SplitAround(names: seq<string>, i: nat)
    requires i < |names|
    ensures names == names[..i] + ([names[i]] + names[i + 1..])
  {
  }

  lemma {:induction false} DistinctWithout(names: seq<string>, x: string)
    requires Distinct(names)
    ensures Distinct(Without(names, x))
  {
    if names != [] {
      var init := names[..|names| - 1];
      assert Distinct(init) by {
        assert forall i :: 0 <= i < |init| ==> init[i] == names[i];
      }
      DistinctWithout(init, x);
      assert names[|names| - 1] !in init by {
        assert forall i :: 0 <= i < |init| ==> init[i] == names[i];
      }
    }
  }

  // ---------------------------------------------------------------------
  // The cache storage as mutable state.
  // ---------------------------------------------------------------------

  /** The browser's `caches` object. */
  class CacheStorage {
    var names: seq<string>
    var stores: map<string, map<string, Response>>

    function Snapshot(): Caches
      reads this
    {
      Caches(names, stores)
    }

    ghost predicate Valid()
      reads this
    {
      Snapshot().Valid()
    }

    constructor (initial: Caches)
      requires initial.Valid()
      ensures Snapshot() == initial && Valid()
    {
      names := initial.names;
      stores := initial.stores;
    }

    method Open(name: string)
      requires Valid()
      modifies this
      ensures Snapshot() == old(Snapshot()).Open(name) && Valid()
    {
      if name !in stores {
        names := names + [name];
        stores := stores[name := map[]];
      }
    }

    method Put(name: string, url: string, response: Response)
      requires Valid() && name in stores
      modifies this
      ensures Snapshot() == old(Snapshot()).Put(name, url, response) && Valid()
    {
      if response.status != 206 {
        stores := stores[name := stores[name][url := response]];
      }
    }

    method Delete(name: string) returns (deleted: bool)
      requires Valid()
      modifies this
      ensures deleted <==> name in old(stores)
      ensures Snapshot() == old(Snapshot()).Delete(name) && Valid()
    {
      deleted := name in stores;
      names := Without(names, name);
      stores := stores - {name};
    }

    method Keys() returns (keys: seq<string>)
      ensures keys == names
    {
      keys := names;
    }
  }

  // ---------------------------------------------------------------------
  // The fetch handler, branch by branch.
  // ---------------------------------------------------------------------

  /** `PassThrough`: the worker does not call `respondWith`; otherwise the response it answers with (`None` for `undefined`). */
  datatype Answer = PassThrough | RespondWith(response: Option<Response>)

  /** The answer, the caches afterwards, and whether the network was asked. */
  datatype Outcome = Outcome(answer: Answer, caches: Caches, usedNetwork: bool)

  /** Navigation: network first; the latest page is stored; offline, the stored page or the offline page. */
  function NavigationSpec(c: Caches, url: string, net: NetResult): Outcome {
    var c1 := c.Open(CachePages);
    match net
    case Fetched(latest) => Outcome(RespondWith(Some(latest)), c1.Put(CachePages, url, latest), true)
    case NetworkError =>
      var page := c1.Match(CachePages, url);
      Outcome(RespondWith(if page.Some? then page else c1.MatchAll(OfflineUrl)), c1, true)
  }

  /** API calls: network first; the answer is stored; offline, the stored copy or a made-up 503. */
  function ApiSpec(c: Caches, url: string, net: NetResult): Outcome {
    var c1 := c.Open(CachePages);
    match net
    case Fetched(r) => Outcome(RespondWith(Some(r)), c1.Put(CachePages, url, r), true)
    case NetworkError =>
      var copy := c1.Match(CachePages, url);
      Outcome(RespondWith(Some(if copy.Some? then copy.value else OfflineApiResponse)), c1, true)
  }

  /** Manuals: cache first; an ok download is stored and returned; anything else gives the offline page. */
  function ManualSpec(c: Caches, url: string, net: NetResult): Outcome {
    var c1 := c.Open(CacheStatic);
    var cached := c1.Match(CacheStatic, url);
    if cached.Some? then Outcome(RespondWith(cached), c1, false)
    else if net.Fetched? && Ok(net.response) then
      Outcome(RespondWith(Some(net.response)), c1.Put(CacheStatic, url, net.response), true)
    else Outcome(RespondWith(c1.MatchAll(OfflineUrl)), c1, true)
  }

  /** Static files: cache first; any download is returned but only an ok one is stored; offline, the offline page. */
  function StaticSpec(c: Caches, url: string, net: NetResult): Outcome {
    var c1 := c.Open(CacheStatic);
    var cached := c1.Match(CacheStatic, url);
    if cached.Some? then Outcome(RespondWith(cached), c1, false)
    else
      match net
      case Fetched(r) => Outcome(RespondWith(Some(r)), if Ok(r) then c1.Put(CacheStatic, url, r) else c1, true)
      case NetworkError => Outcome(RespondWith(c1.MatchAll(OfflineUrl)), c1, true)
  }

  /** Everything else: the network, nothing stored; offline, a stored page or the offline page. */
  function FallbackSpec(c: Caches, url: string, net: NetResult): Outcome {
    match net
    case Fetched(r) => Outcome(RespondWith(Some(r)), c, true)
    case NetworkError =>
      var c1 := c.Open(CachePages);
      var alt := c1.Match(CachePages, url);
      Outcome(RespondWith(if alt.Some? then alt else c1.MatchAll(OfflineUrl)), c1, true)
  }

  /** The whole fetch handler for one request. */
  function FetchSpec(c: Caches, req: Request, scope: string, apiHint: string -> bool, net: NetResult): Outcome {
    match Classify(req, scope, apiHint)
    case None => Outcome(PassThrough, c, false)
    case Some(Navigation) => NavigationSpec(c, req.url, net)
    case Some(Api) => ApiSpec(c, req.url, net)
    case Some(Manual) => ManualSpec(c, req.url, net)
    case Some(StaticAsset) => StaticSpec(c, req.url, net)
    case Some(Fallback) => FallbackSpec(c, req.url, net)
  }

  /** A request other than GET is left to the browser: no answer, no cache change, no network. */
  lemma NonGetUntouched(c: Caches, req: Request, scope: string, apiHint: string -> bool, net: NetResult)
    requires req.httpMethod != "GET"
    ensures FetchSpec(c, req, scope, apiHint, net) == Outcome(PassThrough, c, false)
  {
  }

  /**
    * Manuals and static files: a copy in the static cache is the answer and
    * the network is not asked; only an ok response is ever stored, under the
    * request's URL in the static cache; no other cache changes.
    */
  lemma CacheFirstBranches(c: Caches, req: Request, scope: string, apiHint: string -> bool, net: NetResult)
    requires Classify(req, scope, apiHint) in {Some(Manual), Some(StaticAsset)}
    ensures var o := FetchSpec(c, req, scope, apiHint, net);
            var c1 := c.Open(CacheStatic);
            && (c1.Match(CacheStatic, req.url).Some? ==>
                  o == Outcome(RespondWith(c1.Match(CacheStatic, req.url)), c1, false))
            && (o.caches == c1 || (net.Fetched? && Ok(net.response) && o.caches == c1.Put(CacheStatic, req.url, net.response)))
  {
  }

  /** API calls offline: the stored copy when there is one, else the 503 `{"ok":false,"error":"offline"}`. */
  lemma ApiOffline(c: Caches, req: Request, scope: string, apiHint: string -> bool)
    requires Classify(req, scope, apiHint) == Some(Api)
    ensures var o := FetchSpec(c, req, scope, apiHint, NetworkError);
            var copy := c.Open(CachePages).Match(CachePages, req.url);
            && o.answer == RespondWith(Some(if copy.Some? then copy.value else OfflineApiResponse))
            && o.caches == c.Open(CachePages)
            && (copy.None? ==> o.answer.response.value.status == 503)
  {
  }

  /** Navigation offline: the stored page when there is one, else the offline page from any cache. */
  lemma NavigationOffline(c: Caches, req: Request, scope: string, apiHint: string -> bool)
    requires Classify(req, scope, apiHint) == Some(Navigation)
    ensures var o := FetchSpec(c, req, scope, apiHint, NetworkError);
            var page := c.Open(CachePages).Match(CachePages, req.url);
            o.answer == RespondWith(if page.Some? then page else c.Open(CachePages).MatchAll(OfflineUrl))
  {
  }

  /** The handler only ever creates or writes the two current caches; every other cache is left as it was. */
  lemma FetchKeepsOtherCaches(c: Caches, req: Request, scope: string, apiHint: string -> bool, net: NetResult)
    ensures var o := FetchSpec(c, req, scope, apiHint, net);
            forall n :: n in c.stores && n != CacheStatic && n != CachePages ==>
              n in o.caches.stores && o.caches.stores[n] == c.stores[n]
  {
    match Classify(req, scope, apiHint)
    case None =>
    case Some(Navigation) =>
    case Some(Api) =>
    case Some(Manual) =>
    case Some(StaticAsset) =>
    case Some(Fallback) =>
  }

  method HandleNavigation(storage: CacheStorage, url: string, net: NetResult) returns (answer: Answer, usedNetwork: bool)
    requires storage.Valid()
    modifies storage
    ensures Outcome(answer, storage.Snapshot(), usedNetwork) == NavigationSpec(old(storage.Snapshot()), url, net)
    ensures storage.Valid()
  {
    usedNetwork := true;
    match net {
      case Fetched(latest) =>
        storage.Open(CachePages);
        storage.Put(CachePages, url, latest);
        answer := RespondWith(Some(latest));
      case NetworkError =>
        storage.Open(CachePages);
        var page := storage.Snapshot().Match(CachePages, url);
        answer := RespondWith(if page.Some? then page else storage.Snapshot().MatchAll(OfflineUrl));
    }
  }

  method HandleApi(storage: CacheStorage, url: string, net: NetResult) returns (answer: Answer, usedNetwork: bool)
    requires storage.Valid()
    modifies storage
    ensures Outcome(answer, storage.Snapshot(), usedNetwork) == ApiSpec(old(storage.Snapshot()), url, net)
    ensures storage.Valid()
  {
    usedNetwork := true;
    match net {
      case Fetched(r) =>
        storage.Open(CachePages);
        storage.Put(CachePages, url, r);
        answer := RespondWith(Some(r));
      case NetworkError =>
        storage.Open(CachePages);
        var copy := storage.Snapshot().Match(CachePages, url);
        if copy.Some? {
          answer := RespondWith(copy);
        } else {
          answer := RespondWith(Some(OfflineApiResponse));
        }
    }
  }

  method HandleManual(storage: CacheStorage, url: string, net: NetResult) returns (answer: Answer, usedNetwork: bool)
    requires storage.Valid()
    modifies storage
    ensures Outcome(answer, storage.Snapshot(), usedNetwork) == ManualSpec(old(storage.Snapshot()), url, net)
    ensures storage.Valid()
  {
    storage.Open(CacheStatic);
    var cached := storage.Snapshot().Match(CacheStatic, url);
    if cached.Some? {
      return RespondWith(cached), false;
    }
    usedNetwork := true;
    if net.Fetched? && Ok(net.response) {
      storage.Put(CacheStatic, url, net.response);
      return RespondWith(Some(net.response)), true;
    }
    answer := RespondWith(storage.Snapshot().MatchAll(OfflineUrl));
  }

  method HandleStatic(storage: CacheStorage, url: string, net: NetResult) returns (answer: Answer, usedNetwork: bool)
    requires storage.Valid()
    modifies storage
    ensures Outcome(answer, storage.Snapshot(), usedNetwork) == StaticSpec(old(storage.Snapshot()), url, net)
    ensures storage.Valid()
  {
    storage.Open(CacheStatic);
    var cached := storage.Snapshot().Match(CacheStatic, url);
    if cached.Some? {
      return RespondWith(cached), false;
    }
    usedNetwork := true;
    match net {
      case Fetched(r) =>
        if Ok(r) {
          storage.Put(CacheStatic, url, r);
        }
        answer := RespondWith(Some(r));
      case NetworkError =>
        answer := RespondWith(storage.Snapshot().MatchAll(OfflineUrl));
    }
  }

  method HandleFallback(storage: CacheStorage, url: string, net: NetResult) returns (answer: Answer, usedNetwork: bool)
    requires storage.Valid()
    modifies storage
    ensures Outcome(answer, storage.Snapshot(), usedNetwork) == FallbackSpec(old(storage.Snapshot()), url, net)
    ensures storage.Valid()
  {
    usedNetwork := true;
    match net {
      case Fetched(r) =>
        answer := RespondWith(Some(r));
      case NetworkError =>
        storage.Open(CachePages);
        var alt := storage.Snapshot().Match(CachePages, url);
        answer := RespondWith(if alt.Some? then alt else storage.Snapshot().MatchAll(OfflineUrl));
    }
  }

  /** The `fetch` listener: classifies the request and runs the branch it falls into. */
  method HandleFetch(storage: CacheStorage, req: Request, scope: string, apiHint: string -> bool, net: NetResult)
    returns (answer: Answer, usedNetwork: bool)
    requires storage.Valid()
    modifies storage
    ensures Outcome(answer, storage.Snapshot(), usedNetwork) == FetchSpec(old(storage.Snapshot()), req, scope, apiHint, net)
    ensures storage.Valid()
  {
    if req.httpMethod != "GET" {
      return PassThrough, false;
    }
    ghost var c := storage.Snapshot();
    var rel := PathRelativeToScope(req.pathname, scope);
    if req.mode == "navigate" {
      assert Classify(req, scope, apiHint) == Some(Navigation);
      assert FetchSpec(c, req, scope, apiHint, net) == NavigationSpec(c, req.url, net);
      answer, usedNetwork := HandleNavigation(storage, req.url, net);
    } else if apiHint(req.url) {
      assert Classify(req, scope, apiHint) == Some(Api);
      assert FetchSpec(c, req, scope, apiHint, net) == ApiSpec(c, req.url, net);
      answer, usedNetwork := HandleApi(storage, req.url, net);
    } else if StartsWith(rel, "manuales/") && IsPdf(rel) {
      assert Classify(req, scope, apiHint) == Some(Manual);
      assert FetchSpec(c, req, scope, apiHint, net) == ManualSpec(c, req.url, net);
      answer, usedNetwork := HandleManual(storage, req.url, net);
    } else if HasStaticExtension(req.pathname) {
      assert Classify(req, scope, apiHint) == Some(StaticAsset);
      assert FetchSpec(c, req, scope, apiHint, net) == StaticSpec(c, req.url, net);
      answer, usedNetwork := HandleStatic(storage, req.url, net);
    } else {
      assert Classify(req, scope, apiHint) == Some(Fallback);
      assert FetchSpec(c, req, scope, apiHint, net) == FallbackSpec(c, req.url, net);
      answer, usedNetwork := HandleFallback(storage, req.url, net);
    }
  }

  // ---------------------------------------------------------------------
  // activate: prune the caches of older versions.
  // ---------------------------------------------------------------------

  /** One of the two caches of this version. */
  predicate IsCurrent(name: string) {
    name == CacheStatic || name == CachePages
  }

  /** The current names of `names`, in order. */
  function KeepCurrent(names: seq<string>): (r: seq<string>)
    ensures forall n :: n in r <==> n in names && IsCurrent(n)
  {
    if names == [] then []
    else KeepCurrent(names[..|names| - 1]) + (if IsCurrent(names[|names| - 1]) then [names[|names| - 1]] else [])
  }

  /** Filtering a concatenation filters each part: the kept names stay in their order. */
  lemma {:induction false} KeepCurrentAppend(a: seq<string>, b: seq<string>)
    ensures KeepCurrent(a + b) == KeepCurrent(a) + KeepCurrent(b)
    decreases |b|
  {
    if b == [] {
      assert a + b == a;
    } else {
      var init := b[..|b| - 1];
      var last := b[|b| - 1];
      assert (a + b)[..|a + b| - 1] == a + init;
      assert (a + b)[|a + b| - 1] == last;
      KeepCurrentAppend(a, init);
    }
  }

  /** The caches after `activate`. */
  function Pruned(c: Caches): Caches {
    Caches(KeepCurrent(c.names), map n | n in c.stores && IsCurrent(n) :: c.stores[n])
  }

  /**
    * After activation only current caches remain, and the current caches
    * that were there are still there with the same contents.
    */
  lemma PrunedKeepsCurrent(c: Caches)
    requires c.Valid()
    ensures var r := Pruned(c);
            && r.Valid()
            && (forall n :: n in r.names ==> IsCurrent(n))
            && (forall n :: n in c.names && IsCurrent(n) ==> n in r.names && r.stores[n] == c.stores[n])
  {
    DistinctKeepCurrent(c.names);
  }

  lemma {:induction false} DistinctKeepCurrent(names: seq<string>)
    requires Distinct(names)
    ensures Distinct(KeepCurrent(names))
  {
    if names != [] {
      var init := names[..|names| - 1];
      assert Distinct(init) by {
        assert forall i :: 0 <= i < |init| ==> init[i] == names[i];
      }
      DistinctKeepCurrent(init);
      assert names[|names| - 1] !in init by {
        assert forall i :: 0 <= i < |init| ==> init[i] == names[i];
      }
    }
  }

  lemma {:induction false} WithoutAbsent(a: seq<string>, x: string)
    requires x !in a
    ensures Without(a, x) == a
  {
    if a != [] {
      WithoutAbsent(a[..|a| - 1], x);
    }
  }

  /** In a list without repetitions, the `i`-th name occurs neither before nor after position `i`. */
  lemma DistinctAround(keys: seq<string>, i: nat)
    requires Distinct(keys) && i < |keys|
    ensures keys[i] !in keys[..i] && keys[i] !in keys[i + 1..]
  {
    assert forall j :: 0 <= j < i ==> keys[..i][j] == keys[j];
    assert forall j :: i + 1 <= j < |keys| ==> keys[i + 1..][j - i - 1] == keys[j];
  }

  lemma KeepCurrentSnoc(keys: seq<string>, i: nat)
    requires i < |keys|
    ensures KeepCurrent(keys[..i + 1]) == KeepCurrent(keys[..i]) + (if IsCurrent(keys[i]) then [keys[i]] else [])
  {
    assert keys[..i + 1][..i] == keys[..i];
  }

  /** Removing a name that occurs once, between `a` and `b`, leaves `a + b`. */
  lemma {:induction false} WithoutSingle(a: seq<string>, k: string, b: seq<string>)
    requires k !in a && k !in b
    ensures Without(a + ([k] + b), k) == a + b
    decreases |b|
  {
    var s := a + ([k] + b);
    if b == [] {
      assert s[..|s| - 1] == a;
      WithoutAbsent(a, k);
      assert a + b == a;
    } else {
      var init := b[..|b| - 1];
      assert k !in init;
      WithoutSingle(a, k, init);
      assert s[..|s| - 1] == a + ([k] + init);
      assert a + b == (a + init) + [b[|b| - 1]];
    }
  }

  /** The name list before and after one step of the loop, with the kept prefix and the rest as plain lists. */
  lemma PruneStepOn(kept: seq<string>, k: string, rest: seq<string>)
    requires k !in kept && k !in rest
    ensures (if IsCurrent(k) then kept + ([k] + rest) else Without(kept + ([k] + rest), k))
            == (kept + (if IsCurrent(k) then [k] else [])) + rest
  {
    if IsCurrent(k) {
      assert kept + ([k] + rest) == (kept + [k]) + rest;
    } else {
      WithoutSingle(kept, k, rest);
      assert kept + [] == kept;
    }
  }

  /** One step of `activate` on the name list: the `i`-th key is kept when current, else deleted. */
  lemma PruneStep(keys: seq<string>, i: nat)
    requires Distinct(keys) && i < |keys|
    ensures var k := keys[i];
            var before := KeepCurrent(keys[..i]) + keys[i..];
            var after := KeepCurrent(keys[..i + 1]) + keys[i + 1..];
            && (if IsCurrent(k) then before else Without(before, k)) == after
            && keys[..i + 1] == keys[..i] + [k]
  {
    var k := keys[i];
    assert keys[..i + 1] == keys[..i] + [k];
    assert keys[i..] == [k] + keys[i + 1..];
    KeepCurrentSnoc(keys, i);
    DistinctAround(keys, i);
    PruneStepOn(KeepCurrent(keys[..i]), k, keys[i + 1..]);
  }

  /**
    * The stores after the loop of `activate` has gone through the keys
    * `seen`: those of `start` that are current or not yet seen, unchanged.
    */
  ghost predicate PrunedUpTo(start: map<string, map<string, Response>>, stores: map<string, map<string, Response>>, seen: seq<string>) {
    && (forall n :: n in stores <==> n in start && (IsCurrent(n) || n !in seen))
    && (forall n :: n in stores ==> stores[n] == start[n])
  }

  /** Seeing one more key deletes its store when it is not current. */
  lemma PrunedUpToStep(start: map<string, map<string, Response>>, stores: map<string, map<string, Response>>, seen: seq<string>, k: string)
    requires PrunedUpTo(start, stores, seen)
    ensures PrunedUpTo(start, if IsCurrent(k) then stores else stores - {k}, seen + [k])
  {
    assert forall n :: n in seen + [k] <==> n in seen || n == k;
  }

  /** The caches after the loop of `activate` has looked at `keys[i]`. */
  function PruneKeySpec(c: Caches, k: string): Caches {
    if IsCurrent(k) then c else c.Delete(k)
  }

  /** One iteration of `activate` keeps the loop's invariant. */
  lemma ActivateStep(start: map<string, map<string, Response>>, keys: seq<string>, i: nat, c: Caches)
    requires Distinct(keys) && i < |keys|
    requires c.names == KeepCurrent(keys[..i]) + keys[i..]
    requires PrunedUpTo(start, c.stores, keys[..i])
    ensures PruneKeySpec(c, keys[i]).names == KeepCurrent(keys[..i + 1]) + keys[i + 1..]
    ensures PrunedUpTo(start, PruneKeySpec(c, keys[i]).stores, keys[..i + 1])
  {
    PruneStep(keys, i);
    PrunedUpToStep(start, c.stores, keys[..i], keys[i]);
  }

  /** The body of the loop of `activate`: `caches.delete(k)` unless `k` is current. */
  method PruneKey(storage: CacheStorage, k: string)
    requires storage.Valid()
    modifies storage
    ensures storage.Snapshot() == PruneKeySpec(old(storage.Snapshot()), k) && storage.Valid()
  {
    if !IsCurrent(k) {
      var _ := storage.Delete(k);
    }
  }

  /** `activate`: deletes, one by one, every cache that is not one of the two current ones. */
  method Activate(storage: CacheStorage)
    requires storage.Valid()
    modifies storage
    ensures storage.Snapshot() == Pruned(old(storage.Snapshot()))
    ensures storage.Valid()
  {
    var keys := storage.Keys();
    ghost var start := storage.stores;
    assert keys[..0] == [];
    for i := 0 to |keys|
      invariant storage.Valid()
      invariant storage.names == KeepCurrent(keys[..i]) + keys[i..]
      invariant PrunedUpTo(start, storage.stores, keys[..i])
    {
      ActivateStep(start, keys, i, storage.Snapshot());
      PruneKey(storage, keys[i]);
    }
    assert keys[..|keys|] == keys;
    PrunedStores(start, storage.stores, keys);
  }

  /** The stores left after the loop of `activate` are exactly the current ones. */
  lemma PrunedStores(start: map<string, map<string, Response>>, now: map<string, map<string, Response>>, keys: seq<string>)
    requires forall n :: n in start ==> n in keys
    requires PrunedUpTo(start, now, keys)
    ensures now == map n | n in start && IsCurrent(n) :: start[n]
  {
    var m := map n | n in start && IsCurrent(n) :: start[n];
    assert now.Keys == m.Keys;
  }

  // ---------------------------------------------------------------------
  // install: precache the core files, or at least the minimal ones.
  // ---------------------------------------------------------------------

  /** A download `cache.addAll` accepts: it arrived, it is ok, and it is not partial. */
  predicate Storable(r: NetResult) {
    r.Fetched? && Ok(r.response) && r.response.status != 206
  }

  /** `cache.addAll(urls)` into `name`: all or nothing (`None` when it rejects). */
  function AddAllSpec(c: Caches, name: string, urls: seq<string>, net: string -> NetResult): (r: Option<Caches>)
    requires name in c.stores
    ensures r.Some? <==> forall u :: u in urls ==> Storable(net(u))
    ensures r.Some? ==> r.value.names == c.names
                        && (forall n :: n in c.stores && n != name ==> n in r.value.stores && r.value.stores[n] == c.stores[n])
                        && r.value.stores.Keys == c.stores.Keys
                        && r.value.stores[name].Keys == c.stores[name].Keys + (set u | u in urls)
                        && (forall u :: u in c.stores[name] && u !in urls ==> r.value.stores[name][u] == c.stores[name][u])
                        && (forall u :: u in urls ==> u in r.value.stores[name] && r.value.stores[name][u] == net(u).response)
  {
    if forall u :: u in urls ==> Storable(net(u)) then
      Some(Caches(c.names, c.stores[name := c.stores[name] + map u | u in urls :: net(u).response]))
    else None
  }

  /** How the installation ended. */
  datatype Precache = Full | MinimalOnly | Failed

  /** The install handler: open the static cache, try every core file, else the minimal list. */
  function InstallSpec(c: Caches, net: string -> NetResult): (Precache, Caches) {
    var c1 := c.Open(CacheStatic);
    match AddAllSpec(c1, CacheStatic, CoreAssets, net)
    case Some(c2) => (Full, c2)
    case None =>
      match AddAllSpec(c1, CacheStatic, MinimalAssets, net)
      case Some(c3) => (MinimalOnly, c3)
      case None => (Failed, c1)
  }

  /**
    * Whenever the installation succeeds, in full or with the fallback, the
    * offline page is in the static cache; it succeeds in full exactly when
    * every core file can be stored, and a failed installation stores nothing.
    */
  lemma InstallCachesOfflinePage(c: Caches, net: string -> NetResult)
    ensures var (outcome, r) := InstallSpec(c, net);
            && (outcome != Failed ==> r.Match(CacheStatic, OfflineUrl) == Some(net(OfflineUrl).response))
            && (outcome == Full <==> forall u :: u in CoreAssets ==> Storable(net(u)))
            && (outcome == Failed ==> r == c.Open(CacheStatic))
  {
    MinimalWithinCore();
  }

  /** `cache.addAll(urls)`: downloads every URL, then stores them all or, if one fails, none. */
  method AddAll(storage: CacheStorage, name: string, urls: seq<string>, net: string -> NetResult) returns (ok: bool)
    requires storage.Valid() && name in storage.stores
    modifies storage
    ensures var r := AddAllSpec(old(storage.Snapshot()), name, urls, net);
            && (ok <==> r.Some?)
            && storage.Snapshot() == (if ok then r.value else old(storage.Snapshot()))
    ensures storage.Valid()
  {
    var fetched: map<string, Response> := map[];
    for i := 0 to |urls|
      invariant forall j :: 0 <= j < i ==> Storable(net(urls[j]))
      invariant fetched == map u | u in urls[..i] :: net(u).response
    {
      var r := net(urls[i]);
      if !Storable(r) {
        return false;
      }
      assert urls[..i + 1] == urls[..i] + [urls[i]];
      fetched := fetched[urls[i] := r.response];
    }
    assert urls[..|urls|] == urls;
    storage.stores := storage.stores[name := storage.stores[name] + fetched];
    ok := true;
  }

  /** The `install` listener. */
  method Install(storage: CacheStorage, net: string -> NetResult) returns (outcome: Precache)
    requires storage.Valid()
    modifies storage
    ensures (outcome, storage.Snapshot()) == InstallSpec(old(storage.Snapshot()), net)
    ensures storage.Valid()
  {
    storage.Open(CacheStatic);
    var ok := AddAll(storage, CacheStatic, CoreAssets, net);
    if ok {
      return Full;
    }
    ok := AddAll(storage, CacheStatic, MinimalAssets, net);
    outcome := if ok then MinimalOnly else Failed;
  }
}
