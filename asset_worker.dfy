/** The asset-cache worker: the versioned asset list, the install step that
    fills the current cache, the activate step that deletes every other
    cache, and the fetch routing (cache-first for same-origin non-document
    reads, network-first with an entry-page fallback for navigations, and
    no handling for everything else). */
module AssetWorker {
  import opened Wrappers
  import opened CacheStore

  /** Name of the cache of this worker version. */
  const CacheName: string := "poke-rand-v1"

  /** The static assets, as paths relative to the worker's origin. */
  const Assets: seq<string> := [
    "/",
    "/index.html",
    "/styles.css",
    "/app.js",
    "/manifest.webmanifest",
    "/icons/icon-192.png",
    "/icons/icon-512.png"
  ]

  /** The entry page served when a navigation cannot reach the network. */
  const Fallback: string := "/index.html"

  predicate Distinct(ns: seq<string>) {
    forall i, j | 0 <= i < j < |ns| :: ns[i] != ns[j]
  }

  /** The asset list names seven different paths, and the fallback page is
      one of them. */
  lemma AssetsWellChosen()
    ensures |Assets| == 7 && Distinct(Assets)
    ensures Assets[1] == Fallback
  {
  }

  // ---------------------------------------------------------------------
  // Install

  /** A response `Cache.addAll` stores: an ok status (200 to 299) other than
      206, as the Cache interface of the Service Workers specification
      demands. */
  predicate Storable(r: Response) { 200 <= r.status <= 299 && r.status != 206 }

  /** Every asset fetch delivered a storable response. */
  predicate AllStorable(fetched: seq<Fetched<Response>>) {
    forall i | 0 <= i < |fetched| :: fetched[i].Loaded? && Storable(fetched[i].value)
  }

  function Bodies(fetched: seq<Fetched<Response>>): (rs: seq<Response>)
    requires AllStorable(fetched)
    ensures |rs| == |fetched| && forall i | 0 <= i < |fetched| :: rs[i] == fetched[i].value
  {
    seq(|fetched|, i requires 0 <= i < |fetched| => fetched[i].value)
  }

  /** Resolving against one origin keeps different paths apart. */
  lemma ResolvedDistinct(origin: string)
    ensures forall i, j | 0 <= i < j < |Assets| :: origin + Assets[i] != origin + Assets[j]
  {
    AssetsWellChosen();
    forall i, j | 0 <= i < j < |Assets| ensures origin + Assets[i] != origin + Assets[j] {
      assert (origin + Assets[i])[|origin|..] == Assets[i];
      assert (origin + Assets[j])[|origin|..] == Assets[j];
    }
  }

  /** The asset paths resolved against the worker's origin: seven different
      URLs. */
  function AssetUrls(origin: string): (urls: seq<string>)
    ensures |urls| == |Assets| && Distinct(urls)
    ensures forall i | 0 <= i < |Assets| :: urls[i] == origin + Assets[i]
  {
    ResolvedDistinct(origin);
    seq(|Assets|, i requires 0 <= i < |Assets| => origin + Assets[i])
  }

  /** The batch of entries `addAll` writes: each URL with its response. */
  function Entries(urls: seq<string>, rs: seq<Response>): (m: map<string, Response>)
    requires |urls| == |rs| && Distinct(urls)
    ensures m.Keys == set u | u in urls
    ensures forall i | 0 <= i < |urls| :: m[urls[i]] == rs[i]
  {
    if urls == [] then map[]
    else Entries(urls[1..], rs[1..])[urls[0] := rs[0]]
  }

  lemma {:induction false} DistinctCardinality(urls: seq<string>)
    requires Distinct(urls)
    ensures |set u | u in urls| == |urls|
  {
    if urls != [] {
      DistinctCardinality(urls[1..]);
      assert (set u | u in urls) == (set u | u in urls[1..]) + {urls[0]};
      assert urls[0] !in urls[1..];
    }
  }

  /** The store after the install step: the current cache is opened (and so
      created, empty, if missing); if every asset fetch delivered a storable
      response the asset entries are added to it, otherwise nothing is
      added. */
  function Installed(s: Store, origin: string, fetched: seq<Fetched<Response>>): (r: Store)
    requires |fetched| == |Assets|
    ensures Names(r) == if CacheName in Names(s) then Names(s) else Names(s) + [CacheName]
    ensures forall n | n != CacheName :: Find(r, n) == Find(s, n)
    ensures !AllStorable(fetched) ==> Find(r, CacheName) == Some(Find(s, CacheName).GetOr(map[]))
    ensures AllStorable(fetched) ==>
              Find(r, CacheName) == Some(Find(s, CacheName).GetOr(map[]) + Entries(AssetUrls(origin), Bodies(fetched)))
  {
    var current := Open(s, CacheName);
    FindOpen(s, CacheName);
    if AllStorable(fetched) then
      var e := Entries(AssetUrls(origin), Bodies(fetched));
      FindPut(current, CacheName, e);
      Put(current, CacheName, e)
    else
      current
  }

  /** A first install (no cache of this version yet) that succeeds leaves the
      current cache holding exactly the seven asset URLs, each with the
      response fetched for it. */
  lemma FreshInstallHoldsExactlyAssets(s: Store, origin: string, fetched: seq<Fetched<Response>>)
    requires |fetched| == |Assets| && AllStorable(fetched) && CacheName !in Names(s)
    ensures var m := Find(Installed(s, origin, fetched), CacheName).value;
      m.Keys == (set u | u in AssetUrls(origin)) && |m.Keys| == 7 &&
      forall i | 0 <= i < |Assets| :: m[origin + Assets[i]] == fetched[i].value
  {
    DistinctCardinality(AssetUrls(origin));
    var e := Entries(AssetUrls(origin), Bodies(fetched));
    assert map[] + e == e;
  }

  /** After a successful install there is a cache of the current name, and
      every such cache holds the entry page fetched at install. */
  lemma InstalledHoldsEntryPage(s: Store, origin: string, fetched: seq<Fetched<Response>>)
    requires |fetched| == |Assets| && AllStorable(fetched)
    ensures exists c :: c in Installed(s, origin, fetched) && c.name == CacheName
    ensures forall c | c in Installed(s, origin, fetched) && c.name == CacheName ::
              origin + Fallback in c.entries && c.entries[origin + Fallback] == fetched[1].value
  {
    var e := Entries(AssetUrls(origin), Bodies(fetched));
    var current := Open(s, CacheName);
    var r := Installed(s, origin, fetched);
    assert r == Put(current, CacheName, e);
    PutHoldsEntries(current, CacheName, e);
    AssetsWellChosen();
    assert AssetUrls(origin)[1] == origin + Assets[1];
    assert e[origin + Fallback] == fetched[1].value;
    assert CacheName in Names(r);
    var i :| 0 <= i < |r| && Names(r)[i] == CacheName;
    assert r[i] in r;
  }

  /** After a successful install and the sweep of activation, the fallback
      page is the one fetched at install. */
  lemma {:induction false} FallbackAvailableAfterActivation(s: Store, origin: string, fetched: seq<Fetched<Response>>)
    requires |fetched| == |Assets| && AllStorable(fetched)
    ensures Match(Sweep(Installed(s, origin, fetched), CacheName), origin + Fallback) == Some(fetched[1].value)
  {
    var r := Installed(s, origin, fetched);
    InstalledHoldsEntryPage(s, origin, fetched);
    SweepKeepsOnlyCurrent(r, CacheName);
    var c :| c in r && c.name == CacheName;
    assert c in Sweep(r, CacheName);
    MatchAgreed(Sweep(r, CacheName), origin + Fallback, fetched[1].value);
  }

  // ---------------------------------------------------------------------
  // Fetch routing

  /** The request fields the router reads. */
  datatype Request = Request(verb: string, destination: string, mode: string, url: string)

  datatype Route = CacheFirst | NetworkFirst(fallback: string) | PassThrough

  /** What the page gets: no interception (the browser fetches as usual), a
      response, or a network error (a rejected or empty `respondWith`). */
  datatype Reply = PassedThrough | Served(response: Response) | NetworkError

  predicate StartsWith(s: string, prefix: string) {
    |prefix| <= |s| && s[..|prefix|] == prefix
  }

  /** The first-match routing table. */
  function RouteOf(req: Request, origin: string): (r: Route)
    ensures r == CacheFirst <==> req.verb == "GET" && req.destination != "document" && StartsWith(req.url, origin)
    ensures r.NetworkFirst? <==> r != CacheFirst && req.mode == "navigate"
    ensures r.NetworkFirst? ==> r.fallback == Fallback
  {
    if req.verb == "GET" && req.destination != "document" && StartsWith(req.url, origin) then CacheFirst
    else if req.mode == "navigate" then NetworkFirst(Fallback)
    else PassThrough
  }

  /** The cache-first rule comes first: a same-origin navigation whose
      destination is not a document (an iframe, say) is served from the
      cache, never network-first. */
  lemma FrameNavigationIsCacheFirst(origin: string, path: string)
    ensures RouteOf(Request("GET", "iframe", "navigate", origin + path), origin) == CacheFirst
    ensures RouteOf(Request("GET", "document", "navigate", origin + path), origin) == NetworkFirst(Fallback)
  {
  }

  /** The origin test is a plain prefix test, so a URL on a host whose name
      merely extends the origin's counts as same-origin. */
  lemma PrefixTestAdmitsLongerHost()
    ensures RouteOf(Request("GET", "image", "no-cors", "https://poke.example.net/a.png"), "https://poke.example") == CacheFirst
  {
  }

  /** `cached || fetch(request)`. */
  function CacheFirstReply(cached: Option<Response>, network: Fetched<Response>): (r: Reply)
    ensures r != PassedThrough
    ensures r == NetworkError <==> cached.None? && network.Failed?
    ensures cached.Some? ==> r == Served(cached.value)
    ensures cached.None? && network.Loaded? ==> r == Served(network.value)
  {
    match cached
    case Some(r) => Served(r)
    case None => if network.Loaded? then Served(network.value) else NetworkError
  }

  /** `fetch(request).catch(() => caches.match(fallback))`: any response the
      network gives, whatever its status; the fallback only when the fetch
      rejects; a network error when the fallback is missing too. */
  function NetworkFirstReply(network: Fetched<Response>, fallback: Option<Response>): (r: Reply)
    ensures r != PassedThrough
    ensures r == NetworkError <==> network.Failed? && fallback.None?
    ensures network.Loaded? ==> r == Served(network.value)
    ensures network.Failed? && fallback.Some? ==> r == Served(fallback.value)
  {
    match network
    case Loaded(r) => Served(r)
    case Failed => if fallback.Some? then Served(fallback.value) else NetworkError
  }

  /** The fetch handler. It only reads the store: nothing it does writes to
      a cache. `network` is what a network fetch of the request would give. */
  function HandleFetch(s: Store, origin: string, req: Request, network: Fetched<Response>): (r: Reply)
    ensures r == PassedThrough <==> req.mode != "navigate" && RouteOf(req, origin) != CacheFirst
    ensures RouteOf(req, origin) == CacheFirst ==>
              r == (if Match(s, req.url).Some? then Served(Match(s, req.url).value)
                    else if network.Loaded? then Served(network.value) else NetworkError)
    ensures RouteOf(req, origin).NetworkFirst? && network.Loaded? ==> r == Served(network.value)
    ensures RouteOf(req, origin).NetworkFirst? && network.Failed? ==>
              r == (if Match(s, origin + Fallback).Some? then Served(Match(s, origin + Fallback).value) else NetworkError)
  {
    match RouteOf(req, origin)
    case CacheFirst => CacheFirstReply(Match(s, req.url), network)
    case NetworkFirst(f) => NetworkFirstReply(network, Match(s, origin + f))
    case PassThrough => PassedThrough
  }

  /** A cache hit on the cache-first route does not depend on the network:
      the reply is the cached entry whatever the network would do. */
  lemma CacheHitIgnoresNetwork(s: Store, origin: string, req: Request, n1: Fetched<Response>, n2: Fetched<Response>)
    requires RouteOf(req, origin) == CacheFirst && Match(s, req.url).Some?
    ensures HandleFetch(s, origin, req, n1) == HandleFetch(s, origin, req, n2) == Served(Match(s, req.url).value)
  {
  }

  /** With a successful install activated, an offline document navigation is
      answered with the entry page fetched at install. */
  lemma OfflineNavigationServesEntryPage(s: Store, origin: string, fetched: seq<Fetched<Response>>, path: string)
    requires |fetched| == |Assets| && AllStorable(fetched)
    ensures HandleFetch(Sweep(Installed(s, origin, fetched), CacheName), origin,
                        Request("GET", "document", "navigate", origin + path), Failed) == Served(fetched[1].value)
  {
    FallbackAvailableAfterActivation(s, origin, fetched);
  }

  // ---------------------------------------------------------------------
  // The worker and its cache storage

  /** The names in `ks` other than the current cache's. */
  function Others(ks: seq<string>): set<string> {
    set k | k in ks && k != CacheName
  }

  lemma OthersStep(ks: seq<string>, i: nat)
    requires i < |ks|
    ensures Others(ks[..i + 1]) == Others(ks[..i]) + (if ks[i] != CacheName then {ks[i]} else {})
  {
    assert ks[..i + 1] == ks[..i] + [ks[i]];
  }

  class Worker {
    /** `self.location.origin`. */
    const origin: string
    /** The origin's Cache Storage. */
    var caches: Store

    /** No two caches of the store share a name. */
    ghost predicate Valid()
      reads this
    {
      DistinctNames(caches)
    }

    constructor (origin: string, caches: Store)
      requires DistinctNames(caches)
      ensures this.origin == origin && this.caches == caches
      ensures Valid()
    {
      this.origin := origin;
      this.caches := caches;
    }

    /** The install handler: open the current cache, then `addAll` the
        assets, all or nothing. `fetched` is what fetching each asset gave. */
    method Install(fetched: seq<Fetched<Response>>) returns (ok: bool)
      requires Valid() && |fetched| == |Assets|
      modifies this
      ensures ok <==> AllStorable(fetched)
      ensures caches == Installed(old(caches), origin, fetched)
      ensures Valid()
    {
      OpenPutKeepDistinct(caches, CacheName, map[]);
      caches := Open(caches, CacheName);
      ok := AllStorable(fetched);
      if ok {
        var e := Entries(AssetUrls(origin), Bodies(fetched));
        OpenPutKeepDistinct(caches, CacheName, e);
        caches := Put(caches, CacheName, e);
      }
    }

    /** The activate handler: delete, one by one, every cache whose name is
        not the current one. */
    method Activate()
      requires Valid()
      modifies this
      ensures caches == Sweep(old(caches), CacheName)
      ensures Valid()
    {
      var keys := Names(caches);
      ghost var start := caches;
      EvictNothing(start);
      assert Others(keys[..0]) == {};
      for i := 0 to |keys|
        invariant caches == Evict(start, Others(keys[..i]))
      {
        OthersStep(keys, i);
        if keys[i] != CacheName {
          EvictTwice(start, Others(keys[..i]), {keys[i]});
          caches := Delete(caches, keys[i]);
          assert caches == Evict(start, Others(keys[..i]) + {keys[i]});
        } else {
          assert Others(keys[..i + 1]) == Others(keys[..i]);
        }
      }
      assert keys[..|keys|] == keys;
      EvictKeepsDistinct(start, Others(keys));
      forall j | 0 <= j < |start| && start[j].name != CacheName ensures start[j].name in Others(keys) {
        assert keys[j] == start[j].name;
      }
      EvictOthers(start, CacheName, Others(keys));
    }
  }
}
