/** The service worker: a versioned cache that is populated on install,
    pruned on activate and served stale-while-revalidate on every GET.
    Each event is one atomic step over the origin's CacheStorage; the
    network is an oracle fixed for the step. */
module ServiceWorker {
  import opened Caches

  /** The version tag of the current cache. */
  const CacheName := "zeosys-v2"

  /** The core assets stored on install. */
  const AssetsCore: seq<string> := ["/", "/index.html", "/css/style.css", "/js/main.js", "/js/config.js"]

  /** What the page gets from one fetch event: the browser's own handling
      (respondWith was never called), a response, or a network error
      (respondWith got a promise resolving to undefined). */
  datatype Answer = NotIntercepted | Served(response: Response) | NetworkError

  /** The answer of `cachedResponse || fetchPromise`, where fetchPromise
      resolves to the network response or, when the fetch fails, to the
      cached entry. */
  function PageAnswer(cached: Option<Response>, fetched: Option<Response>): (a: Answer)
    ensures cached.Some? ==> a == Served(cached.value)
    ensures cached.None? && fetched.Some? ==> a == Served(fetched.value)
    ensures a == NetworkError <==> cached.None? && fetched.None?
    ensures a != NotIntercepted
  {
    var fetchPromise := if fetched.Some? then fetched else cached;
    var chosen := if cached.Some? then cached else fetchPromise;
    if chosen.Some? then Served(chosen.value) else NetworkError
  }

  predicate InstallSucceeds(network: Network) {
    AddAllAccepts(AssetsCore, network)
  }

  /** The storage after the install event. */
  function Installed(s: Storage, network: Network): Storage {
    var withCurrent := Opened(s, CacheName);
    if InstallSucceeds(network) then
      withCurrent[CacheName := WithEntries(withCurrent[CacheName], AssetsCore, network)]
    else
      withCurrent
  }

  /** The storage after the activate event: only the current cache survives. */
  function Activated(s: Storage): (r: Storage)
    ensures r.Keys <= {CacheName}
    ensures CacheName in s ==> CacheName in r && r[CacheName] == s[CacheName]
    ensures CacheName !in s ==> r == map[]
  {
    map n | n in s && n == CacheName :: s[n]
  }

  /** The storage after a fetch event. */
  function AfterFetch(s: Storage, request: Request, network: Network): Storage {
    if request.httpMethod != "GET" then s
    else
      var withCurrent := Opened(s, CacheName);
      match network(request.url)
      case None => withCurrent
      case Some(latest) => withCurrent[CacheName := WithPut(withCurrent[CacheName], request.url, latest)]
  }

  /** What the page gets from a fetch event. */
  function FetchAnswer(s: Storage, request: Request, network: Network): Answer {
    if request.httpMethod != "GET" then NotIntercepted
    else PageAnswer(Lookup(Opened(s, CacheName)[CacheName], request.url), network(request.url))
  }

  /** install: open the current cache and add every core asset to it. */
  method Install(storage: CacheStorage, network: Network) returns (ok: bool)
    modifies storage
    ensures ok == InstallSucceeds(network)
    ensures storage.caches == Installed(old(storage.caches), network)
  {
    storage.Open(CacheName);
    ok := storage.AddAll(CacheName, AssetsCore, network);
  }

  /** activate: delete every cache whose name is not the current one. */
  method Activate(storage: CacheStorage)
    modifies storage
    ensures storage.caches == Activated(old(storage.caches))
  {
    var keys := storage.Keys();
    var pending := keys;
    while pending != {}
      invariant pending <= keys == old(storage.caches).Keys
      invariant storage.caches
        == map n | n in old(storage.caches) && (n in pending || n == CacheName) :: old(storage.caches)[n]
      decreases pending
    {
      var key :| key in pending;
      if key != CacheName {
        var _ := storage.Delete(key);
      }
      pending := pending - {key};
    }
  }

  /** fetch: stale-while-revalidate for every GET; other methods are left
      to the browser. */
  method Fetch(storage: CacheStorage, request: Request, network: Network) returns (answer: Answer)
    modifies storage
    ensures answer == FetchAnswer(old(storage.caches), request, network)
    ensures storage.caches == AfterFetch(old(storage.caches), request, network)
  {
    if request.httpMethod != "GET" {
      return NotIntercepted;
    }
    storage.Open(CacheName);
    var cached := storage.Match(CacheName, request.url);
    var fetched := network(request.url);
    if fetched.Some? {
      var _ := storage.Put(CacheName, request.url, fetched.value);
    }
    answer := PageAnswer(cached, fetched);
  }

  // ---------------------------------------------------------------- fetch

  /** A request that is not a GET is not intercepted and touches no cache. */
  lemma NonGetNotIntercepted(s: Storage, request: Request, network: Network)
    requires request.httpMethod != "GET"
    ensures FetchAnswer(s, request, network) == NotIntercepted
    ensures AfterFetch(s, request, network) == s
  {
  }

  /** On a hit in the current cache the page gets the cached entry,
      whatever the network does. */
  lemma HitServesCached(s: Storage, request: Request, network: Network)
    requires request.httpMethod == "GET"
    requires CacheName in s && request.url in s[CacheName]
    ensures FetchAnswer(s, request, network) == Served(s[CacheName][request.url])
  {
  }

  /** On a miss the page gets exactly the network response when there is one,
      and a network error otherwise. */
  lemma MissServesNetwork(s: Storage, request: Request, network: Network)
    requires request.httpMethod == "GET"
    requires !(CacheName in s && request.url in s[CacheName])
    ensures network(request.url).Some? ==> FetchAnswer(s, request, network) == Served(network(request.url).value)
    ensures network(request.url).None? ==> FetchAnswer(s, request, network) == NetworkError
  {
  }

  /** A network response is written under the request's URL in the current
      cache, whatever its status except 206 (then the cache stays as it was);
      no other entry, no other key and no other cache changes. */
  lemma RevalidationStoresResponse(s: Storage, request: Request, network: Network)
    requires request.httpMethod == "GET" && network(request.url).Some?
    ensures var r := AfterFetch(s, request, network);
      var before := Opened(s, CacheName)[CacheName];
      && CacheName in r
      && (network(request.url).value.status != PartialContent ==>
            request.url in r[CacheName] && r[CacheName][request.url] == network(request.url).value)
      && (network(request.url).value.status != PartialContent ==>
            r[CacheName].Keys == before.Keys + {request.url})
      && (network(request.url).value.status == PartialContent ==> r[CacheName] == before)
      && (forall u :: CacheName in s && u in s[CacheName] && u != request.url ==>
            u in r[CacheName] && r[CacheName][u] == s[CacheName][u])
      && (forall n :: n != CacheName ==> (n in r <==> n in s) && (n in s ==> r[n] == s[n]))
  {
  }

  /** When the network fails no entry changes (open may only create the
      empty current cache), and the page gets the cached entry or a
      network error. */
  lemma OfflineFallsBackToCache(s: Storage, request: Request, network: Network)
    requires request.httpMethod == "GET" && network(request.url).None?
    ensures AfterFetch(s, request, network) == Opened(s, CacheName)
    ensures CacheName in s && request.url in s[CacheName] ==>
      FetchAnswer(s, request, network) == Served(s[CacheName][request.url])
    ensures !(CacheName in s && request.url in s[CacheName]) ==>
      FetchAnswer(s, request, network) == NetworkError
  {
  }

  /** A fetch event only ever touches the current cache, and after a GET
      that cache exists. */
  lemma FetchTouchesOnlyCurrentCache(s: Storage, request: Request, network: Network)
    ensures var r := AfterFetch(s, request, network);
      && (request.httpMethod == "GET" ==> r.Keys == s.Keys + {CacheName})
      && (forall n :: n != CacheName ==> (n in r <==> n in s) && (n in s ==> r[n] == s[n]))
  {
  }

  // ------------------------------------------------------------- activate

  /** After activate no cache other than the current one exists, and the
      current one keeps all of its entries. */
  lemma ActivateKeepsOnlyCurrent(s: Storage)
    ensures Activated(s).Keys == s.Keys * {CacheName}
    ensures forall n :: n in Activated(s) ==> Activated(s)[n] == s[n]
  {
  }

  /** Activating twice leaves the same storage as activating once. */
  lemma ActivateIdempotent(s: Storage)
    ensures Activated(Activated(s)) == Activated(s)
  {
  }

  // -------------------------------------------------------------- install

  lemma AssetsCoreDistinct()
    ensures Distinct(AssetsCore)
  {
  }

  /** Install succeeds exactly when every core asset fetches with an ok,
      non-partial response. */
  lemma InstallSucceedsIff(network: Network)
    ensures InstallSucceeds(network) <==> forall p :: p in AssetsCore ==> Addable(network(p))
  {
    AssetsCoreDistinct();
    if forall p :: p in AssetsCore ==> Addable(network(p)) {
      forall i | 0 <= i < |AssetsCore|
        ensures Addable(network(AssetsCore[i]))
      {
        assert AssetsCore[i] in AssetsCore;
      }
    }
  }

  /** A successful install leaves the current cache with the fetched
      response of each of the five core assets; a failed one stores no
      entry. Either way the current cache exists afterwards, and every other
      cache is untouched. */
  lemma InstallAllOrNothing(s: Storage, network: Network)
    ensures var r := Installed(s, network);
      && CacheName in r
      && (InstallSucceeds(network) ==>
            forall p :: p in AssetsCore ==> p in r[CacheName] && r[CacheName][p] == network(p).value)
      && (!InstallSucceeds(network) ==> r == Opened(s, CacheName))
      && (forall n :: n != CacheName ==> (n in r <==> n in s) && (n in s ==> r[n] == s[n]))
  {
    if InstallSucceeds(network) {
      var r := Installed(s, network);
      forall p | p in AssetsCore
        ensures p in r[CacheName] && r[CacheName][p] == network(p).value
      {
        var i :| 0 <= i < |AssetsCore| && AssetsCore[i] == p;
        assert r[CacheName][AssetsCore[i]] == network(AssetsCore[i]).value;
      }
    }
  }

  /** Installing twice with the same network gives the same storage as
      installing once: one entry per core asset, no duplicates. */
  lemma InstallIdempotent(s: Storage, network: Network)
    ensures Installed(Installed(s, network), network) == Installed(s, network)
  {
    if InstallSucceeds(network) {
      var once := Installed(s, network);
      assert Opened(once, CacheName) == once;
      WithEntriesIdempotent(once[CacheName], AssetsCore, network);
      WithEntriesIdempotent(Opened(s, CacheName)[CacheName], AssetsCore, network);
    }
  }

  // ------------------------------------------------------------ lifecycle

  /** After a successful install and activate from any earlier storage, the
      current cache is the only one and it holds the five core assets. */
  lemma DeployLeavesOnlyCurrentCache(s: Storage, network: Network)
    requires InstallSucceeds(network)
    ensures var r := Activated(Installed(s, network));
      && r.Keys == {CacheName}
      && forall p :: p in AssetsCore ==> p in r[CacheName] && r[CacheName][p] == network(p).value
  {
    InstallAllOrNothing(s, network);
  }

  /** Once installed and activated, every core asset is served from the
      cache under any later network, including none at all. */
  lemma CoreAssetsServedAfterDeploy(s: Storage, network: Network, later: Network, p: string)
    requires InstallSucceeds(network) && p in AssetsCore
    ensures FetchAnswer(Activated(Installed(s, network)), Request("GET", p), later) == Served(network(p).value)
  {
    DeployLeavesOnlyCurrentCache(s, network);
    HitServesCached(Activated(Installed(s, network)), Request("GET", p), later);
  }
}
