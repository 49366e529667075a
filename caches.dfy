/** The cache storage a service worker relies on: the Cache and CacheStorage
    interfaces of sections 5.4 and 5.5 of the W3C Service Workers specification.
    A request is reduced to its URL and a response to an opaque value that
    carries its HTTP status; the network is an oracle giving, per URL, either
    a response or a network error. */
module Caches {

  datatype Option<T> = None | Some(value: T)

  /** A response as the network hands it out; only its status is inspected. */
  datatype Response = Response(status: int, body: string)

  datatype Request = Request(httpMethod: string, url: string)

  /** One cache: request URL to stored response. */
  type Cache = map<string, Response>

  /** The origin's name to cache map. */
  type Storage = map<string, Cache>

  /** The outcome of fetching each URL during one event; None is a network error. */
  type Network = string -> Option<Response>

  /** Cache.put and Cache.addAll reject partial responses. */
  const PartialContent := 206

  predicate OkStatus(status: int) {
    200 <= status <= 299
  }

  /** What addAll accepts from one fetch: a response (not a network error)
      whose status is ok and not 206 (section 5.4.4). */
  predicate Addable(outcome: Option<Response>) {
    outcome.Some? && OkStatus(outcome.value.status) && outcome.value.status != PartialContent
  }

  predicate Distinct(urls: seq<string>) {
    forall i, j :: 0 <= i < j < |urls| ==> urls[i] != urls[j]
  }

  /** addAll resolves exactly when no two requests match each other and
      every fetch gives an addable response; otherwise it rejects. */
  predicate AddAllAccepts(urls: seq<string>, network: Network) {
    Distinct(urls) && forall i :: 0 <= i < |urls| ==> Addable(network(urls[i]))
  }

  /** Cache.match (section 5.4.1): the stored response, or undefined. */
  function Lookup(c: Cache, url: string): (r: Option<Response>)
    ensures r.Some? <==> url in c
    ensures r.Some? ==> r.value == c[url]
  {
    if url in c then Some(c[url]) else None
  }

  /** CacheStorage.open (section 5.5.3): the storage once a cache of that
      name exists; a cache that already exists is kept with its entries. */
  function Opened(s: Storage, name: string): (r: Storage)
    ensures r.Keys == s.Keys + {name}
    ensures forall n :: n in s ==> r[n] == s[n]
    ensures name !in s ==> r[name] == map[]
  {
    if name in s then s else s[name := map[]]
  }

  /** Cache.put (section 5.4.5): the entry for the URL becomes the response,
      whatever its status, except that a 206 response is rejected. */
  function WithPut(c: Cache, url: string, response: Response): (r: Cache)
    ensures response.status != PartialContent ==> url in r && r[url] == response
    ensures response.status == PartialContent ==> r == c
    ensures forall u :: u != url ==> (u in r <==> u in c)
    ensures forall u :: u != url && u in c ==> r[u] == c[u]
  {
    if response.status == PartialContent then c else c[url := response]
  }

  /** The cache after the batch of puts that addAll commits: every URL
      stores its network response, every other entry stays. */
  function WithEntries(c: Cache, urls: seq<string>, network: Network): (r: Cache)
    requires forall i :: 0 <= i < |urls| ==> network(urls[i]).Some?
    ensures r.Keys == c.Keys + (set u | u in urls)
    ensures forall i :: 0 <= i < |urls| ==> r[urls[i]] == network(urls[i]).value
    ensures forall u :: u in c && u !in urls ==> r[u] == c[u]
    decreases |urls|
  {
    if urls == [] then c
    else
      var last := urls[|urls| - 1];
      WithEntries(c, urls[..|urls| - 1], network)[last := network(last).value]
  }

  /** Committing the same batch twice stores nothing new. */
  lemma WithEntriesIdempotent(c: Cache, urls: seq<string>, network: Network)
    requires forall i :: 0 <= i < |urls| ==> network(urls[i]).Some?
    ensures WithEntries(WithEntries(c, urls, network), urls, network) == WithEntries(c, urls, network)
  {
    var once := WithEntries(c, urls, network);
    var twice := WithEntries(once, urls, network);
    forall u | u in once
      ensures twice[u] == once[u]
    {
      if u in urls {
        var i :| 0 <= i < |urls| && urls[i] == u;
        assert twice[urls[i]] == network(urls[i]).value == once[urls[i]];
      }
    }
  }

  /** The checks addAll makes on the fetched responses, one request at a
      time, before anything is stored. */
  method FetchAndCheck(urls: seq<string>, network: Network) returns (ok: bool)
    ensures ok == AddAllAccepts(urls, network)
  {
    ok := Distinct(urls);
    var i := 0;
    while i < |urls|
      invariant 0 <= i <= |urls|
      invariant ok == (Distinct(urls) && forall k :: 0 <= k < i ==> Addable(network(urls[k])))
    {
      ok := ok && Addable(network(urls[i]));
      i := i + 1;
    }
  }

  /** The batch of puts addAll commits, applied in request order to a copy
      of the cache. */
  method CommitBatch(c: Cache, urls: seq<string>, network: Network) returns (entries: Cache)
    requires forall i :: 0 <= i < |urls| ==> network(urls[i]).Some?
    ensures entries == WithEntries(c, urls, network)
  {
    entries := c;
    var i := 0;
    while i < |urls|
      invariant 0 <= i <= |urls|
      invariant entries == WithEntries(c, urls[..i], network)
    {
      assert urls[..i + 1][..i] == urls[..i];
      entries := entries[urls[i] := network(urls[i]).value];
      i := i + 1;
    }
    assert urls[..|urls|] == urls;
  }

  /** The origin's CacheStorage, updated in place by the operations the
      service worker calls. */
  class CacheStorage {
    var caches: Storage

    constructor (initial: Storage)
      ensures caches == initial
    {
      caches := initial;
    }

    /** open(name): creates the cache when it is absent. */
    method Open(name: string)
      modifies this
      ensures caches == Opened(old(caches), name)
    {
      if name !in caches {
        caches := caches[name := map[]];
      }
    }

    /** keys(): the names of all caches. */
    method Keys() returns (names: set<string>)
      ensures names == caches.Keys
    {
      names := caches.Keys;
    }

    /** delete(name) (section 5.5.4): removes the cache and tells whether it existed. */
    method Delete(name: string) returns (existed: bool)
      modifies this
      ensures existed == (name in old(caches))
      ensures caches == old(caches) - {name}
    {
      existed := name in caches;
      caches := caches - {name};
    }

    /** match on the opened cache called name. */
    method Match(name: string, url: string) returns (r: Option<Response>)
      requires name in caches
      ensures r.Some? <==> url in caches[name]
      ensures r.Some? ==> r.value == caches[name][url]
    {
      if url in caches[name] {
        r := Some(caches[name][url]);
      } else {
        r := None;
      }
    }

    /** put on the opened cache called name; ok tells whether put resolved. */
    method Put(name: string, url: string, response: Response) returns (ok: bool)
      requires name in caches
      modifies this
      ensures ok == (response.status != PartialContent)
      ensures caches == old(caches)[name := WithPut(old(caches)[name], url, response)]
    {
      ok := response.status != PartialContent;
      if ok {
        caches := caches[name := caches[name][url := response]];
      }
    }

    /** addAll on the opened cache called name (section 5.4.4): every URL is
        fetched and checked before anything is stored; the puts are then
        committed as one batch, or nothing is stored when addAll rejects. */
    method AddAll(name: string, urls: seq<string>, network: Network) returns (ok: bool)
      requires name in caches
      modifies this
      ensures ok == AddAllAccepts(urls, network)
      ensures ok ==> caches == old(caches)[name := WithEntries(old(caches)[name], urls, network)]
      ensures !ok ==> caches == old(caches)
    {
      ok := FetchAndCheck(urls, network);
      if ok {
        var entries := CommitBatch(caches[name], urls, network);
        caches := caches[name := entries];
      }
    }
  }
}
