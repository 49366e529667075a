# Service worker cache model

This project models the service worker of the zyosys landing page (`sw.js`). The worker keeps one versioned cache, `zeosys-v2`, in the origin's CacheStorage. It handles three events:

- **install** opens the current cache and stores the five core assets with `addAll`.
- **activate** deletes every cache whose name is not the current one.
- **fetch** serves every GET stale-while-revalidate. It looks the request up in the current cache and always fetches from the network. A network response is written back with `put`. The page gets the cached entry when there was one, otherwise the network response. When the network fails, the page gets the cached entry or a network error. Requests other than GET are left to the browser.

Two modules:

- `Caches` (`caches.dfy`) holds the storage the worker relies on: the Cache and CacheStorage interfaces of sections 5.4 and 5.5 of the W3C Service Workers specification. It defines value-level functions (`Lookup`, `Opened`, `WithPut`, `WithEntries`). It also defines the class `CacheStorage`, whose field `caches` (cache name to URL to response) is updated in place by `Open`, `Delete`, `Put` and `AddAll`.
- `ServiceWorker` (`service_worker.dfy`) holds the constants `CacheName` and `AssetsCore` and the three handlers. `Install`, `Activate` and `Fetch` are methods over a `CacheStorage`. Each is proved equal to a specification function (`Installed`, `Activated`, `AfterFetch`, `FetchAnswer`). The properties the worker promises are lemmas about those functions.

Modelling choices:

- Requests are reduced to their method and URL, and cache keys are URLs. The relative paths of `AssetsCore` stand for the same-origin URLs a page fetch uses.
- Responses are opaque values that carry a status.
- The network is an oracle `string -> Option<Response>` fixed for one event. `None` is a network error, which makes `fetch` reject.
- Each event is one atomic step. The background revalidation happens inside the fetch step. The page-visible answer depends only on whether there was a cache hit before the write, so this ordering hides nothing.
- The storage follows the W3C rules for the operations used. `put` rejects a 206 response. `addAll` rejects when any fetch fails, when any status is outside 200-299 or is 206, or when two requests are the same. When `addAll` rejects it stores nothing. `open` creates a missing cache.
- The worker itself filters nothing before `put`. So every status except 206 is written back, including 404 and 500.

The worker applies one policy to every GET. It has no network-first branch for navigations, no same-origin check and no status filter before `put`. Install goes through `addAll`, which stores all assets or none.

`Installed`, `Activated`, `AfterFetch` and `FetchAnswer` are the functional form of `Install`, `Activate` and `Fetch`: each method's contract equates its result and new storage with these functions, and the lemmas below state what the handlers promise in terms of them.

## Model

| member | source | states |
|---|---|---|
| Caches.Lookup | sw.js:37 | `match` finds a response exactly when the URL has an entry, and then it is that entry |
| Caches.Opened | sw.js:36 | `open` leaves every existing cache as it was and adds the named cache, empty, only when it is missing |
| Caches.WithPut | sw.js:39 | `put` makes the URL's entry the response, whatever its status except 206 (which it rejects without change); every other entry is unchanged |
| Caches.WithEntries | sw.js:14 | the batch `addAll` commits stores each URL's fetched response, adds exactly those URLs as keys, and keeps every other entry |
| Caches.WithEntriesIdempotent | sw.js:14 | committing the same batch twice gives the same cache as once |
| Caches.FetchAndCheck | sw.js:14 | the checks `addAll` makes pass exactly when the URLs are distinct and every fetch gives an ok, non-206 response |
| Caches.CommitBatch | sw.js:14 | the batch of puts, applied in request order, gives `WithEntries` of the cache |
| Caches.CacheStorage.Open | sw.js:14 | the storage becomes `Opened` of the old storage |
| Caches.CacheStorage.Keys | sw.js:21 | returns the names of all caches |
| Caches.CacheStorage.Delete | sw.js:24 | removes the named cache, and only it; reports whether it existed |
| Caches.CacheStorage.Match | sw.js:37 | returns the stored entry for the URL in the opened cache, or nothing when there is none |
| Caches.CacheStorage.Put | sw.js:39 | the opened cache becomes `WithPut` of its old value; other caches are unchanged; resolves unless the status is 206 |
| Caches.CacheStorage.AddAll | sw.js:14 | resolves exactly when the URLs are distinct and every fetch gives an ok, non-206 response; then the cache becomes `WithEntries` of its old value, otherwise nothing changes |
| ServiceWorker.PageAnswer | sw.js:38-43 | the page answer of sw.js: a cached entry wins; on a miss the network response; a network error only when both are missing |
| ServiceWorker.Activated | sw.js:21-26 | after activate, only the current cache can remain, with its entries unchanged |
| ServiceWorker.Install | sw.js:11-16 | the install handler succeeds exactly when `addAll` of the core assets accepts, and leaves the storage `Installed` |
| ServiceWorker.Activate | sw.js:19-29 | the loop over the cache names deletes each non-current cache; the storage ends as `Activated` of the old one |
| ServiceWorker.Fetch | sw.js:32-47 | the fetch handler's answer is `FetchAnswer` and the storage ends as `AfterFetch` |
| ServiceWorker.NonGetNotIntercepted | sw.js:33 | a request that is not a GET is not intercepted and no cache changes |
| ServiceWorker.HitServesCached | sw.js:37-43 | on a hit in the current cache, the page gets the cached entry whatever the network outcome |
| ServiceWorker.MissServesNetwork | sw.js:38-43 | on a miss, the page gets exactly the network response, or a network error when the fetch fails |
| ServiceWorker.RevalidationStoresResponse | sw.js:38-40 | after a successful fetch, the current cache's entry for the URL is the network response and no other key appears (status other than 206), or the current cache is unchanged (status 206); other entries and other caches are unchanged |
| ServiceWorker.OfflineFallsBackToCache | sw.js:41-43 | when the fetch fails, no entry changes (only a missing current cache is created) and the page gets the cached entry or a network error |
| ServiceWorker.FetchTouchesOnlyCurrentCache | sw.js:36-39 | a fetch changes no cache but the current one, and after a GET the current cache exists |
| ServiceWorker.ActivateKeepsOnlyCurrent | sw.js:21-26 | after activate, the cache names are the old names intersected with the current name, and the surviving cache keeps its entries |
| ServiceWorker.ActivateIdempotent | sw.js:21-26 | activating twice gives the same storage as activating once |
| ServiceWorker.AssetsCoreDistinct | sw.js:2-8 | the five core asset paths are pairwise distinct, so `addAll` does not reject them as duplicates |
| ServiceWorker.InstallSucceedsIff | sw.js:13-15 | install succeeds exactly when every core asset fetches with an ok, non-206 response |
| ServiceWorker.InstallAllOrNothing | sw.js:2-15 | a successful install stores each of the five core assets' responses in the current cache; a failed one stores no entry; the current cache exists either way; other caches are untouched |
| ServiceWorker.InstallIdempotent | sw.js:11-16 | installing twice with the same network gives the same storage as installing once |
| ServiceWorker.DeployLeavesOnlyCurrentCache | sw.js:11-29 | after a successful install followed by activate, the current cache is the only cache and holds the five core assets |
| ServiceWorker.CoreAssetsServedAfterDeploy | sw.js:11-47 | after install and activate, a GET for any core asset is served from the cache under any later network, including none |

## Left out

- Asynchrony is not modelled: promise scheduling, `waitUntil` and `respondWith` lifetimes, revalidation that finishes after the page is answered, and races between concurrent fetches writing the same key. Each event is one atomic step.
- `self.skipWaiting()` (sw.js:12) and the worker lifecycle (what a rejected install does to the worker, client control) are browser runtime behaviour.
- A failure to open the storage subsystem, and `put` failures other than a 206 (for example an exceeded quota), are not modelled. They are runtime conditions of the browser.
- Response bodies and `clone()` are not modelled; responses are opaque values.
- Request matching is reduced to URL equality. Vary headers (including `put`/`addAll` rejecting `Vary: *`), query and fragment handling, URL scheme checks and resolving relative URLs are not modelled.
- Caches.CacheStorage.Keys: returns a set, not the ordered list of section 5.5.5 of the W3C Service Workers specification, because activate deletes each stale name independently and the order does not change the result.
- js/main.js (theme toggle, card rendering, scroll and counter animation) and js/config.js (a static data literal) have no stateable contract beyond rendering and are not part of this model.
