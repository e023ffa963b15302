# Service-worker caching policy of the vehicle-checklist PWA, in Dafny

The vehicle-checklist Progressive Web App ships one service worker, `sw.js`. It
registers four event handlers:

- **install** opens the cache `static-v2` and fills it with the fixed asset list
  `FILES_TO_CACHE`. Only if that succeeds does it call `self.skipWaiting()`. A
  failure is logged and swallowed.
- **activate** deletes every cache whose name is neither `static-v2` nor
  `dynamic-v2`. Then it calls `self.clients.claim()`.
- **fetch** ignores non-GET requests and requests whose URL mentions
  `script.google.com`. Every other request is served cache first. A miss goes to
  the network. A network response with status 200 is copied into `dynamic-v2`.
  If the network fails, a `document` request falls back to the cached
  `./index.html`.
- **message** calls `self.skipWaiting()` for the message `{type: 'SKIP_WAITING'}`.

The model abstracts the browser away:

- The Cache Storage becomes a value: a map from cache name to a map from URL to
  response, plus the caches' creation order.
- A network fetch becomes an input: `Ok(response)` or `Fail`.
- The handlers' network fetches, cache writes, cache deletions, skip-waiting
  requests and clients claims are recorded in order in a trace. Creating a cache
  with `caches.open` is not recorded; it shows in the storage instead.
  Properties such as "a hit never touches the network" and "clients are claimed
  only after pruning" are stated on that trace.

Files:

- `cache_store.dfy`, module `CacheStore`: the storage value and the platform
  operations the worker uses: `caches.open`, `cache.put`, the writes of a
  successful `cache.addAll`, `caches.delete`, `caches.match`.
- `service_worker.dfy`, module `ServiceWorker`: the constants, the interception
  predicate and the message test. Each handler is a step function (`FetchStep`,
  `ActivateStep`, `InstallStep`) from the storage before the event to the answer,
  the storage after it and the effects. The lemmas state the policy's properties.
- `worker.dfy`, module `GlobalScope`: class `Worker`, the worker's global scope.
  Its fields are the caches, their order, the `waitingSkipped` and
  `clientsClaimed` flags, and a ghost trace. Each handler is a method that
  updates those fields step by step, one platform call at a time. The install,
  activate and fetch methods are proved equal to their step functions. The
  message method's contract states its effect directly. The activate handler's walk over
  `caches.keys()` is a loop with invariants.

## Model

| member | source | states |
|---|---|---|
| CacheStore.Open | sw.js:25 | `caches.open`: afterwards the named cache exists; a new one starts empty; no other cache or entry changes; storage stays well formed |
| CacheStore.Put | sw.js:85-87 | `cache.put`: the entry for the URL in the named cache becomes the given response, overwriting any previous one; every other entry of every cache is unchanged |
| CacheStore.PutBatch | sw.js:28 | the writes of a successful `addAll`: every given URL holds its response in the named cache; entries for other URLs and other caches are unchanged |
| CacheStore.Delete | sw.js:52 | `caches.delete`: exactly that cache disappears and the remaining caches keep their contents; deleting an absent cache changes nothing |
| CacheStore.Without | sw.js:52 | the name list after a deletion holds exactly the other names and still has no duplicates |
| CacheStore.MatchIn | sw.js:74 | lookup over a list of caches: finds a response exactly when some listed cache holds the URL, and the response found is one such cache's entry |
| CacheStore.Match | sw.js:74 | `caches.match`: answers exactly when some cache holds the URL, with a response that a cache holds for it (which cache is not claimed) |
| CacheStore.MatchSole | sw.js:74 | a URL held by exactly one cache is answered with that cache's entry |
| ServiceWorker.IncludesIff | sw.js:69 | `url.includes(host)` holds exactly when `host` occurs at some position of `url` |
| ServiceWorker.Intercepts | sw.js:69-71 | a request is handled exactly when its method is GET and `script.google.com` occurs nowhere in its URL |
| ServiceWorker.FetchStep | sw.js:73-98 | the fetch handler as a function of storage, request and network outcome; the resulting storage is well formed |
| ServiceWorker.FetchBypass | sw.js:68-71 | the handler declines to respond exactly for requests it does not intercept; for those, storage is unchanged and no effect happens |
| ServiceWorker.FetchHit | sw.js:74-79 | an intercepted request with a cached entry gets the cached response; there is no network fetch and no cache write |
| ServiceWorker.FetchNetworkOnlyOnMiss | sw.js:74-81 | the network is fetched exactly when the request is intercepted and no cache holds its URL, and only for that URL |
| ServiceWorker.FetchMissReturnsNetworkResponse | sw.js:81-89 | on a miss, the network's response is returned unchanged, whatever its status |
| ServiceWorker.FetchWritesOnlyStatus200 | sw.js:83-87 | any entry that changes is the request URL in `dynamic-v2` and holds a status-200 network response; no cache is removed and no cache other than `dynamic-v2` is created; a 200 response on a miss is stored; a non-200 response or a network failure leaves storage untouched |
| ServiceWorker.FetchOffline | sw.js:90-95 | on a miss with a network failure, a response comes back exactly when the request is a `document` and `./index.html` is cached, and it is that cached page; storage is unchanged |
| ServiceWorker.FetchAnswersOnlyKnownResponses | sw.js:74-95 | every response handed out is a cached entry for the URL, the network's response, or, for a document, the cached offline page |
| ServiceWorker.FetchStoredResponseServedNext | sw.js:74-89 | after a 200 response is stored on a miss, the same request is served from the cache with that response, with no effect, whatever the network would answer |
| ServiceWorker.FetchUnstoredResponseRefetched | sw.js:81-89 | after a non-200 response on a miss, the same request goes to the network again |
| ServiceWorker.PruneAll | sw.js:48-53 | visiting cache names and deleting the stale ones keeps storage well formed |
| ServiceWorker.PruneAllRemovesStale | sw.js:48-53 | after visiting a list of names, a cache survives exactly when it existed and is current or was not visited; survivors keep their contents |
| ServiceWorker.PruneAllSnoc | sw.js:48-53 | visiting one more name extends the pruning, and its deletion effects, by that name alone |
| ServiceWorker.DeleteEventsAre | sw.js:50-52 | the visit's effects are exactly the deletions of the visited names that are not `static-v2` or `dynamic-v2` |
| ServiceWorker.PruneAllNothingStale | sw.js:50 | visiting only current or absent names changes nothing; visiting only current names deletes nothing |
| ServiceWorker.ActivateStep | sw.js:45-59 | the activate handler as a function of storage; the resulting storage is well formed |
| ServiceWorker.ActivateKeepsCurrentCaches | sw.js:46-55 | after activation the cache names are the previous names intersected with {`static-v2`, `dynamic-v2`}, and surviving caches keep their contents |
| ServiceWorker.ActivateClaimsAfterPruning | sw.js:46-59 | the claim of the clients is the last effect; every effect before it is a deletion; a cache is deleted exactly when it existed and is gone afterwards |
| ServiceWorker.ActivateIdempotent | sw.js:46-59 | activating twice leaves the same storage as activating once; the second run deletes nothing and only claims the clients |
| ServiceWorker.AddAll | sw.js:28 | `addAll` yields entries exactly when no URL is listed twice and every listed URL's response is accepted. The entries are keyed by exactly the listed URLs, each holding that URL's network response |
| ServiceWorker.InstallStep | sw.js:24-36 | the install handler as a function of storage, asset list and network; defined for every input, so install never fails; storage stays well formed |
| ServiceWorker.InstallSeedsStaticCache | sw.js:25-33 | on success, `static-v2` holds every listed asset with its network response; the cache names are the old ones plus `static-v2`; every entry of another cache, and every unlisted entry of `static-v2`, is unchanged; and the effects are the `addAll` write followed by `skipWaiting` |
| ServiceWorker.InstallFailureSwallowed | sw.js:34-36 | on failure, `static-v2` exists but no entry of any cache changed, and `skipWaiting` is not requested |
| ServiceWorker.InstallSkipsWaitingIffSeeded | sw.js:28-33 | install requests `skipWaiting` exactly when the `addAll` batch was accepted |
| ServiceWorker.FilesToCacheDistinct | sw.js:7-17 | no URL appears twice in `FILES_TO_CACHE` |
| ServiceWorker.FilesToCacheAcceptedIff | sw.js:7-17 | for the worker's own asset list, `addAll` succeeds exactly when every asset's response is accepted |
| ServiceWorker.OfflinePageListed | sw.js:9 | `./index.html`, the offline fallback, is one of the assets seeded at install |
| ServiceWorker.ShellAfterInstall | sw.js:92-93 | for any asset list containing `./index.html`: after a successful install (no URL repeated, every response accepted) and an activation, a document request with the network down still gets a response |
| ServiceWorker.OfflineShellAfterInstall | sw.js:92-93 | the same for the worker's own `FILES_TO_CACHE` |
| ServiceWorker.RequestsSkipWaiting | sw.js:104 | `data && data.type === 'SKIP_WAITING'` holds exactly for an object whose `type` property is that exact string |
| GlobalScope.Worker.OpenCache | sw.js:25 | the worker's storage becomes `Open` of the old storage; no effect is recorded; the flags are unchanged |
| GlobalScope.Worker.PutEntry | sw.js:85-87 | the worker's storage becomes `Put` of the old storage, and the write is recorded |
| GlobalScope.Worker.PutEntries | sw.js:28 | the worker's storage becomes `PutBatch` of the old storage, and the `addAll` write is recorded |
| GlobalScope.Worker.DeleteCache | sw.js:52 | the worker's storage becomes `Delete` of the old storage, and the deletion is recorded |
| GlobalScope.Worker.RequestSkipWaiting | sw.js:32 | sets the skip-waiting flag and records it; storage unchanged |
| GlobalScope.Worker.ClaimAllClients | sw.js:58 | sets the clients-claimed flag and records it; storage unchanged |
| GlobalScope.Worker.Install | sw.js:21-38 | storage and trace after the handler are those of `InstallStep` with `FILES_TO_CACHE`; the skip-waiting flag is set exactly when every asset was accepted |
| GlobalScope.Worker.Seed | sw.js:24-36 | the open, `addAll`, `skipWaiting` chain for a given asset list ends in the storage and effects of `InstallStep` |
| GlobalScope.Worker.DeleteStale | sw.js:47-55 | the loop over `caches.keys()` ends with the storage of `PruneAll` and exactly its deletion effects; the flags are unchanged |
| GlobalScope.Worker.Activate | sw.js:42-61 | storage and trace after the handler are those of `ActivateStep`; clients are claimed |
| GlobalScope.Worker.HandleFetch | sw.js:65-99 | the reply, the storage and the trace after the handler are those of `FetchStep`; the flags are unchanged |
| GlobalScope.Worker.OnMessage | sw.js:103-108 | storage unchanged; `skipWaiting` is recorded and its flag set exactly when `RequestsSkipWaiting` holds of the data |

## Left out

- Logging (`console.log` and `console.error`) is left out. It has no effect on behaviour.
- Asynchrony is not modelled. Each handler runs atomically, including the
  `cache.put` that sw.js does not await (sw.js:85-87). Interleaving between
  concurrent handlers is not modelled either.
- `Request`/`Response` objects, `clone()` and response bodies are abstract. A
  response is a status and a body. Cache keys are URL strings. Relative URLs such
  as `./index.html` are not resolved against the worker's location; install and
  the offline lookup use the same literal.
- The all-or-nothing behaviour of `cache.addAll`, what it accepts (a response
  with an ok status, 200 to 299, other than 206), and its rejection of a batch
  that lists the same URL twice come from the Service Workers standard, not from
  sw.js. `AddAll` assumes them. Vary-header matching and opaque responses are
  not modelled.
- `addAll`'s own network requests are not recorded in the trace. Only its
  write is.
- Every storage and lifecycle call other than `addAll` is assumed never to
  reject: `caches.open`, `caches.match`, `caches.keys`, `caches.delete`,
  `cache.put`, `self.skipWaiting` and `self.clients.claim`. The swallowing
  `.catch` of sw.js:34-36 is modelled only for a rejected `addAll`. Two
  consequences follow:
  - if one `caches.delete` (sw.js:52) rejects, the `Promise.all` of sw.js:47
    rejects and sw.js:56-58 never claims the clients. `ActivateStep` and
    `Worker.Activate` always claim them.
  - if the unawaited `cache.put` (sw.js:86) rejects, nothing is stored although
    the response is still returned. `FetchStep` and
    `FetchStoredResponseServedNext` assume the write always lands.
- `caches.match` uses creation order when several caches hold a URL. The browser
  defines this order; no lemma relies on it.
- The waiting/active worker lifecycle that `skipWaiting` and `clients.claim`
  trigger belongs to the browser. The model records only that each was requested.
- Message data is a JavaScript value whose numbers are integers. Floating-point
  numbers, NaN and prototype-inherited properties are left out.
- `CACHE_NAME` (sw.js:2) is declared but never used, so it is left out.
- Some behaviour described for the application does not appear in this `sw.js`,
  so the model follows the code and leaves it out:
  - network-first and stale-while-revalidate modes;
  - a 503 "unavailable" response (here a non-document request that fails both
    cache and network resolves to `undefined`);
  - an image placeholder;
  - a lenient install mode;
  - caching only same-origin responses (here any status-200 response is stored
    in `dynamic-v2`, a cross-origin one included).
