/**
  The caching policy of the vehicle-checklist service worker (sw.js): its
  constants, and the install, activate, fetch and message handlers, each as a
  function from the cache storage before the event (and the event's inputs) to
  what the handler answers, the storage after it, and the effects it had, in order.
 */
module ServiceWorker {
  import opened CacheStore

  // ---------------------------------------------------------------------------
  // Configuration (sw.js:3-17)
  // ---------------------------------------------------------------------------

  /** Cache filled at install time. */
  const STATIC_CACHE: CacheName := "static-v2"
  /** Cache filled with network responses at run time. */
  const DYNAMIC_CACHE: CacheName := "dynamic-v2"

  /** The assets stored in the static cache at install time, in the order listed. */
  const FILES_TO_CACHE: seq<Url> := [
    "./",
    "./index.html",
    "./manifest.json",
    "./android-icon-192x192.png",
    "./android-icon-512x512.png",
    "https://cdn.jsdelivr.net/npm/bootstrap@5.1.3/dist/css/bootstrap.min.css",
    "https://cdnjs.cloudflare.com/ajax/libs/font-awesome/6.0.0/css/all.min.css",
    "https://code.jquery.com/jquery-3.6.0.min.js",
    "https://cdn.jsdelivr.net/npm/bootstrap@5.1.3/dist/js/bootstrap.bundle.min.js"
  ]

  /** The page served to a document request when both cache and network fail. */
  const OFFLINE_PAGE: Url := "./index.html"
  /** Requests whose URL mentions this host (the Google Apps Script backend) are never intercepted. */
  const BACKEND_HOST: string := "script.google.com"
  /** The `type` of the control message that asks the waiting worker to take over. */
  const SKIP_WAITING_TYPE: string := "SKIP_WAITING"

  // ---------------------------------------------------------------------------
  // Events and their outcomes
  // ---------------------------------------------------------------------------

  datatype Request = Request(verb: string, url: Url, destination: string)

  /** What `fetch` gives: it resolves with a response (of any status) or rejects. */
  datatype NetworkResult = Ok(response: Response) | Fail

  /** What the fetch handler does with the request: it leaves it to the browser
      (no `respondWith`), or answers it with a response or with `undefined`. */
  datatype Reply = Fallthrough | RespondWith(response: Option<Response>)

  /** Effects on the world outside the worker, in the order they happen. */
  datatype Event =
    | NetworkFetch(url: Url)
    | CachePut(cache: CacheName, url: Url)
    | CacheAddAll(cache: CacheName)
    | CacheDelete(cache: CacheName)
    | SkipWaiting
    | ClaimClients

  /** One handler run: its answer, the storage afterwards and the effects it had. */
  datatype Step<R> = Step(result: R, store: Store, events: seq<Event>)

  // ---------------------------------------------------------------------------
  // Interception predicate (sw.js:68-71)
  // ---------------------------------------------------------------------------

  ghost predicate OccursAt(s: string, sub: string, i: int) {
    0 <= i && i + |sub| <= |s| && s[i..i + |sub|] == sub
  }

  /** `s.includes(sub)`. */
  function Includes(s: string, sub: string): bool
    decreases |s|
  {
    if |sub| > |s| then false
    else if s[..|sub|] == sub then true
    else Includes(s[1..], sub)
  }

  lemma {:induction false} IncludesIff(s: string, sub: string)
    ensures Includes(s, sub) <==> exists i :: OccursAt(s, sub, i)
    decreases |s|
  {
    if |sub| > |s| {
    } else if s[..|sub|] == sub {
      assert OccursAt(s, sub, 0);
    } else {
      IncludesIff(s[1..], sub);
      if exists i :: OccursAt(s, sub, i) {
        var i :| OccursAt(s, sub, i);
        assert i != 0;
        assert s[1..][i - 1..i - 1 + |sub|] == s[i..i + |sub|];
        assert OccursAt(s[1..], sub, i - 1);
      }
      if exists i :: OccursAt(s[1..], sub, i) {
        var i :| OccursAt(s[1..], sub, i);
        assert s[1..][i..i + |sub|] == s[i + 1..i + 1 + |sub|];
        assert OccursAt(s, sub, i + 1);
      }
    }
  }

  /** The worker takes over a request only when it is a GET whose URL does not
      mention the backend host anywhere. */
  function Intercepts(req: Request): (r: bool)
    ensures r <==> req.verb == "GET" && forall i :: !OccursAt(req.url, BACKEND_HOST, i)
  {
    IncludesIff(req.url, BACKEND_HOST);
    req.verb == "GET" && !Includes(req.url, BACKEND_HOST)
  }

  // ---------------------------------------------------------------------------
  // Fetch: cache first, then network, then the offline page (sw.js:65-99)
  // ---------------------------------------------------------------------------

  /** The fetch handler for `req` against storage `s`, the network answering `net`. */
  function FetchStep(s: Store, req: Request, net: NetworkResult): (st: Step<Reply>)
    requires s.Valid()
    ensures st.store.Valid()
  {
    if !Intercepts(req) then Step(Fallthrough, s, [])
    else
      match Match(s, req.url)
      case Some(hit) => Step(RespondWith(Some(hit)), s, [])
      case None =>
        match net
        case Ok(resp) =>
          if resp.status == 200 then
            Step(RespondWith(Some(resp)), Put(s, DYNAMIC_CACHE, req.url, resp),
                 [NetworkFetch(req.url), CachePut(DYNAMIC_CACHE, req.url)])
          else
            Step(RespondWith(Some(resp)), s, [NetworkFetch(req.url)])
        case Fail =>
          var fallback := if req.destination == "document" then Match(s, OFFLINE_PAGE) else None;
          Step(RespondWith(fallback), s, [NetworkFetch(req.url)])
  }

  /** A request that is not a GET, or that goes to the backend, is left alone:
      nothing is read, written or fetched by the worker. */
  lemma FetchBypass(s: Store, req: Request, net: NetworkResult)
    requires s.Valid()
    ensures var st := FetchStep(s, req, net);
      && (st.result == Fallthrough <==> !Intercepts(req))
      && (!Intercepts(req) ==> st.store == s && st.events == [])
  {
  }

  /** A cache hit is answered with the stored response itself, without touching
      the network and without writing to any cache. */
  lemma FetchHit(s: Store, req: Request, net: NetworkResult)
    requires s.Valid()
    requires Intercepts(req) && Cached(s, req.url)
    ensures var st := FetchStep(s, req, net);
      && st.result.RespondWith? && st.result.response.Some?
      && (exists n :: Entry(s, n, req.url) == st.result.response)
      && st.result.response == Match(s, req.url)
      && st.store == s
      && st.events == []
  {
  }

  /** The network is consulted exactly for intercepted requests no cache can answer. */
  lemma FetchNetworkOnlyOnMiss(s: Store, req: Request, net: NetworkResult, url: Url)
    requires s.Valid()
    ensures NetworkFetch(url) in FetchStep(s, req, net).events
            <==> Intercepts(req) && !Cached(s, req.url) && url == req.url
  {
  }

  /** On a miss, whatever the network answers is handed back unchanged, whatever its status. */
  lemma FetchMissReturnsNetworkResponse(s: Store, req: Request, resp: Response)
    requires s.Valid()
    requires Intercepts(req) && !Cached(s, req.url)
    ensures FetchStep(s, req, Ok(resp)).result == RespondWith(Some(resp))
  {
  }

  /** The only write a fetch can make is the network response under the request's
      URL in the dynamic cache, and only when its status is exactly 200. */
  lemma FetchWritesOnlyStatus200(s: Store, req: Request, net: NetworkResult)
    requires s.Valid()
    ensures var st := FetchStep(s, req, net);
      && s.caches.Keys <= st.store.caches.Keys <= s.caches.Keys + {DYNAMIC_CACHE}
      && (forall n, u :: Entry(st.store, n, u) != Entry(s, n, u) ==>
            && n == DYNAMIC_CACHE && u == req.url
            && net.Ok? && net.response.status == 200
            && Entry(st.store, n, u) == Some(net.response))
      && (Intercepts(req) && !Cached(s, req.url) && net.Ok? && net.response.status == 200
          ==> Entry(st.store, DYNAMIC_CACHE, req.url) == Some(net.response))
      && (net.Fail? || net.response.status != 200 ==> st.store == s)
  {
  }

  /** With no cached copy and no network, a document request gets the cached
      offline page if there is one, and every other request gets nothing;
      storage is left as it was. */
  lemma FetchOffline(s: Store, req: Request)
    requires s.Valid()
    requires Intercepts(req) && !Cached(s, req.url)
    ensures var st := FetchStep(s, req, Fail);
      && st.result.RespondWith?
      && (st.result.response.Some? <==> req.destination == "document" && Cached(s, OFFLINE_PAGE))
      && (st.result.response.Some? ==> exists n :: Entry(s, n, OFFLINE_PAGE) == st.result.response)
      && st.store == s
  {
  }

  /** Every response the worker hands out was either stored for the request's URL,
      just given by the network, or (for a document) the stored offline page. */
  lemma FetchAnswersOnlyKnownResponses(s: Store, req: Request, net: NetworkResult, r: Response)
    requires s.Valid()
    requires FetchStep(s, req, net).result == RespondWith(Some(r))
    ensures || (exists n :: Entry(s, n, req.url) == Some(r))
            || net == Ok(r)
            || (req.destination == "document" && exists n :: Entry(s, n, OFFLINE_PAGE) == Some(r))
  {
  }

  /** Once a 200 response has been stored on a miss, the same request is answered
      from the cache with that response, whatever the network would say. */
  lemma FetchStoredResponseServedNext(s: Store, req: Request, resp: Response, later: NetworkResult)
    requires s.Valid()
    requires Intercepts(req) && !Cached(s, req.url) && resp.status == 200
    ensures var first := FetchStep(s, req, Ok(resp));
      FetchStep(first.store, req, later) == Step(RespondWith(Some(resp)), first.store, [])
  {
  }

  /** A response that was not stored (status other than 200) sends the same
      request to the network again next time. */
  lemma FetchUnstoredResponseRefetched(s: Store, req: Request, resp: Response, later: NetworkResult)
    requires s.Valid()
    requires Intercepts(req) && !Cached(s, req.url) && resp.status != 200
    ensures var first := FetchStep(s, req, Ok(resp));
      NetworkFetch(req.url) in FetchStep(first.store, req, later).events
  {
  }

  // ---------------------------------------------------------------------------
  // Activate: prune every cache but the two current ones, then claim (sw.js:42-61)
  // ---------------------------------------------------------------------------

  /** The caches of the current version, which activation keeps. */
  predicate Kept(name: CacheName) {
    name == STATIC_CACHE || name == DYNAMIC_CACHE
  }

  /** The storage after visiting `keys` in order and deleting each one not kept. */
  function PruneAll(s: Store, keys: seq<CacheName>): (r: Store)
    requires s.Valid()
    ensures r.Valid()
    decreases |keys|
  {
    if keys == [] then s
    else
      var init, key := keys[..|keys| - 1], keys[|keys| - 1];
      var prior := PruneAll(s, init);
      if Kept(key) then prior else Delete(prior, key)
  }

  /** Pruning removes exactly the visited caches that are not kept, and leaves the
      contents of every other cache alone. */
  lemma {:induction false} PruneAllRemovesStale(s: Store, keys: seq<CacheName>)
    requires s.Valid()
    ensures var r := PruneAll(s, keys);
      && (forall n :: n in r.caches <==> n in s.caches && (Kept(n) || n !in keys))
      && (forall n :: n in r.caches ==> r.caches[n] == s.caches[n])
    decreases |keys|
  {
    if keys != [] {
      var init, key := keys[..|keys| - 1], keys[|keys| - 1];
      assert keys == init + [key];
      PruneAllRemovesStale(s, init);
    }
  }

  /** The deletions made while visiting `keys`, in order. */
  function DeleteEvents(keys: seq<CacheName>): seq<Event>
    decreases |keys|
  {
    if keys == [] then []
    else
      var init, key := keys[..|keys| - 1], keys[|keys| - 1];
      DeleteEvents(init) + (if Kept(key) then [] else [CacheDelete(key)])
  }

  /** Visiting one more name extends the pruning and its effects by that name alone. */
  lemma PruneAllSnoc(s: Store, keys: seq<CacheName>, key: CacheName)
    requires s.Valid()
    ensures PruneAll(s, keys + [key]) == if Kept(key) then PruneAll(s, keys) else Delete(PruneAll(s, keys), key)
    ensures DeleteEvents(keys + [key]) == DeleteEvents(keys) + if Kept(key) then [] else [CacheDelete(key)]
  {
  }

  lemma {:induction false} DeleteEventsAre(keys: seq<CacheName>, e: Event)
    ensures e in DeleteEvents(keys) <==> e.CacheDelete? && e.cache in keys && !Kept(e.cache)
    decreases |keys|
  {
    if keys != [] {
      var init, key := keys[..|keys| - 1], keys[|keys| - 1];
      assert keys == init + [key];
      DeleteEventsAre(init, e);
    }
  }

  /** The activate handler: every cache of the old version is deleted, then the
      worker claims its clients. */
  function ActivateStep(s: Store): (st: Step<()>)
    requires s.Valid()
    ensures st.store.Valid()
  {
    Step((), PruneAll(s, s.order), DeleteEvents(s.order) + [ClaimClients])
  }

  /** After activation the caches are exactly those of before that are named
      `static-v2` or `dynamic-v2`, with their contents untouched. */
  lemma ActivateKeepsCurrentCaches(s: Store)
    requires s.Valid()
    ensures var r := ActivateStep(s).store;
      && r.caches.Keys == s.caches.Keys * {STATIC_CACHE, DYNAMIC_CACHE}
      && forall n :: n in r.caches ==> r.caches[n] == s.caches[n]
  {
    PruneAllRemovesStale(s, s.order);
  }

  /** Clients are claimed once, last, after every stale cache has been deleted;
      no other effect happens during activation. */
  lemma ActivateClaimsAfterPruning(s: Store)
    requires s.Valid()
    ensures var st := ActivateStep(s);
      && |st.events| > 0 && st.events[|st.events| - 1] == ClaimClients
      && (forall e :: e in st.events[..|st.events| - 1] ==> e.CacheDelete?)
      && (forall n :: CacheDelete(n) in st.events <==> n in s.caches && n !in st.store.caches)
  {
    var st := ActivateStep(s);
    ActivateKeepsCurrentCaches(s);
    assert st.events[..|st.events| - 1] == DeleteEvents(s.order);
    forall e | e in DeleteEvents(s.order) ensures e.CacheDelete? {
      DeleteEventsAre(s.order, e);
    }
    forall n ensures CacheDelete(n) in st.events <==> n in s.caches && n !in st.store.caches {
      DeleteEventsAre(s.order, CacheDelete(n));
    }
  }

  /** Visiting names that are kept or absent changes nothing. */
  lemma {:induction false} PruneAllNothingStale(s: Store, keys: seq<CacheName>)
    requires s.Valid()
    requires forall k :: k in keys ==> Kept(k) || k !in s.caches
    ensures PruneAll(s, keys) == s
    ensures (forall k :: k in keys ==> Kept(k)) ==> DeleteEvents(keys) == []
    decreases |keys|
  {
    if keys != [] {
      var init, key := keys[..|keys| - 1], keys[|keys| - 1];
      assert keys == init + [key];
      PruneAllNothingStale(s, init);
    }
  }

  /** Activating a second time deletes nothing: it only claims the clients again. */
  lemma ActivateIdempotent(s: Store)
    requires s.Valid()
    ensures var once := ActivateStep(s);
      && ActivateStep(once.store).store == once.store
      && ActivateStep(once.store).events == [ClaimClients]
  {
    var once := ActivateStep(s).store;
    ActivateKeepsCurrentCaches(s);
    PruneAllNothingStale(once, once.order);
  }

  // ---------------------------------------------------------------------------
  // Install: seed the static cache, then skip waiting (sw.js:21-38)
  // ---------------------------------------------------------------------------

  /** The network's answer for `url` in `net`; a URL absent from `net` is unreachable. */
  function Fetched(net: map<Url, NetworkResult>, url: Url): NetworkResult {
    if url in net then net[url] else Fail
  }

  /** `cache.addAll` accepts a response only when it arrived with an ok status
      (200 to 299) other than 206 Partial Content. */
  predicate Accepted(r: NetworkResult) {
    r.Ok? && 200 <= r.response.status <= 299 && r.response.status != 206
  }

  /** `cache.addAll(urls)` succeeds: no URL is listed twice (a batch that repeats a
      request is rejected) and every URL's response is accepted. */
  ghost predicate AllAccepted(net: map<Url, NetworkResult>, urls: seq<Url>) {
    && NoDuplicates(urls)
    && forall u :: u in urls ==> Accepted(Fetched(net, u))
  }

  /** What `cache.addAll(urls)` stores: every URL's response when the batch is
      accepted, and nothing at all as soon as a URL repeats or a response is not. */
  function AddAll(net: map<Url, NetworkResult>, urls: seq<Url>): (r: Option<map<Url, Response>>)
    ensures r.Some? <==> AllAccepted(net, urls)
    ensures r.Some? ==> r.value.Keys == set u | u in urls
    ensures r.Some? ==> forall u :: u in r.value ==> Ok(r.value[u]) == Fetched(net, u)
    decreases |urls|
  {
    if urls == [] then Some(map[])
    else
      assert urls == [urls[0]] + urls[1..];
      NoDuplicatesCons(urls[0], urls[1..]);
      if urls[0] in urls[1..] || !Accepted(Fetched(net, urls[0])) then None
      else
        match AddAll(net, urls[1..])
        case None => None
        case Some(rest) => Some(rest[urls[0] := Fetched(net, urls[0]).response])
  }

  /** The worker's asset list names no URL twice, so its `addAll` succeeds exactly
      when every asset's response is accepted. */
  lemma FilesToCacheAcceptedIff(net: map<Url, NetworkResult>)
    ensures AllAccepted(net, FILES_TO_CACHE) <==> forall u :: u in FILES_TO_CACHE ==> Accepted(Fetched(net, u))
  {
    FilesToCacheDistinct();
  }

  /** No URL appears twice in `FILES_TO_CACHE`. */
  lemma FilesToCacheDistinct()
    ensures NoDuplicates(FILES_TO_CACHE)
  {
  }

  /** The install handler seeding the asset list `files` (the worker passes
      `FILES_TO_CACHE`): `static-v2` is opened, `files` is added to it, and only if
      that succeeded is skipping the waiting phase requested. A failure is
      swallowed, so the handler never fails. */
  function InstallStep(s: Store, files: seq<Url>, net: map<Url, NetworkResult>): (st: Step<()>)
    requires s.Valid()
    ensures st.store.Valid()
  {
    var withStatic := Open(s, STATIC_CACHE);
    match AddAll(net, files)
    case Some(entries) =>
      Step((), PutBatch(withStatic, STATIC_CACHE, entries),
           [CacheAddAll(STATIC_CACHE), SkipWaiting])
    case None => Step((), withStatic, [])
  }

  /** A successful install leaves every listed asset in `static-v2` with the response
      the network gave for it, creates no cache but `static-v2`, touches no other entry,
      and asks to skip waiting last. */
  lemma InstallSeedsStaticCache(s: Store, files: seq<Url>, net: map<Url, NetworkResult>)
    requires s.Valid()
    requires AllAccepted(net, files)
    ensures var st := InstallStep(s, files, net);
      && (forall u :: u in files ==>
            Entry(st.store, STATIC_CACHE, u).Some? && Ok(Entry(st.store, STATIC_CACHE, u).value) == Fetched(net, u))
      && st.store.caches.Keys == s.caches.Keys + {STATIC_CACHE}
      && (forall n, u :: n != STATIC_CACHE || u !in files ==> Entry(st.store, n, u) == Entry(s, n, u))
      && st.events == [CacheAddAll(STATIC_CACHE), SkipWaiting]
  {
  }

  /** A failed install is swallowed: `static-v2` exists but no entry of any cache
      changed, and skipping the waiting phase is not requested. */
  lemma InstallFailureSwallowed(s: Store, files: seq<Url>, net: map<Url, NetworkResult>)
    requires s.Valid()
    requires !AllAccepted(net, files)
    ensures var st := InstallStep(s, files, net);
      && st.store.caches.Keys == s.caches.Keys + {STATIC_CACHE}
      && (forall n, u :: Entry(st.store, n, u) == Entry(s, n, u))
      && SkipWaiting !in st.events
  {
  }

  /** Install asks to skip waiting exactly when every listed asset was accepted. */
  lemma InstallSkipsWaitingIffSeeded(s: Store, files: seq<Url>, net: map<Url, NetworkResult>)
    requires s.Valid()
    ensures SkipWaiting in InstallStep(s, files, net).events <==> AllAccepted(net, files)
  {
  }

  /** After a successful install and an activation, a document request is always
      answered with something even when the network is down: its own cached copy,
      or the application shell `./index.html` from `static-v2`. */
  lemma OfflineShellAfterInstall(s: Store, net: map<Url, NetworkResult>, req: Request)
    requires s.Valid()
    requires AllAccepted(net, FILES_TO_CACHE)
    requires Intercepts(req) && req.destination == "document"
    ensures var ready := ActivateStep(InstallStep(s, FILES_TO_CACHE, net).store).store;
      var st := FetchStep(ready, req, Fail);
      st.result.RespondWith? && st.result.response.Some?
  {
    OfflinePageListed();
    ShellAfterInstall(s, FILES_TO_CACHE, net, req);
  }

  /** The offline page is one of the assets seeded at install time. */
  lemma OfflinePageListed()
    ensures OFFLINE_PAGE in FILES_TO_CACHE
  {
  }

  lemma ShellAfterInstall(s: Store, files: seq<Url>, net: map<Url, NetworkResult>, req: Request)
    requires s.Valid()
    requires OFFLINE_PAGE in files && AllAccepted(net, files)
    requires Intercepts(req) && req.destination == "document"
    ensures var ready := ActivateStep(InstallStep(s, files, net).store).store;
      var st := FetchStep(ready, req, Fail);
      st.result.RespondWith? && st.result.response.Some?
  {
    var installed := InstallStep(s, files, net).store;
    InstallSeedsStaticCache(s, files, net);
    assert Entry(installed, STATIC_CACHE, OFFLINE_PAGE).Some?;
    var ready := ActivateStep(installed).store;
    ActivateKeepsCurrentCaches(installed);
    assert Entry(ready, STATIC_CACHE, OFFLINE_PAGE).Some?;
    if !Cached(ready, req.url) {
      FetchOffline(ready, req);
    }
  }

  // ---------------------------------------------------------------------------
  // Message: the control channel (sw.js:103-108)
  // ---------------------------------------------------------------------------

  /** The JavaScript values a message can carry (numbers restricted to integers). */
  datatype JsValue =
    | Undefined
    | Null
    | Bool(b: bool)
    | Number(n: int)
    | Str(s: string)
    | Object(props: map<string, JsValue>)

  /** JavaScript truthiness. */
  predicate Truthy(v: JsValue) {
    match v
    case Undefined => false
    case Null => false
    case Bool(b) => b
    case Number(n) => n != 0
    case Str(s) => s != ""
    case Object(_) => true
  }

  /** `v.key`, which is `undefined` on a value that is not an object or lacks the key. */
  function Property(v: JsValue, key: string): JsValue
    requires Truthy(v)
  {
    if v.Object? && key in v.props then v.props[key] else Undefined
  }

  /** `data && data.type === 'SKIP_WAITING'`: only an object whose `type` is that
      exact string asks for the waiting phase to be skipped. */
  function RequestsSkipWaiting(data: JsValue): (r: bool)
    ensures r <==> data.Object? && "type" in data.props && data.props["type"] == Str(SKIP_WAITING_TYPE)
  {
    Truthy(data) && Property(data, "type") == Str(SKIP_WAITING_TYPE)
  }
}
