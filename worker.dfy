/**
  The service worker's global scope (`self` in sw.js) as an object: the cache
  storage it shares with the browser, the two lifecycle requests it can make
  (skip the waiting phase, claim the open clients) and, for the proofs, the
  trace of effects it has had so far. Each event handler is a method that
  changes these fields step by step and is proved against the step function
  of the policy that specifies it.
 */
module GlobalScope {
  import opened CacheStore
  import opened ServiceWorker

  class Worker {
    /** The caches, in creation order (`caches.keys()`). */
    var order: seq<CacheName>
    /** The contents of each cache. */
    var caches: map<CacheName, map<Url, Response>>
    /** `self.skipWaiting()` has been called. */
    var waitingSkipped: bool
    /** `self.clients.claim()` has been called. */
    var clientsClaimed: bool
    /** Every effect so far, in order. */
    ghost var trace: seq<Event>

    function Storage(): Store
      reads this
    {
      Store(order, caches)
    }

    ghost predicate Valid()
      reads this
    {
      && Storage().Valid()
      && (waitingSkipped <==> SkipWaiting in trace)
      && (clientsClaimed <==> ClaimClients in trace)
    }

    /** A worker starting on whatever caches earlier versions left behind. */
    constructor (existing: Store)
      requires existing.Valid()
      ensures Valid()
      ensures Storage() == existing && trace == []
      ensures !waitingSkipped && !clientsClaimed
    {
      order, caches := existing.order, existing.caches;
      waitingSkipped, clientsClaimed := false, false;
      trace := [];
    }

    // The platform calls the handlers make, each changing the fields directly.

    /** `caches.open(name)`. */
    method OpenCache(name: CacheName)
      requires Valid()
      modifies this
      ensures Valid()
      ensures Storage() == Open(old(Storage()), name) && trace == old(trace)
      ensures waitingSkipped == old(waitingSkipped) && clientsClaimed == old(clientsClaimed)
    {
      if name !in caches {
        order, caches := order + [name], caches[name := map[]];
      }
    }

    /** `cache.put(url, resp)` on the cache `name`, opened first. */
    method PutEntry(name: CacheName, url: Url, resp: Response)
      requires Valid()
      modifies this
      ensures Valid()
      ensures Storage() == Put(old(Storage()), name, url, resp)
      ensures trace == old(trace) + [CachePut(name, url)]
      ensures waitingSkipped == old(waitingSkipped) && clientsClaimed == old(clientsClaimed)
    {
      OpenCache(name);
      caches := caches[name := caches[name][url := resp]];
      trace := trace + [CachePut(name, url)];
    }

    /** The writes of a successful `cache.addAll` on the cache `name`, opened first. */
    method PutEntries(name: CacheName, entries: map<Url, Response>)
      requires Valid()
      modifies this
      ensures Valid()
      ensures Storage() == PutBatch(old(Storage()), name, entries)
      ensures trace == old(trace) + [CacheAddAll(name)]
      ensures waitingSkipped == old(waitingSkipped) && clientsClaimed == old(clientsClaimed)
    {
      OpenCache(name);
      caches := caches[name := caches[name] + entries];
      trace := trace + [CacheAddAll(name)];
    }

    /** `caches.delete(name)`. */
    method DeleteCache(name: CacheName)
      requires Valid()
      modifies this
      ensures Valid()
      ensures Storage() == Delete(old(Storage()), name)
      ensures trace == old(trace) + [CacheDelete(name)]
      ensures waitingSkipped == old(waitingSkipped) && clientsClaimed == old(clientsClaimed)
    {
      order, caches := Without(order, name), caches - {name};
      trace := trace + [CacheDelete(name)];
    }

    /** `self.skipWaiting()`. */
    method RequestSkipWaiting()
      requires Valid()
      modifies this
      ensures Valid()
      ensures Storage() == old(Storage()) && trace == old(trace) + [SkipWaiting]
      ensures waitingSkipped && clientsClaimed == old(clientsClaimed)
    {
      waitingSkipped := true;
      trace := trace + [SkipWaiting];
    }

    /** `self.clients.claim()`. */
    method ClaimAllClients()
      requires Valid()
      modifies this
      ensures Valid()
      ensures Storage() == old(Storage()) && trace == old(trace) + [ClaimClients]
      ensures clientsClaimed && waitingSkipped == old(waitingSkipped)
    {
      clientsClaimed := true;
      trace := trace + [ClaimClients];
    }

    /** The `install` handler (sw.js:21-38); `net` is what the network answers for each URL. */
    method Install(net: map<Url, NetworkResult>)
      requires Valid()
      modifies this
      ensures Valid()
      ensures var st := InstallStep(old(Storage()), FILES_TO_CACHE, net);
        Storage() == st.store && trace == old(trace) + st.events
      ensures waitingSkipped == (old(waitingSkipped) || AllAccepted(net, FILES_TO_CACHE))
      ensures clientsClaimed == old(clientsClaimed)
    {
      Seed(FILES_TO_CACHE, net);
    }

    /** The promise chain of the install handler for the asset list `files`:
        open `static-v2`, add `files` to it, and only then ask to skip waiting;
        a rejected `addAll` ends the chain with nothing more done. */
    method Seed(files: seq<Url>, net: map<Url, NetworkResult>)
      requires Valid()
      modifies this
      ensures Valid()
      ensures var st := InstallStep(old(Storage()), files, net);
        Storage() == st.store && trace == old(trace) + st.events
      ensures waitingSkipped == (old(waitingSkipped) || AllAccepted(net, files))
      ensures clientsClaimed == old(clientsClaimed)
    {
      OpenCache(STATIC_CACHE);
      var added := AddAll(net, files);
      if added.Some? {
        PutEntries(STATIC_CACHE, added.value);
        RequestSkipWaiting();
      }
    }

    /** The body of `keys.map(...)` in the activate handler (sw.js:47-55): visit
        each name in turn and delete the cache if it is not a current one. */
    method DeleteStale(keys: seq<CacheName>)
      requires Valid()
      modifies this
      ensures Valid()
      ensures Storage() == PruneAll(old(Storage()), keys)
      ensures trace == old(trace) + DeleteEvents(keys)
      ensures waitingSkipped == old(waitingSkipped) && clientsClaimed == old(clientsClaimed)
    {
      var i := 0;
      while i < |keys|
        invariant 0 <= i <= |keys|
        invariant Valid()
        invariant Storage() == PruneAll(old(Storage()), keys[..i])
        invariant trace == old(trace) + DeleteEvents(keys[..i])
        invariant waitingSkipped == old(waitingSkipped) && clientsClaimed == old(clientsClaimed)
      {
        var key := keys[i];
        assert keys[..i + 1] == keys[..i] + [key];
        PruneAllSnoc(old(Storage()), keys[..i], key);
        if !Kept(key) {
          DeleteCache(key);
        }
        i := i + 1;
      }
      assert keys[..i] == keys;
    }

    /** The `activate` handler (sw.js:42-61): delete every cache that is not a
        current one, then claim the clients. */
    method Activate()
      requires Valid()
      modifies this
      ensures Valid()
      ensures var st := ActivateStep(old(Storage()));
        Storage() == st.store && trace == old(trace) + st.events
      ensures clientsClaimed && waitingSkipped == old(waitingSkipped)
    {
      var keys := order;
      DeleteStale(keys);
      ClaimAllClients();
    }

    /** The `fetch` handler (sw.js:65-99); `net` is what the network would answer. */
    method HandleFetch(req: Request, net: NetworkResult) returns (reply: Reply)
      requires Valid()
      modifies this
      ensures Valid()
      ensures var st := FetchStep(old(Storage()), req, net);
        reply == st.result && Storage() == st.store && trace == old(trace) + st.events
      ensures waitingSkipped == old(waitingSkipped) && clientsClaimed == old(clientsClaimed)
    {
      if !Intercepts(req) {
        return Fallthrough;
      }
      var cached := Match(Storage(), req.url);
      if cached.Some? {
        return RespondWith(cached);
      }
      trace := trace + [NetworkFetch(req.url)];
      match net
      case Ok(resp) =>
        if resp.status == 200 {
          PutEntry(DYNAMIC_CACHE, req.url, resp);
        }
        reply := RespondWith(Some(resp));
      case Fail =>
        if req.destination == "document" {
          reply := RespondWith(Match(Storage(), OFFLINE_PAGE));
        } else {
          reply := RespondWith(None);
        }
    }

    /** The `message` handler (sw.js:103-108). */
    method OnMessage(data: JsValue)
      requires Valid()
      modifies this
      ensures Valid()
      ensures Storage() == old(Storage())
      ensures trace == old(trace) + (if RequestsSkipWaiting(data) then [SkipWaiting] else [])
      ensures waitingSkipped == (old(waitingSkipped) || RequestsSkipWaiting(data))
      ensures clientsClaimed == old(clientsClaimed)
    {
      if RequestsSkipWaiting(data) {
        RequestSkipWaiting();
      }
    }
  }
}
