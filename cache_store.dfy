/**
  The browser's Cache Storage as the service worker sees it, modelled as a value:
  a set of named caches, each mapping a request URL to the response stored for
  it, together with the order in which the caches were created (the order in
  which `caches.keys()` reports them and `caches.match` consults them).
 */
module CacheStore {

  type CacheName = string
  type Url = string

  /** What `caches.match` resolves to: a stored response, or `undefined`. */
  datatype Option<T> = None | Some(value: T)

  /** A response as far as the worker looks at it: its HTTP status and its body. */
  datatype Response = Response(status: int, body: string)

  datatype Store = Store(order: seq<CacheName>, caches: map<CacheName, map<Url, Response>>)
  {
    /** `order` lists every existing cache, each exactly once. */
    ghost predicate Valid() {
      && (forall n :: n in order <==> n in caches)
      && NoDuplicates(order)
    }
  }

  ghost predicate NoDuplicates(names: seq<CacheName>) {
    forall i, j :: 0 <= i < j < |names| ==> names[i] != names[j]
  }

  /** The response cache `name` holds for `url`, if that cache exists and holds one. */
  function Entry(s: Store, name: CacheName, url: Url): Option<Response> {
    if name in s.caches && url in s.caches[name] then Some(s.caches[name][url]) else None
  }

  /** Some cache of the store holds a response for `url`. */
  ghost predicate Cached(s: Store, url: Url) {
    exists name :: Entry(s, name, url).Some?
  }

  /** `names` with `name` taken out, the others kept in their order. */
  function Without(names: seq<CacheName>, name: CacheName): (r: seq<CacheName>)
    ensures forall n :: n in r <==> n in names && n != name
    ensures NoDuplicates(names) ==> NoDuplicates(r)
    ensures name !in names ==> r == names
  {
    if names == [] then []
    else if names[0] == name then Without(names[1..], name)
    else
      var rest := Without(names[1..], name);
      assert names == [names[0]] + names[1..];
      NoDuplicatesCons(names[0], names[1..]);
      NoDuplicatesCons(names[0], rest);
      [names[0]] + rest
  }

  lemma NoDuplicatesCons(x: CacheName, t: seq<CacheName>)
    ensures NoDuplicates([x] + t) <==> x !in t && NoDuplicates(t)
  {
    var s := [x] + t;
    if NoDuplicates(s) {
      forall i, j | 0 <= i < j < |t| ensures t[i] != t[j] {
        assert s[i + 1] == t[i] && s[j + 1] == t[j];
      }
      forall i | 0 <= i < |t| ensures t[i] != x {
        assert s[0] == x && s[i + 1] == t[i];
      }
    }
  }

  /** `caches.open(name)`: the cache is created, empty and last in order, if it did not exist. */
  function Open(s: Store, name: CacheName): (r: Store)
    requires s.Valid()
    ensures r.Valid()
    ensures r.caches.Keys == s.caches.Keys + {name}
    ensures forall n, url :: n in s.caches ==> Entry(r, n, url) == Entry(s, n, url)
    ensures forall url :: name !in s.caches ==> Entry(r, name, url) == None
    ensures name in s.caches ==> r == s
  {
    if name in s.caches then s
    else Store(s.order + [name], s.caches[name := map[]])
  }

  /** `cache.put(url, resp)` on the cache `name` (opened first): the entry for `url`
      becomes `resp` whatever it was; every other entry of every cache stays. */
  function Put(s: Store, name: CacheName, url: Url, resp: Response): (r: Store)
    requires s.Valid()
    ensures r.Valid()
    ensures r.caches.Keys == s.caches.Keys + {name}
    ensures Entry(r, name, url) == Some(resp)
    ensures forall n, u :: (n, u) != (name, url) ==> Entry(r, n, u) == Entry(s, n, u)
  {
    var o := Open(s, name);
    Store(o.order, o.caches[name := o.caches[name][url := resp]])
  }

  /** `cache.addAll` once every response has been accepted: all of `entries` are
      stored in the cache `name` (opened first) in one batch, overwriting older
      entries under the same URLs; nothing else changes. */
  function PutBatch(s: Store, name: CacheName, entries: map<Url, Response>): (r: Store)
    requires s.Valid()
    ensures r.Valid()
    ensures r.caches.Keys == s.caches.Keys + {name}
    ensures forall url :: url in entries ==> Entry(r, name, url) == Some(entries[url])
    ensures forall n, u :: (n != name || u !in entries) ==> Entry(r, n, u) == Entry(s, n, u)
  {
    var o := Open(s, name);
    Store(o.order, o.caches[name := o.caches[name] + entries])
  }

  /** `caches.delete(name)`: that cache and all its entries disappear; the others stay. */
  function Delete(s: Store, name: CacheName): (r: Store)
    requires s.Valid()
    ensures r.Valid()
    ensures r.caches.Keys == s.caches.Keys - {name}
    ensures forall n :: n in r.caches ==> r.caches[n] == s.caches[n]
    ensures name !in s.caches ==> r == s
  {
    Store(Without(s.order, name), s.caches - {name})
  }

  /** The first cache of `names` that holds `url` answers. */
  function MatchIn(names: seq<CacheName>, s: Store, url: Url): (r: Option<Response>)
    ensures r.Some? <==> exists n :: n in names && Entry(s, n, url).Some?
    ensures r.Some? ==> exists n :: n in names && Entry(s, n, url) == r
  {
    if names == [] then None
    else if Entry(s, names[0], url).Some? then Entry(s, names[0], url)
    else
      var r := MatchIn(names[1..], s, url);
      assert forall n :: n in names[1..] ==> n in names;
      assert forall n :: n in names ==> n == names[0] || n in names[1..];
      r
  }

  /** `caches.match(url)`: a response some cache holds for `url`, or nothing when no
      cache holds one. Which cache answers when several do is left to the platform;
      here it is the first in creation order. */
  function Match(s: Store, url: Url): (r: Option<Response>)
    requires s.Valid()
    ensures r.Some? <==> Cached(s, url)
    ensures r.Some? ==> exists n :: Entry(s, n, url) == r
  {
    MatchIn(s.order, s, url)
  }

  /** A URL held by exactly one cache is answered by that cache. */
  lemma MatchSole(s: Store, name: CacheName, url: Url)
    requires s.Valid()
    requires Entry(s, name, url).Some?
    requires forall n :: n != name ==> Entry(s, n, url) == None
    ensures Match(s, url) == Entry(s, name, url)
  {
  }
}
