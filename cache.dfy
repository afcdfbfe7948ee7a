/**
 * The process-wide response cache of src/index.ts (`caches.open(...)`) and the
 * cache-aside lookup `getArticles` performs for each detail URL: answer from
 * the cache when it holds the URL, otherwise fetch and store the response
 * whatever its status. A lookup puts only on a miss, so the lookups of one
 * request never remove or replace an entry.
 */
module Cache {
  import opened Wrappers
  import opened Zenn

  /** Nothing stored under `before` is removed or changed in `after`. */
  predicate Extends(before: map<Url, Response>, after: map<Url, Response>)
  {
    forall u :: u in before ==> u in after && after[u] == before[u]
  }

  /** `after` extends `before` only with responses the detail endpoint gave for the new URLs. */
  predicate GrownFrom(before: map<Url, Response>, after: map<Url, Response>, net: DetailApi)
  {
    && Extends(before, after)
    && forall u :: u in after && u !in before ==> net(u).Success? && after[u] == net(u).value
  }

  /** The outcome of one lookup: the response (or the fetch's failure), the cache
      afterwards, and whether a network request was made. */
  datatype Lookup = Lookup(response: Result<Response, Error>, entries: map<Url, Response>, requested: bool)

  /** Cache-aside read of `url`: `cache.match(url)`, and on a miss `fetch(url)` followed
      by `cache.put(url, res.clone())`. */
  function CacheAside(entries: map<Url, Response>, url: Url, net: DetailApi): (l: Lookup)
    ensures GrownFrom(entries, l.entries, net)
    ensures l.entries.Keys <= entries.Keys + {url}
    ensures l.requested <==> url !in entries
    ensures !l.requested ==> l.response == Success(entries[url]) && l.entries == entries
    ensures l.requested ==> l.response == net(url)
    ensures l.requested && net(url).Success? ==> l.entries == entries[url := net(url).value]
    ensures l.response.Success? <==> url in l.entries
    ensures l.response.Success? ==> l.entries[url] == l.response.value
  {
    if url in entries then Lookup(Success(entries[url]), entries, false)
    else
      match net(url)
      case Failure(e) => Lookup(Failure(e), entries, true)
      case Success(res) => Lookup(Success(res), entries[url := res], true)
  }

  /** A response, whatever its status, is fetched once: every later lookup of its URL
      answers with it from the cache and makes no request. */
  lemma FetchedResponseServedAgain(entries: map<Url, Response>, url: Url, net: DetailApi, more: seq<Url>)
    requires url !in entries && net(url).Success?
    ensures var first := CacheAside(entries, url, net);
      && first.requested
      && first.response == net(url)
      && var later := Replay(first.entries, more, net);
         && url in later
         && CacheAside(later, url, net) == Lookup(net(url), later, false)
  {
    var first := CacheAside(entries, url, net);
    ReplayExtends(first.entries, more, net);
  }

  /** The cache after the lookups of `urls`, in order. */
  function Replay(entries: map<Url, Response>, urls: seq<Url>, net: DetailApi): map<Url, Response>
    decreases |urls|
  {
    if urls == [] then entries else Replay(CacheAside(entries, urls[0], net).entries, urls[1..], net)
  }

  lemma {:induction false} ReplayExtends(entries: map<Url, Response>, urls: seq<Url>, net: DetailApi)
    ensures Extends(entries, Replay(entries, urls, net))
    decreases |urls|
  {
    if urls != [] {
      var next := CacheAside(entries, urls[0], net).entries;
      ReplayExtends(next, urls[1..], net);
    }
  }

  class ResponseCache {
    var entries: map<Url, Response>

    /** `caches.open(...)` on a store that holds nothing yet. */
    constructor ()
      ensures entries == map[]
    {
      entries := map[];
    }

    /** `cache.match(url)`: the stored response, if any. */
    method Match(url: Url) returns (r: Option<Response>)
      ensures url in entries <==> r.Some?
      ensures r.Some? ==> r.value == entries[url]
    {
      if url in entries {
        r := Some(entries[url]);
      } else {
        r := None;
      }
    }

    /** `cache.put(url, res)`. */
    method Put(url: Url, res: Response)
      modifies this
      ensures entries == old(entries)[url := res]
    {
      entries := entries[url := res];
    }

    /** The cache-aside lookup of one detail URL. A hit returns the stored response and
        makes no request; a miss makes one request and, if it resolves, stores the
        response whatever its status; entries already stored never change. */
    method Fetch(url: Url, net: DetailApi) returns (r: Result<Response, Error>, ghost requested: bool)
      modifies this
      ensures Lookup(r, entries, requested) == CacheAside(old(entries), url, net)
      ensures Extends(old(entries), entries)
    {
      var hit := Match(url);
      if hit.Some? {
        r, requested := Success(hit.value), false;
        return;
      }
      requested := true;
      r := net(url);
      if r.Success? {
        Put(url, r.value);
      }
    }
  }
}
