/**
 * `getArticles` (src/index.ts): the page walk, then one cache-aside detail lookup
 * per slug, collected with `Promise.all`.
 *
 * `Promise.all` starts every lookup and resolves to the articles in slug order,
 * or rejects as soon as one lookup rejects; the lookups already started still run
 * and still fill the cache. The model performs the lookups one after another in
 * slug order, all of them, and then fails if any item failed.
 */
module Details {
  import opened Wrappers
  import opened Zenn
  import opened Cache
  import opened Pagination

  /** The per-slug outcomes, the cache afterwards, and the detail URLs requested from
      the network, in order. */
  datatype Collected = Collected(items: seq<Result<Article, Error>>, entries: map<Url, Response>, requests: seq<Url>)

  /** One lookup's article: the response's `article`, or the reason there is none. */
  function Item(r: Result<Response, Error>): Result<Article, Error>
  {
    match r
    case Failure(e) => Failure(e)
    case Success(res) => ReadArticle(res)
  }

  /** The lookups for `slugs`, in order, starting from the cache `entries`. */
  function Collect(entries: map<Url, Response>, slugs: seq<Slug>, net: DetailApi): Collected
  {
    if slugs == [] then Collected([], entries, [])
    else
      var prev := Collect(entries, slugs[..|slugs| - 1], net);
      var url := DetailUrl(slugs[|slugs| - 1]);
      var l := CacheAside(prev.entries, url, net);
      Collected(prev.items + [Item(l.response)], l.entries,
                prev.requests + if l.requested then [url] else [])
  }

  /** `Promise.all` over the items: every article, in order, or the first failure. */
  function AllArticles(items: seq<Result<Article, Error>>): (r: Result<seq<Article>, Error>)
    ensures r.Success? <==> forall k :: 0 <= k < |items| ==> items[k].Success?
    ensures r.Success? ==> |r.value| == |items| && forall k :: 0 <= k < |items| ==> r.value[k] == items[k].value
    ensures r.Failure? ==> exists k :: 0 <= k < |items| && items[k] == Failure(r.error) &&
                                    forall j :: 0 <= j < k ==> items[j].Success?
  {
    if items == [] then Success([])
    else
      match items[0]
      case Failure(e) => Failure(e)
      case Success(a) =>
        match AllArticles(items[1..])
        case Failure(e) => Failure(e)
        case Success(rest) => Success([a] + rest)
  }

  /** `u` is the detail URL of one of `slugs`. */
  predicate IsDetailUrlOf(u: Url, slugs: seq<Slug>)
  {
    DetailPrefix <= u && u[|DetailPrefix|..] in slugs
  }

  /** What a slug's item is, read off the cache after the lookups: the cached article
      if its URL is cached, otherwise the failure the network gave. */
  function Resolve(entries: map<Url, Response>, net: DetailApi, u: Url): Result<Article, Error>
  {
    if u in entries then Item(Success(entries[u])) else Item(net(u))
  }

  /** Growing the cache with fetched responses does not change what a URL resolves to. */
  lemma ResolveLatest(before: map<Url, Response>, after: map<Url, Response>, net: DetailApi, u: Url)
    requires GrownFrom(before, after, net)
    ensures Resolve(after, net, u) == Resolve(before, net, u)
  {
    if u in after && u !in before {
      assert after[u] == net(u).value;
    }
  }

  /**
   * The lookups yield one item per slug, in slug order, each what the final cache
   * (or, for a URL that could not be fetched, the network's failure) says about its
   * slug; the cache only gains the responses fetched for these slugs' URLs, and
   * gains every URL whose fetch resolved; a request is made only for a URL the
   * cache did not hold at the start.
   */
  lemma CollectFacts(entries: map<Url, Response>, slugs: seq<Slug>, net: DetailApi)
    ensures var c := Collect(entries, slugs, net);
      && |c.items| == |slugs|
      && GrownFrom(entries, c.entries, net)
      && (forall k :: 0 <= k < |slugs| ==> c.items[k] == Resolve(c.entries, net, DetailUrl(slugs[k])))
      && (forall u :: u in c.entries <==> u in entries || (IsDetailUrlOf(u, slugs) && net(u).Success?))
      && (forall i :: 0 <= i < |c.requests| ==> c.requests[i] !in entries && IsDetailUrlOf(c.requests[i], slugs))
      && (forall k :: 0 <= k < |slugs| && DetailUrl(slugs[k]) !in entries ==> DetailUrl(slugs[k]) in c.requests)
  {
    CollectItems(entries, slugs, net);
    CollectKeys(entries, slugs, net);
    CollectRequests(entries, slugs, net);
    CollectRequestsEveryMiss(entries, slugs, net);
  }

  /** The detail URLs of `init + [last]` are those of `init` and that of `last`. */
  lemma DetailUrlOfSnoc(u: Url, init: seq<Slug>, last: Slug)
    ensures IsDetailUrlOf(u, init + [last]) <==> IsDetailUrlOf(u, init) || u == DetailUrl(last)
  {
    if u == DetailUrl(last) {
      assert u[|DetailPrefix|..] == last;
    }
    if IsDetailUrlOf(u, init + [last]) && !IsDetailUrlOf(u, init) {
      assert u == DetailPrefix + u[|DetailPrefix|..];
    }
  }

  /** One item per slug, each resolved against the final cache, which grew only by fetched responses. */
  lemma {:induction false} CollectItems(entries: map<Url, Response>, slugs: seq<Slug>, net: DetailApi)
    ensures var c := Collect(entries, slugs, net);
      && |c.items| == |slugs|
      && GrownFrom(entries, c.entries, net)
      && (forall k :: 0 <= k < |slugs| ==> c.items[k] == Resolve(c.entries, net, DetailUrl(slugs[k])))
  {
    if slugs != [] {
      var init := slugs[..|slugs| - 1];
      var prev := Collect(entries, init, net);
      var l := CacheAside(prev.entries, DetailUrl(slugs[|slugs| - 1]), net);
      var c := Collect(entries, slugs, net);
      CollectItems(entries, init, net);
      assert c.items == prev.items + [Item(l.response)] && c.entries == l.entries;
      forall k | 0 <= k < |init|
        ensures c.items[k] == Resolve(c.entries, net, DetailUrl(slugs[k]))
      {
        assert slugs[k] == init[k];
        ResolveLatest(prev.entries, l.entries, net, DetailUrl(slugs[k]));
      }
    }
  }

  /** The final cache holds the URLs it held, and the slugs' URLs whose fetch resolved. */
  lemma {:induction false} CollectKeys(entries: map<Url, Response>, slugs: seq<Slug>, net: DetailApi)
    ensures var c := Collect(entries, slugs, net);
      forall u :: u in c.entries <==> u in entries || (IsDetailUrlOf(u, slugs) && net(u).Success?)
  {
    if slugs != [] {
      var init := slugs[..|slugs| - 1];
      var last := slugs[|slugs| - 1];
      var prev := Collect(entries, init, net);
      var c := Collect(entries, slugs, net);
      CollectKeys(entries, init, net);
      assert c.entries == CacheAside(prev.entries, DetailUrl(last), net).entries;
      assert slugs == init + [last];
      forall u ensures u in c.entries <==> u in entries || (IsDetailUrlOf(u, slugs) && net(u).Success?) {
        DetailUrlOfSnoc(u, init, last);
      }
    }
  }

  /** Requests go only to the slugs' URLs that were not cached at the start. */
  lemma {:induction false} CollectRequests(entries: map<Url, Response>, slugs: seq<Slug>, net: DetailApi)
    ensures var c := Collect(entries, slugs, net);
      forall i :: 0 <= i < |c.requests| ==> c.requests[i] !in entries && IsDetailUrlOf(c.requests[i], slugs)
  {
    if slugs != [] {
      var init := slugs[..|slugs| - 1];
      var last := slugs[|slugs| - 1];
      var prev := Collect(entries, init, net);
      var url := DetailUrl(last);
      var l := CacheAside(prev.entries, url, net);
      var c := Collect(entries, slugs, net);
      CollectRequests(entries, init, net);
      CollectItems(entries, init, net);
      assert c.requests == prev.requests + if l.requested then [url] else [];
      assert slugs == init + [last];
      forall i | 0 <= i < |c.requests|
        ensures c.requests[i] !in entries && IsDetailUrlOf(c.requests[i], slugs)
      {
        DetailUrlOfSnoc(c.requests[i], init, last);
        if i < |prev.requests| {
          assert c.requests[i] == prev.requests[i];
        }
      }
    }
  }

  /** Every slug whose URL was not cached at the start has its URL requested, and every
      URL the cache gained was requested. */
  lemma {:induction false} CollectRequestsEveryMiss(entries: map<Url, Response>, slugs: seq<Slug>, net: DetailApi)
    ensures var c := Collect(entries, slugs, net);
      && (forall u :: u in c.entries && u !in entries ==> u in c.requests)
      && (forall k :: 0 <= k < |slugs| && DetailUrl(slugs[k]) !in entries ==> DetailUrl(slugs[k]) in c.requests)
  {
    if slugs != [] {
      var init := slugs[..|slugs| - 1];
      var prev := Collect(entries, init, net);
      var url := DetailUrl(slugs[|slugs| - 1]);
      var l := CacheAside(prev.entries, url, net);
      var c := Collect(entries, slugs, net);
      CollectRequestsEveryMiss(entries, init, net);
      assert c.entries == l.entries;
      assert c.requests == prev.requests + if l.requested then [url] else [];
      assert forall u :: u in prev.requests ==> u in c.requests;
      forall k | 0 <= k < |slugs| && DetailUrl(slugs[k]) !in entries
        ensures DetailUrl(slugs[k]) in c.requests
      {
        if k < |init| {
          assert slugs[k] == init[k];
        } else if url in prev.entries {
          assert url in prev.requests;
        }
      }
    }
  }

  /** With every slug's URL already cached, the lookups make no request, leave the cache
      as it was, and answer from it. */
  lemma WarmCacheMakesNoRequests(entries: map<Url, Response>, slugs: seq<Slug>, net: DetailApi)
    requires forall s :: s in slugs ==> DetailUrl(s) in entries
    ensures Collect(entries, slugs, net).requests == []
    ensures Collect(entries, slugs, net).entries == entries
  {
    var c := Collect(entries, slugs, net);
    CollectFacts(entries, slugs, net);
    forall u | u in c.entries ensures u in entries {
      if IsDetailUrlOf(u, slugs) {
        assert u == DetailUrl(u[|DetailPrefix|..]);
      }
    }
    assert c.entries.Keys == entries.Keys;
  }

  /** The `articles.map(...)` lookups and `Promise.all` over them. */
  method FetchDetails(cache: ResponseCache, slugs: seq<Slug>, net: DetailApi)
    returns (r: Result<seq<Article>, Error>, ghost requests: seq<Url>)
    modifies cache
    ensures var c := Collect(old(cache.entries), slugs, net);
      && cache.entries == c.entries
      && requests == c.requests
      && r == AllArticles(c.items)
  {
    var items: seq<Result<Article, Error>> := [];
    requests := [];
    for i := 0 to |slugs|
      invariant Collect(old(cache.entries), slugs[..i], net) == Collected(items, cache.entries, requests)
    {
      var url := DetailUrl(slugs[i]);
      var res, requested := cache.Fetch(url, net);
      items := items + [Item(res)];
      requests := requests + if requested then [url] else [];
      assert slugs[..i + 1][..i] == slugs[..i];
    }
    assert slugs[..|slugs|] == slugs;
    r := AllArticles(items);
  }

  /** The result of `getArticles`, the cache afterwards, the list pages requested and
      the detail URLs requested. */
  datatype Fetched = Fetched(result: Result<seq<Article>, Error>, entries: map<Url, Response>,
                             pages: seq<int>, requests: seq<Url>)

  /** What `getArticles(username)` does, starting from the cache `entries`. */
  function GetArticlesSpec(entries: map<Url, Response>, username: string, api: ListApi, net: DetailApi, fuel: nat): Fetched
    requires Paginates(api, username, fuel)
  {
    var w := ListAll(api, username, fuel);
    if w.ending.Failed? then Fetched(Failure(w.ending.error), entries, w.pages, [])
    else
      var c := Collect(entries, w.slugs, net);
      Fetched(AllArticles(c.items), c.entries, w.pages, c.requests)
  }

  /**
   * `getArticles` returns one article per slug of the walk, in slug order, each the
   * article the cache now holds for that slug; it fails exactly when the walk fails
   * or some slug's lookup or body fails. The cache keeps every earlier entry.
   */
  lemma GetArticlesFacts(entries: map<Url, Response>, username: string, api: ListApi, net: DetailApi, fuel: nat)
    requires Paginates(api, username, fuel)
    ensures var f := GetArticlesSpec(entries, username, api, net, fuel);
      var w := ListAll(api, username, fuel);
      && f.pages == w.pages
      && Extends(entries, f.entries)
      && (w.ending.Failed? ==> f.result == Failure(w.ending.error) && f.entries == entries && f.requests == [])
      && (f.result.Success? ==>
            && w.ending == Complete
            && |f.result.value| == |w.slugs|
            && forall k :: 0 <= k < |w.slugs| ==>
                 DetailUrl(w.slugs[k]) in f.entries &&
                 f.entries[DetailUrl(w.slugs[k])].article == Some(f.result.value[k]))
      && (w.ending == Complete && f.result.Failure? ==>
            exists k :: 0 <= k < |w.slugs| && Resolve(f.entries, net, DetailUrl(w.slugs[k])).Failure?)
  {
    var w := ListAll(api, username, fuel);
    if w.ending == Complete {
      var c := Collect(entries, w.slugs, net);
      CollectFacts(entries, w.slugs, net);
      var f := GetArticlesSpec(entries, username, api, net, fuel);
      if f.result.Success? {
        forall k | 0 <= k < |w.slugs|
          ensures DetailUrl(w.slugs[k]) in f.entries && f.entries[DetailUrl(w.slugs[k])].article == Some(f.result.value[k])
        {
          assert c.items[k].Success?;
          var u := DetailUrl(w.slugs[k]);
          assert IsDetailUrlOf(u, w.slugs);
        }
      } else {
        var k :| 0 <= k < |c.items| && c.items[k] == Failure(f.result.error);
        assert Resolve(f.entries, net, DetailUrl(w.slugs[k])).Failure?;
      }
    }
  }

  /** `getArticles(username)`. */
  method GetArticles(cache: ResponseCache, username: string, api: ListApi, net: DetailApi, ghost fuel: nat)
    returns (r: Result<seq<Article>, Error>, ghost pages: seq<int>, ghost requests: seq<Url>)
    requires Paginates(api, username, fuel)
    modifies cache
    ensures Fetched(r, cache.entries, pages, requests) == GetArticlesSpec(old(cache.entries), username, api, net, fuel)
  {
    var slugs;
    slugs, pages := ListSlugs(api, username, fuel);
    if slugs.Failure? {
      r, requests := Failure(slugs.error), [];
      return;
    }
    r, requests := FetchDetails(cache, slugs.value, net);
  }
}
