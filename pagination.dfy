/**
 * The page walk at the start of `getArticles` (src/index.ts): fetch page 1,
 * append its slugs, move to `next_page`, and stop after the first page whose
 * `next_page` is null. A failed page makes the whole call fail.
 *
 * The source puts no bound on the number of pages. Walk therefore takes a fuel
 * bound and reports Unfinished when it runs out; ListSlugs takes the bound as a
 * ghost parameter and requires that the walk ends within it, which is what the
 * source relies on the upstream for. The lemma WalkFuelIrrelevant shows that
 * the bound does not change the outcome once it is large enough.
 */
module Pagination {
  import opened Wrappers
  import opened Zenn

  /** How a walk over the pages ended. */
  datatype Ending = Complete | Failed(error: Error) | Unfinished

  /** The pages requested, in order, the slugs collected from them, and how it ended. */
  datatype Listing = Listing(pages: seq<int>, slugs: seq<Slug>, ending: Ending)

  /** The walk from `page` on, allowed at most `fuel` more requests. */
  function Walk(api: ListApi, username: string, page: int, fuel: nat): Listing
    decreases fuel
  {
    if fuel == 0 then Listing([], [], Unfinished)
    else
      match api(username, page)
      case Failure(e) => Listing([page], [], Failed(e))
      case Success(p) =>
        if p.nextPage.None? then Listing([page], p.articles, Complete)
        else
          var rest := Walk(api, username, p.nextPage.value, fuel - 1);
          Listing([page] + rest.pages, p.articles + rest.slugs, rest.ending)
  }

  /** The walk `getArticles` performs for `username`. */
  function ListAll(api: ListApi, username: string, fuel: nat): Listing
  {
    Walk(api, username, 1, fuel)
  }

  /** The upstream ends the pagination of `username` (or fails) within `fuel` requests. */
  predicate Paginates(api: ListApi, username: string, fuel: nat)
  {
    ListAll(api, username, fuel).ending != Unfinished
  }

  /** The slugs on the pages requested, in request order; a page whose request failed
      contributes none. */
  function SlugsOn(api: ListApi, username: string, pages: seq<int>): seq<Slug>
  {
    if pages == [] then []
    else
      (match api(username, pages[0])
       case Success(p) => p.articles
       case Failure(_) => [])
      + SlugsOn(api, username, pages[1..])
  }

  /** Page `pages[k + 1]` is the `next_page` of page `pages[k]`. */
  predicate Chained(api: ListApi, username: string, pages: seq<int>)
  {
    forall k :: 0 <= k < |pages| - 1 ==>
      api(username, pages[k]).Success? && api(username, pages[k]).value.nextPage == Some(pages[k + 1])
  }

  /**
   * The walk requests `page` first and then exactly the successive `next_page`
   * values; it stops at the first null (Complete) or at the first failed request
   * (Failed); and the slugs it collects are the concatenation of the pages' slugs
   * in request order.
   */
  lemma WalkFollowsNextPage(api: ListApi, username: string, page: int, fuel: nat)
    ensures var w := Walk(api, username, page, fuel);
      && (fuel > 0 <==> w.pages != [])
      && (w.pages != [] ==> w.pages[0] == page)
      && |w.pages| <= fuel
      && Chained(api, username, w.pages)
      && (w.ending == Complete ==>
            api(username, w.pages[|w.pages| - 1]).Success? &&
            api(username, w.pages[|w.pages| - 1]).value.nextPage.None?)
      && (w.ending.Failed? ==> api(username, w.pages[|w.pages| - 1]) == Failure(w.ending.error))
      && (w.ending == Unfinished ==> |w.pages| == fuel)
      && w.slugs == SlugsOn(api, username, w.pages)
  {
    WalkPages(api, username, page, fuel);
    WalkSlugs(api, username, page, fuel);
  }

  /** The pages a walk requests: `page` first, then the chain of `next_page` values,
      ending at a null, a failure, or the bound. */
  lemma {:induction false} WalkPages(api: ListApi, username: string, page: int, fuel: nat)
    ensures var w := Walk(api, username, page, fuel);
      && (fuel > 0 <==> w.pages != [])
      && (w.pages != [] ==> w.pages[0] == page)
      && |w.pages| <= fuel
      && Chained(api, username, w.pages)
      && (w.ending == Complete ==>
            api(username, w.pages[|w.pages| - 1]).Success? &&
            api(username, w.pages[|w.pages| - 1]).value.nextPage.None?)
      && (w.ending.Failed? ==> api(username, w.pages[|w.pages| - 1]) == Failure(w.ending.error))
      && (w.ending == Unfinished ==> |w.pages| == fuel)
    decreases fuel
  {
    if fuel > 0 {
      var w := Walk(api, username, page, fuel);
      match api(username, page)
      case Failure(e) =>
      case Success(p) =>
        if p.nextPage.Some? {
          var next := p.nextPage.value;
          var rest := Walk(api, username, next, fuel - 1);
          WalkPages(api, username, next, fuel - 1);
          assert w.pages == [page] + rest.pages;
          if rest.pages == [] {
            assert rest.ending == Unfinished;
          } else {
            ChainedCons(api, username, page, rest.pages);
            assert w.pages[|w.pages| - 1] == rest.pages[|rest.pages| - 1];
          }
        }
    }
  }

  /** The slugs a walk collects are those of its pages, in request order. */
  lemma {:induction false} WalkSlugs(api: ListApi, username: string, page: int, fuel: nat)
    ensures var w := Walk(api, username, page, fuel);
      w.slugs == SlugsOn(api, username, w.pages)
    decreases fuel
  {
    if fuel > 0 {
      var w := Walk(api, username, page, fuel);
      match api(username, page)
      case Failure(e) =>
        assert w.pages == [page];
        SlugsOnFirst(api, username, w.pages);
      case Success(p) =>
        if p.nextPage.None? {
          assert w.pages == [page];
          SlugsOnFirst(api, username, w.pages);
        } else {
          var rest := Walk(api, username, p.nextPage.value, fuel - 1);
          WalkSlugs(api, username, p.nextPage.value, fuel - 1);
          assert w.pages == [page] + rest.pages;
          assert w.pages[1..] == rest.pages;
          SlugsOnFirst(api, username, w.pages);
        }
    }
  }

  /** SlugsOn takes the first page's slugs, then the rest. */
  lemma SlugsOnFirst(api: ListApi, username: string, pages: seq<int>)
    requires pages != []
    ensures SlugsOn(api, username, pages) ==
      (match api(username, pages[0]) case Success(p) => p.articles case Failure(_) => [])
      + SlugsOn(api, username, pages[1..])
  {
  }

  /** A page whose `next_page` is the first of a chain extends the chain. */
  lemma ChainedCons(api: ListApi, username: string, page: int, pages: seq<int>)
    requires pages != [] && Chained(api, username, pages)
    requires api(username, page).Success? && api(username, page).value.nextPage == Some(pages[0])
    ensures Chained(api, username, [page] + pages)
  {
    var all := [page] + pages;
    forall k | 0 <= k < |all| - 1
      ensures api(username, all[k]).Success? && api(username, all[k]).value.nextPage == Some(all[k + 1])
    {
      assert all[k + 1] == pages[k];
      if k > 0 {
        assert all[k] == pages[k - 1];
      }
    }
  }

  /** A walk that ends within `fuel` requests ends the same way with any larger bound. */
  lemma {:induction false} WalkFuelIrrelevant(api: ListApi, username: string, page: int, fuel: nat, more: nat)
    requires Walk(api, username, page, fuel).ending != Unfinished
    requires fuel <= more
    ensures Walk(api, username, page, more) == Walk(api, username, page, fuel)
    decreases fuel
  {
    match api(username, page)
    case Failure(_) =>
    case Success(p) =>
      if p.nextPage.Some? {
        WalkFuelIrrelevant(api, username, p.nextPage.value, fuel - 1, more - 1);
      }
  }

  /** One request of a walk that ends: what it adds in front of the rest of the walk. */
  lemma WalkStep(api: ListApi, username: string, page: int, fuel: nat)
    requires Walk(api, username, page, fuel).ending != Unfinished
    ensures fuel > 0
    ensures var w := Walk(api, username, page, fuel);
      match api(username, page)
      case Failure(e) => w == Listing([page], [], Failed(e))
      case Success(p) =>
        if p.nextPage.None? then w == Listing([page], p.articles, Complete)
        else
          var rest := Walk(api, username, p.nextPage.value, fuel - 1);
          && rest.ending != Unfinished
          && w == Listing([page] + rest.pages, p.articles + rest.slugs, rest.ending)
  {
  }

  /** `fetched` and `articles` so far, followed by the rest of the walk from `page`, make
      up the whole walk, and that rest ends. */
  ghost predicate Resumes(api: ListApi, username: string, fuel: nat,
                          fetched: seq<int>, articles: seq<Slug>, page: int, left: nat)
  {
    var rest := Walk(api, username, page, left);
    && rest.ending != Unfinished
    && ListAll(api, username, fuel) == Listing(fetched + rest.pages, articles + rest.slugs, rest.ending)
  }

  /** What one more request does to a walk in progress: a failure or a null
      `next_page` ends the whole walk there, and otherwise the walk resumes from
      `next_page` with one request fewer to go. */
  lemma ResumesStep(api: ListApi, username: string, fuel: nat,
                    fetched: seq<int>, articles: seq<Slug>, page: int, left: nat)
    requires Resumes(api, username, fuel, fetched, articles, page, left)
    ensures left > 0
    ensures var w := ListAll(api, username, fuel);
      match api(username, page)
      case Failure(e) => w == Listing(fetched + [page], articles, Failed(e))
      case Success(p) =>
        if p.nextPage.None? then w == Listing(fetched + [page], articles + p.articles, Complete)
        else Resumes(api, username, fuel, fetched + [page], articles + p.articles, p.nextPage.value, left - 1)
  {
    WalkStep(api, username, page, left);
    match api(username, page)
    case Failure(e) =>
      assert articles + [] == articles;
    case Success(p) =>
      if p.nextPage.Some? {
        var next := Walk(api, username, p.nextPage.value, left - 1);
        assert (fetched + [page]) + next.pages == fetched + ([page] + next.pages);
        assert (articles + p.articles) + next.slugs == articles + (p.articles + next.slugs);
      }
  }

  /**
   * The `do … while` loop of `getArticles`. On success the slugs are those of the
   * complete walk; a failed page request fails the call with its error. `fetched`
   * records the page numbers requested, in order.
   */
  method ListSlugs(api: ListApi, username: string, ghost fuel: nat)
    returns (r: Result<seq<Slug>, Error>, ghost fetched: seq<int>)
    requires Paginates(api, username, fuel)
    ensures var w := ListAll(api, username, fuel);
      && fetched == w.pages
      && (w.ending == Complete ==> r == Success(w.slugs))
      && (w.ending.Failed? ==> r == Failure(w.ending.error))
  {
    var articles: seq<Slug> := [];
    var page := 1;
    ghost var left := fuel;
    fetched := [];
    assert fetched + ListAll(api, username, fuel).pages == ListAll(api, username, fuel).pages;
    assert articles + ListAll(api, username, fuel).slugs == ListAll(api, username, fuel).slugs;
    while true
      invariant Resumes(api, username, fuel, fetched, articles, page, left)
      decreases left
    {
      ResumesStep(api, username, fuel, fetched, articles, page, left);
      var result := api(username, page);
      fetched := fetched + [page];
      if result.Failure? {
        r := Failure(result.error);
        return;
      }
      articles := articles + result.value.articles;
      if result.value.nextPage.None? {
        r := Success(articles);
        return;
      }
      page := result.value.nextPage.value;
      left := left - 1;
    }
  }
}
