/**
 * The page handler of src/index.ts for a `?name=` request: no name gives an
 * empty list and no request at all; otherwise `getArticles(name)` sorted newest
 * first. The page is the head markup, the search form, one `<li>` per article
 * and the closing tags, joined.
 */
module Handler {
  import opened Wrappers
  import opened Zenn
  import opened HtmlEscape
  import opened Cache
  import opened Pagination
  import opened Details

  /** `url.searchParams.get("name") ?? ""`. */
  function NameParam(query: Option<string>): string
  {
    match query
    case Some(n) => n
    case None => ""
  }

  /** Every article is at least as recent as the ones after it. */
  predicate NewestFirst(s: seq<Article>)
  {
    forall i, j :: 0 <= i < j < |s| ==> s[i].publishedAt >= s[j].publishedAt
  }

  /** `x` put in front of the first article of `s` that is not newer than it. */
  function Insert(x: Article, s: seq<Article>): (r: seq<Article>)
    requires NewestFirst(s)
    ensures NewestFirst(r)
    ensures multiset(r) == multiset(s) + multiset{x}
    ensures |r| == |s| + 1 && (r[0] == x || (s != [] && r[0] == s[0]))
  {
    if s == [] || x.publishedAt >= s[0].publishedAt then
      PrependNewestFirst(x, s);
      [x] + s
    else
      TailNewestFirst(s);
      var rest := Insert(x, s[1..]);
      PrependNewestFirst(s[0], rest);
      assert s == [s[0]] + s[1..];
      assert multiset([s[0]] + rest) == multiset{s[0]} + multiset(rest);
      [s[0]] + rest
  }

  lemma TailNewestFirst(s: seq<Article>)
    requires NewestFirst(s) && s != []
    ensures NewestFirst(s[1..])
  {
    forall i, j | 0 <= i < j < |s| - 1 ensures s[1..][i].publishedAt >= s[1..][j].publishedAt {
      assert s[1..][i] == s[i + 1] && s[1..][j] == s[j + 1];
    }
  }

  lemma PrependNewestFirst(y: Article, s: seq<Article>)
    requires NewestFirst(s) && (s != [] ==> s[0].publishedAt <= y.publishedAt)
    ensures NewestFirst([y] + s)
  {
    var r := [y] + s;
    forall i, j | 0 <= i < j < |r| ensures r[i].publishedAt >= r[j].publishedAt {
      assert r[j] == s[j - 1];
      if i > 0 {
        assert r[i] == s[i - 1];
      }
    }
  }

  /** The handler's sort: the same articles, ordered by the comparator on integer
      publication times, newest first. */
  function SortNewestFirst(s: seq<Article>): (r: seq<Article>)
    ensures NewestFirst(r)
    ensures multiset(r) == multiset(s)
  {
    if s == [] then []
    else
      assert s == [s[0]] + s[1..];
      Insert(s[0], SortNewestFirst(s[1..]))
  }

  const Ghost: char := '\U{1F47B}'
  const Heart: char := '\U{1FA77}'

  /** The opening of every list entry, up to its icon. */
  const ItemOpen: string := "<li style=\"display:flex;gap:8px;\"><span>"
  const ItemClose: string := "</a></li>"

  /** One `<li>`: the icon, the date as `localDate` shows it, the link and the escaped title. */
  function ListItem(a: Article, localDate: int -> string): string
  {
    ItemOpen + ([if a.shouldNoindex then Ghost else Heart] + "</span><span>" + localDate(a.publishedAt)
      + "</span><a href='https://zenn.dev" + a.path + "'>" + EscapeHtml(a.title) + ItemClose)
  }

  /** The entries of the list, one per article, in the articles' order. */
  function ListItems(articles: seq<Article>, localDate: int -> string): seq<string>
  {
    if articles == [] then []
    else ListItems(articles[..|articles| - 1], localDate) + [ListItem(articles[|articles| - 1], localDate)]
  }

  const Description: string := "Check for shadow banning in Zenn."
  const Title: string := "Zenn's Shadow Ban checker"

  /** The meta tags of the head; `imageUrl` is derived from the request's URL. */
  function MetaMarkup(imageUrl: string): string
  {
    "<meta property=\"description\" content=\"" + (Description + "\" />\n"
      + "        <meta property=\"og:title\" content=\"" + Title + "\" />\n"
      + "        <meta property=\"og:description\" content=\"" + Description + "\" />\n"
      + "        <meta property=\"og:type\" content=\"website\" />\n"
      + "        <meta property=\"og:image\" content=\"" + imageUrl + "\" />\n"
      + "        <meta name=\"twitter:card\" content=\"summary\" />")
  }

  /** The search form, with the name quoted into its single-quoted value attribute. */
  function FormMarkup(name: string): string
  {
    "<form>" + ("<input name='name'  placeholder='user-name' value='" + QuoteAttribute(name)
      + "'><input type='submit'></form><hr>")
  }

  /** What is pushed onto `html` before the list entries. */
  function Prologue(name: string, imageUrl: string): seq<string>
  {
    ["<html><head>", "<title>" + Title + "</title>", MetaMarkup(imageUrl),
     "</head><body>", FormMarkup(name), "<ul style='list-style: none'>"]
  }

  const Epilogue: string := "</ul></body></html>"

  /** The `html` array the handler builds. */
  function PageParts(name: string, imageUrl: string, articles: seq<Article>, localDate: int -> string): seq<string>
  {
    Prologue(name, imageUrl) + ListItems(articles, localDate) + [Epilogue]
  }

  /** `html.join("")`. */
  function Join(parts: seq<string>): string
  {
    if parts == [] then "" else parts[0] + Join(parts[1..])
  }

  /** The number of parts that open a list entry. */
  function CountItems(parts: seq<string>): nat
  {
    if parts == [] then 0 else (if "<li" <= parts[0] then 1 else 0) + CountItems(parts[1..])
  }

  lemma {:induction false} CountItemsAppend(a: seq<string>, b: seq<string>)
    ensures CountItems(a + b) == CountItems(a) + CountItems(b)
  {
    if a == [] {
      assert a + b == b;
    } else {
      assert (a + b)[0] == a[0];
      assert (a + b)[1..] == a[1..] + b;
      CountItemsAppend(a[1..], b);
    }
  }

  /** Entry k of the list is the entry of article k. */
  lemma {:induction false} ListItemsInOrder(articles: seq<Article>, localDate: int -> string)
    ensures |ListItems(articles, localDate)| == |articles|
    ensures forall k :: 0 <= k < |articles| ==> ListItems(articles, localDate)[k] == ListItem(articles[k], localDate)
  {
    if articles != [] {
      var init := articles[..|articles| - 1];
      ListItemsInOrder(init, localDate);
      assert forall k :: 0 <= k < |init| ==> articles[k] == init[k];
    }
  }

  /** The page has exactly one `<li>` part per article: the head, the form and the
      closing tags open none. */
  lemma OneItemPerArticle(name: string, imageUrl: string, articles: seq<Article>, localDate: int -> string)
    ensures CountItems(PageParts(name, imageUrl, articles, localDate)) == |articles|
  {
    var pro, items := Prologue(name, imageUrl), ListItems(articles, localDate);
    ItemsCount(articles, localDate);
    PrologueOpensNoItem(name, imageUrl);
    NoItemsIn([Epilogue]) by {
      assert Epilogue[1] == '/';
    }
    CountItemsAppend(pro, items);
    CountItemsAppend(pro + items, [Epilogue]);
  }

  lemma PrologueOpensNoItem(name: string, imageUrl: string)
    ensures CountItems(Prologue(name, imageUrl)) == 0
  {
    var pro := Prologue(name, imageUrl);
    var meta := MetaMarkup(imageUrl);
    var form := FormMarkup(name);
    assert meta[1] == 'm';
    assert form[1] == 'f';
    assert pro[0][1] == 'h' && pro[1][1] == 't' && pro[3][1] == '/' && pro[5][1] == 'u';
    NoItemsIn(pro);
  }

  /** Parts whose second character is not `l` open no entry. */
  lemma {:induction false} NoItemsIn(parts: seq<string>)
    requires forall i :: 0 <= i < |parts| ==> |parts[i]| >= 2 && parts[i][1] != 'l'
    ensures CountItems(parts) == 0
  {
    if parts != [] {
      assert !("<li" <= parts[0]);
      NoItemsIn(parts[1..]);
    }
  }

  lemma {:induction false} ItemsCount(articles: seq<Article>, localDate: int -> string)
    ensures CountItems(ListItems(articles, localDate)) == |articles|
  {
    if articles != [] {
      var init := articles[..|articles| - 1];
      var li := ListItem(articles[|articles| - 1], localDate);
      ItemsCount(init, localDate);
      ItemOpensEntry(articles[|articles| - 1], localDate);
      assert CountItems([li]) == 1 by {
        assert [li][1..] == [];
      }
      CountItemsAppend(ListItems(init, localDate), [li]);
    }
  }

  /** Every list entry starts with `<li`. */
  lemma ItemOpensEntry(a: Article, localDate: int -> string)
    ensures "<li" <= ListItem(a, localDate)
  {
    var li := ListItem(a, localDate);
    assert ItemOpen[0] == '<' && ItemOpen[1] == 'l' && ItemOpen[2] == 'i';
    assert li[..|ItemOpen|] == ItemOpen;
  }

  /** The icon slot of an entry shows the ghost exactly when the article is marked
      `should_noindex`, and the heart otherwise. */
  lemma ItemIcon(a: Article, localDate: int -> string)
    ensures |ListItem(a, localDate)| > |ItemOpen|
    ensures ListItem(a, localDate)[|ItemOpen|] == Ghost <==> a.shouldNoindex
    ensures ListItem(a, localDate)[|ItemOpen|] == Heart <==> !a.shouldNoindex
  {
  }

  /** The link text of an entry is the escaped title: it holds no markup character and
      decodes back to the title. */
  lemma ItemTitle(a: Article, localDate: int -> string)
    ensures var li := ListItem(a, localDate);
      var hi := |li| - |ItemClose|;
      var lo := hi - |EscapeHtml(a.title)|;
      && 0 <= lo <= hi <= |li|
      && li[hi..] == ItemClose
      && UnescapeHtml(li[lo..hi]) == a.title
      && '<' !in li[lo..hi] && '>' !in li[lo..hi] && '"' !in li[lo..hi] && '\'' !in li[lo..hi]
  {
    var li := ListItem(a, localDate);
    var e := EscapeHtml(a.title);
    var front := ItemOpen + [if a.shouldNoindex then Ghost else Heart] + "</span><span>" + localDate(a.publishedAt)
      + "</span><a href='https://zenn.dev" + a.path + "'>";
    assert li == front + e + ItemClose;
    assert li[|front|..|front| + |e|] == e;
    assert li[|front| + |e|..] == ItemClose;
    EscapeRoundTrip(a.title);
    EscapeRemovesMarkup(a.title);
  }

  /** The value attribute of the form cannot be closed early by the name. */
  lemma FormValueQuoted(name: string)
    ensures var v := QuoteEach(name);
      && FormMarkup(name) == "<form>" + ("<input name='name'  placeholder='user-name' value='" + v
                                          + "'><input type='submit'></form><hr>")
      && '\'' !in v
      && ('\'' !in name ==> v == name)
  {
    QuoteAttributeRemovesQuotes(name);
  }

  /** The loop that pushes the page onto `html`. */
  method RenderPage(name: string, imageUrl: string, articles: seq<Article>, localDate: int -> string)
    returns (html: seq<string>)
    ensures html == PageParts(name, imageUrl, articles, localDate)
  {
    html := Prologue(name, imageUrl);
    for i := 0 to |articles|
      invariant html == Prologue(name, imageUrl) + ListItems(articles[..i], localDate)
    {
      html := html + [ListItem(articles[i], localDate)];
      assert articles[..i + 1][..i] == articles[..i];
    }
    assert articles[..|articles|] == articles;
    html := html + [Epilogue];
  }

  /**
   * The handler for a page request. Without a name it renders the empty list and
   * makes no request; otherwise it renders `getArticles(name)` newest first, and
   * fails (the handler throws) when `getArticles` fails.
   */
  method Serve(cache: ResponseCache, query: Option<string>, imageUrl: string,
               api: ListApi, net: DetailApi, localDate: int -> string, ghost fuel: nat)
    returns (r: Result<string, Error>, ghost pages: seq<int>, ghost requests: seq<Url>)
    requires NameParam(query) != "" ==> Paginates(api, NameParam(query), fuel)
    modifies cache
    ensures var name := NameParam(query);
      name == "" ==>
        && r == Success(Join(PageParts(name, imageUrl, [], localDate)))
        && cache.entries == old(cache.entries) && pages == [] && requests == []
    ensures var name := NameParam(query);
      name != "" ==>
        var f := GetArticlesSpec(old(cache.entries), name, api, net, fuel);
        && cache.entries == f.entries && pages == f.pages && requests == f.requests
        && (f.result.Failure? ==> r == Failure(f.result.error))
        && (f.result.Success? ==> r == Success(Join(PageParts(name, imageUrl, SortNewestFirst(f.result.value), localDate))))
  {
    var name := NameParam(query);
    var result: seq<Article>;
    if name == "" {
      result, pages, requests := [], [], [];
    } else {
      var got;
      got, pages, requests := GetArticles(cache, name, api, net, fuel);
      if got.Failure? {
        r := Failure(got.error);
        return;
      }
      result := SortNewestFirst(got.value);
    }
    var html := RenderPage(name, imageUrl, result, localDate);
    r := Success(Join(html));
  }
}
