/**
 * The records exchanged with the article API (src/index.ts, types ZennArticles
 * and ZennArticle) and the two endpoints, taken as given functions: the model
 * never performs a request, it is handed what the endpoint answers.
 */
module Zenn {
  import opened Wrappers

  type Slug = string
  type Url = string

  /** The `article` record of the detail endpoint. `publishedAt` is the time the
      `published_at` string denotes, as an integer timestamp. */
  datatype Article = Article(path: string, title: string, publishedAt: int, shouldNoindex: bool)

  /** One page of the list endpoint: the slugs on it and `next_page` (null: the last page). */
  datatype Page = Page(articles: seq<Slug>, nextPage: Option<int>)

  /** A response of the detail endpoint as the cache stores it: its status, and the
      `article` field of its JSON body, None when the body does not parse into one. */
  datatype Response = Response(status: int, article: Option<Article>)

  /** Why a request, or the reading of its body, failed. */
  datatype Error = NetworkError | MalformedBody

  /** The list endpoint for a user name and a page number: the parsed page, or the
      failure of the request or of `res.json()`. */
  type ListApi = (string, int) -> Result<Page, Error>

  /** The detail endpoint: the response a `fetch` of the URL resolves to, or the
      failure that makes it reject. */
  type DetailApi = Url -> Result<Response, Error>

  const DetailPrefix: string := "https://zenn.dev/api/articles/"

  /** The detail URL of a slug. */
  function DetailUrl(slug: Slug): (u: Url)
    ensures DetailPrefix <= u && u[|DetailPrefix|..] == slug
  {
    DetailPrefix + slug
  }

  /** `.then((res) => res.json()).then((res) => res.article)` on a response. */
  function ReadArticle(res: Response): (r: Result<Article, Error>)
    ensures r.Success? <==> res.article.Some?
    ensures r.Success? ==> r.value == res.article.value
  {
    match res.article
    case Some(a) => Success(a)
    case None => Failure(MalformedBody)
  }

  /** Distinct slugs have distinct detail URLs, so the cache keeps them apart. */
  lemma DetailUrlInjective(a: Slug, b: Slug)
    requires DetailUrl(a) == DetailUrl(b)
    ensures a == b
  {
  }
}
