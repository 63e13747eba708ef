/**
 * The article record shared by the crawler and the pipeline. Its class lives in
 * `core_utils/article/article.py`, which is not part of this model; only the
 * fields that the two core files read or write appear here.
 */
module Articles {
  import opened Wrappers

  /** A publication time as `datetime.datetime` holds it (no seconds are ever parsed). */
  datatype Timestamp = Timestamp(year: int, month: int, day: int, hour: int, minute: int)

  datatype Article = Article(
    url: Option<string>,
    articleId: int,
    text: string,
    title: string,
    author: seq<string>,
    topics: seq<string>,
    date: Option<Timestamp>)

  /** A freshly constructed `Article(url, article_id)`: every other field empty. */
  function NewArticle(url: Option<string>, articleId: int): Article {
    Article(url, articleId, "", "", [], [], None)
  }
}
