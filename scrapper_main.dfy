/**
 * `main` of lab_5_scrapper/scrapper.py after the crawl: the discovered URLs are
 * numbered from 1 in crawl order, each page is parsed into an article with that
 * number as its ID, and the article is handed to the writer.
 *
 * Fetching a page is a parameter (`None` is the transport error `make_request`
 * raises). `main` catches nothing, so a failed fetch or a date that does not parse
 * ends the whole run; the articles written before that stay written.
 */
module ScrapperMain {
  import opened Wrappers
  import opened Articles
  import opened ScrapperConfig
  import opened ScrapperParser

  /** `enumerate(urls, start=1)`. */
  function Numbered(urls: seq<string>): (r: seq<(int, string)>)
    ensures |r| == |urls|
    ensures forall i :: 0 <= i < |urls| ==> r[i] == (i + 1, urls[i])
  {
    seq(|urls|, i requires 0 <= i < |urls| => (i + 1, urls[i]))
  }

  /** One turn of the loop for URL `url` and ID `id`: the article `HTMLParser.parse`
      returns, or `None` when fetching or parsing the page raised. */
  function PageArticle(pages: string -> Option<PageData>, url: string, id: int): (r: Option<Article>)
    ensures r.Some? ==> r.value.url == Some(url) && r.value.articleId == id
  {
    match pages(url)
    case None => None
    case Some(page) => ArticleFor(url, id, page)
  }

  /** `PageArticle` for every URL and ID. */
  function ParseEach(pages: string -> Option<PageData>): (string, int) -> Option<Article> {
    (url: string, id: int) => PageArticle(pages, url, id)
  }

  /** A per-page parse that labels each article with the URL and ID it was given. */
  ghost predicate Labels(parse: (string, int) -> Option<Article>) {
    forall url, id :: parse(url, id).Some? ==> parse(url, id).value.url == Some(url) && parse(url, id).value.articleId == id
  }

  lemma ParseEachLabels(pages: string -> Option<PageData>)
    ensures Labels(ParseEach(pages))
  {
    forall url, id | ParseEach(pages)(url, id).Some?
      ensures ParseEach(pages)(url, id).value.url == Some(url) && ParseEach(pages)(url, id).value.articleId == id
    {
      assert ParseEach(pages)(url, id) == PageArticle(pages, url, id);
    }
  }

  /** The articles written when the loop starts at `urls` with next ID `id`, and
      whether it got through all of them. */
  function ScrapeFrom(urls: seq<string>, parse: (string, int) -> Option<Article>, id: int): (seq<Article>, bool)
    decreases |urls|
  {
    if urls == [] then ([], true)
    else
      match parse(urls[0], id)
      case None => ([], false)
      case Some(a) =>
        var rest := ScrapeFrom(urls[1..], parse, id + 1);
        ([a] + rest.0, rest.1)
  }

  /** The loop of `main` over the crawled URLs: `written` are the articles passed to
      `to_raw`/`to_meta`, `completed` is false when an exception ended the run. */
  method SaveArticles(urls: seq<string>, pages: string -> Option<PageData>, config: RunConfig)
    returns (written: seq<Article>, completed: bool)
    ensures written == ScrapeFrom(urls, ParseEach(pages), 1).0
    ensures completed == ScrapeFrom(urls, ParseEach(pages), 1).1
  {
    var numbered := Numbered(urls);
    written := [];
    var k := 0;
    ghost var parse := ParseEach(pages);
    ghost var whole := ScrapeFrom(urls, parse, 1);
    assert urls[k..] == urls;
    assert whole.0 == written + whole.0;
    while k < |numbered|
      invariant 0 <= k <= |numbered|
      invariant whole.0 == written + ScrapeFrom(urls[k..], parse, k + 1).0
      invariant whole.1 == ScrapeFrom(urls[k..], parse, k + 1).1
    {
      var (id, url) := numbered[k];
      ghost var here := ScrapeFrom(urls[k..], parse, k + 1);
      ghost var next := ScrapeFrom(urls[k + 1..], parse, k + 2);
      assert urls[k..][0] == url && urls[k..][1..] == urls[k + 1..];
      assert parse(url, id) == PageArticle(pages, url, id);
      var response := pages(url);
      if response.None? {
        assert here == ([], false);
        assert written + [] == written;
        completed := false;
        return;
      }
      var parser := new HtmlParser(url, id, config);
      var ok := parser.Parse(response.value);
      if !ok {
        assert ArticleFor(url, id, response.value).None?;
        assert here == ([], false);
        assert written + [] == written;
        completed := false;
        return;
      }
      var article := parser.article;
      assert article == ArticleFor(url, id, response.value).value;
      assert here.0 == [article] + next.0 && here.1 == next.1;
      AppendAssoc(written, [article], next.0);
      written := written + [article];
      k := k + 1;
      assert ScrapeFrom(urls[k..], parse, k + 1) == next;
    }
    assert urls[k..] == [];
    assert written + [] == written;
    completed := true;
  }

  lemma AppendAssoc<T>(a: seq<T>, b: seq<T>, c: seq<T>)
    ensures a + (b + c) == (a + b) + c
  {
  }

  /** At most one article per URL is written, and the run completes exactly when
      every URL gave one. */
  lemma {:induction false} ScrapeCount(urls: seq<string>, parse: (string, int) -> Option<Article>, id: int)
    ensures var r := ScrapeFrom(urls, parse, id);
      |r.0| <= |urls| && (r.1 <==> |r.0| == |urls|)
    decreases |urls|
  {
    if urls != [] && parse(urls[0], id).Some? {
      ScrapeCount(urls[1..], parse, id + 1);
    }
  }

  /** The written articles are the URLs' articles in crawl order with IDs id, id + 1, .... */
  lemma {:induction false} ScrapeIds(urls: seq<string>, parse: (string, int) -> Option<Article>, id: int)
    requires Labels(parse)
    ensures var r := ScrapeFrom(urls, parse, id);
      forall i :: 0 <= i < |r.0| ==> i < |urls| && r.0[i].articleId == id + i && r.0[i].url == Some(urls[i])
    decreases |urls|
  {
    ScrapeCount(urls, parse, id);
    if urls != [] && parse(urls[0], id).Some? {
      ScrapeIds(urls[1..], parse, id + 1);
      var r := ScrapeFrom(urls, parse, id);
      var rest := ScrapeFrom(urls[1..], parse, id + 1);
      assert r.0 == [r.0[0]] + rest.0;
      forall i | 0 <= i < |r.0|
        ensures i < |urls| && r.0[i].articleId == id + i && r.0[i].url == Some(urls[i])
      {
        if i > 0 {
          assert r.0[i] == rest.0[i - 1];
        }
      }
    }
  }

  /** The IDs written, in order. */
  function IdsOf(articles: seq<Article>): (r: seq<int>)
    ensures |r| == |articles| && forall i :: 0 <= i < |articles| ==> r[i] == articles[i].articleId
  {
    seq(|articles|, i requires 0 <= i < |articles| => articles[i].articleId)
  }

  /** Whatever happens, the written IDs are exactly 1..k for the k articles written. */
  lemma WrittenIdsContiguous(urls: seq<string>, pages: string -> Option<PageData>)
    ensures var written := ScrapeFrom(urls, ParseEach(pages), 1).0;
      forall i :: 0 <= i < |written| ==> IdsOf(written)[i] == i + 1
  {
    ParseEachLabels(pages);
    ScrapeIds(urls, ParseEach(pages), 1);
  }
}
