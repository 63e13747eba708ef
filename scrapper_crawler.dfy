/**
 * `Crawler` of lab_5_scrapper/scrapper.py: bounded link discovery over the seed
 * listing pages.
 *
 * Fetching a seed page and selecting its article anchors (`make_request`,
 * BeautifulSoup's `find_all`) are given as data: `fetch(seed)` is either the
 * `href` attribute of every matching anchor, in document order (`None` where an
 * anchor has none), or the transport error `requests.get` raises.
 */
module ScrapperCrawler {
  import opened Wrappers
  import opened Text
  import opened ScrapperConfig

  /** The site root every discovered href is appended to. */
  const Base := "https://krsk.sibnovosti.ru"

  /** The value `_extract_url` returns for an anchor without a string href. */
  const NotFound := "url not found"

  datatype Fetch = Page(hrefs: seq<Option<string>>) | TransportError

  /** `Crawler._extract_url`. */
  function ExtractUrl(href: Option<string>): (r: string)
    ensures href.Some? ==> r == href.value
    ensures r == NotFound <==> href.None? || href.value == NotFound
  {
    if href.Some? then href.value else NotFound
  }

  /** The skip test of `find_articles`, as written: the raw href is looked up among
      the stored URLs, which all carry the `Base` prefix. */
  predicate Skipped(url: string, urls: seq<string>) {
    url == "" || url in urls || url == NotFound
  }

  datatype ScanResult = ScanResult(urls: seq<string>, stopped: bool)

  /** The inner loop of `find_articles` over one page: `stopped` is the early `return`
      taken when the list is full before an anchor is looked at. */
  function ScanPage(urls: seq<string>, hrefs: seq<Option<string>>, n: int): ScanResult
    decreases |hrefs|
  {
    if hrefs == [] then ScanResult(urls, false)
    else if |urls| >= n then ScanResult(urls, true)
    else
      var url := ExtractUrl(hrefs[0]);
      ScanPage(if Skipped(url, urls) then urls else urls + [Base + url], hrefs[1..], n)
  }

  /** The outcome of `find_articles`: the URL list it leaves behind and whether a
      transport error escaped from it. */
  datatype Discovery = Discovery(urls: seq<string>, aborted: bool)

  /** The outer loop of `find_articles` over the seeds. */
  function Discover(urls: seq<string>, seeds: seq<string>, fetch: string -> Fetch, n: int): Discovery
    decreases |seeds|
  {
    if seeds == [] then Discovery(urls, false)
    else
      match fetch(seeds[0])
      case TransportError => Discovery(urls, true)
      case Page(hrefs) =>
        var s := ScanPage(urls, hrefs, n);
        if s.stopped then Discovery(s.urls, false) else Discover(s.urls, seeds[1..], fetch, n)
  }

  class Crawler {
    var urls: seq<string>
    const config: RunConfig
    const seedUrls: seq<string>

    constructor (config: RunConfig)
      ensures urls == [] && this.config == config && seedUrls == config.seedUrls
    {
      this.urls := [];
      this.config := config;
      this.seedUrls := config.seedUrls;
    }

    /** `Crawler.find_articles`; `ok` is false when a transport error is raised, in
        which case the URLs found before it stay in `urls`. */
    method FindArticles(fetch: string -> Fetch) returns (ok: bool)
      modifies this
      ensures urls == Discover(old(urls), seedUrls, fetch, config.numArticles).urls
      ensures ok == !Discover(old(urls), seedUrls, fetch, config.numArticles).aborted
    {
      var n := config.numArticles;
      var i := 0;
      while i < |seedUrls|
        invariant 0 <= i <= |seedUrls|
        invariant Discover(old(urls), seedUrls, fetch, n) == Discover(urls, seedUrls[i..], fetch, n)
      {
        var res := fetch(seedUrls[i]);
        if res.TransportError? {
          return false;
        }
        var links := res.hrefs;
        ghost var atSeed := urls;
        var j := 0;
        while j < |links|
          invariant 0 <= j <= |links|
          invariant ScanPage(atSeed, links, n) == ScanPage(urls, links[j..], n)
        {
          if |urls| >= n {
            return true;
          }
          var url := ExtractUrl(links[j]);
          if !(url == "" || url in urls || url == NotFound) {
            urls := urls + [Base + url];
          }
          j := j + 1;
        }
        assert seedUrls[i..][1..] == seedUrls[i + 1..];
        i := i + 1;
      }
      return true;
    }
  }

  // ---------------------------------------------------------------- order: subsequences

  /** `a` can be obtained from `b` by deleting elements. */
  predicate IsSubsequence<T(==)>(a: seq<T>, b: seq<T>)
    decreases |b|
  {
    if a == [] then true
    else if b == [] then false
    else (a[0] == b[0] && IsSubsequence(a[1..], b[1..])) || IsSubsequence(a, b[1..])
  }

  lemma {:induction false} SubsequenceConcat<T>(a1: seq<T>, b1: seq<T>, a2: seq<T>, b2: seq<T>)
    requires IsSubsequence(a1, b1) && IsSubsequence(a2, b2)
    ensures IsSubsequence(a1 + a2, b1 + b2)
    decreases |b1|
  {
    if b1 == [] {
      assert a1 == [];
      assert a1 + a2 == a2 && b1 + b2 == b2;
    } else if a1 != [] && a1[0] == b1[0] && IsSubsequence(a1[1..], b1[1..]) {
      SubsequenceConcat(a1[1..], b1[1..], a2, b2);
      assert (a1 + a2)[1..] == a1[1..] + a2;
      assert (b1 + b2)[1..] == b1[1..] + b2;
    } else {
      if a1 != [] {
        assert IsSubsequence(a1, b1[1..]);
      }
      SubsequenceConcat(a1, b1[1..], a2, b2);
      assert (b1 + b2)[1..] == b1[1..] + b2;
    }
  }

  // ---------------------------------------------------------------- properties

  /** Every href of every page fetched before the first transport error, in seed
      order then document order, as `_extract_url` returns them. */
  function Candidates(seeds: seq<string>, fetch: string -> Fetch): seq<string>
    decreases |seeds|
  {
    if seeds == [] then []
    else
      match fetch(seeds[0])
      case TransportError => []
      case Page(hrefs) => ExtractAll(hrefs) + Candidates(seeds[1..], fetch)
  }

  function ExtractAll(hrefs: seq<Option<string>>): seq<string>
    decreases |hrefs|
  {
    if hrefs == [] then [] else [ExtractUrl(hrefs[0])] + ExtractAll(hrefs[1..])
  }

  /** The hrefs behind a list of stored URLs: each with the `Base` prefix taken off. */
  function Unprefixed(us: seq<string>): seq<string>
    decreases |us|
  {
    if us == [] then []
    else [if |us[0]| >= |Base| then us[0][|Base|..] else us[0]] + Unprefixed(us[1..])
  }

  lemma {:induction false} UnprefixedAppend(us: seq<string>, vs: seq<string>)
    ensures Unprefixed(us + vs) == Unprefixed(us) + Unprefixed(vs)
    decreases |us|
  {
    if us == [] {
      assert us + vs == vs;
    } else {
      assert (us + vs)[1..] == us[1..] + vs;
      UnprefixedAppend(us[1..], vs);
    }
  }

  /** A URL `find_articles` stores: the prefix plus an href that is neither empty nor
      the sentinel. */
  predicate Stored(u: string) {
    StartsWith(u, Base) && u[|Base|..] != "" && u[|Base|..] != NotFound
  }

  /** What one page scan promises: it only appends, stays within the bound, appends
      stored-shape URLs, and appends them in document order. */
  lemma {:induction false} ScanPageAppends(urls: seq<string>, hrefs: seq<Option<string>>, n: int)
    ensures var r := ScanPage(urls, hrefs, n).urls;
      && |urls| <= |r| && r[..|urls|] == urls
      && (|urls| <= n ==> |r| <= n)
      && (forall k :: |urls| <= k < |r| ==> Stored(r[k]))
      && IsSubsequence(Unprefixed(r[|urls|..]), ExtractAll(hrefs))
    decreases |hrefs|
  {
    var r := ScanPage(urls, hrefs, n).urls;
    if hrefs == [] {
      assert r == urls;
    } else if |urls| >= n {
      assert r == urls;
      assert r[|urls|..] == [];
    } else {
      var url := ExtractUrl(hrefs[0]);
      var next := if Skipped(url, urls) then urls else urls + [Base + url];
      ScanPageAppends(next, hrefs[1..], n);
      assert r == ScanPage(next, hrefs[1..], n).urls;
      assert ExtractAll(hrefs) == [url] + ExtractAll(hrefs[1..]);
      if Skipped(url, urls) {
        assert IsSubsequence(Unprefixed(r[|urls|..]), ExtractAll(hrefs[1..]));
      } else {
        assert r[..|next|] == next;
        assert r[..|urls|] == urls by { assert next[..|urls|] == urls; }
        assert r[|urls|..] == [Base + url] + r[|next|..];
        assert (Base + url)[|Base|..] == url;
        assert Unprefixed(r[|urls|..]) == [url] + Unprefixed(r[|next|..]);
        assert Stored(Base + url) by { assert (Base + url)[..|Base|] == Base; }
      }
    }
  }

  /** What `find_articles` promises about the list's growth. Starting from a list
      within the bound: the list only grows, never beyond `n`, and every new entry is
      the prefix plus a non-empty, non-sentinel href. */
  lemma {:induction false} DiscoverAppends(urls: seq<string>, seeds: seq<string>, fetch: string -> Fetch, n: int)
    ensures var r := Discover(urls, seeds, fetch, n).urls;
      && |urls| <= |r| && r[..|urls|] == urls
      && (|urls| <= n ==> |r| <= n)
      && (forall k :: |urls| <= k < |r| ==> Stored(r[k]))
    decreases |seeds|
  {
    var r := Discover(urls, seeds, fetch, n).urls;
    if seeds != [] {
      match fetch(seeds[0])
      case TransportError =>
      case Page(hrefs) =>
        var s := ScanPage(urls, hrefs, n);
        ScanPageAppends(urls, hrefs, n);
        var mid := s.urls;
        if !s.stopped {
          DiscoverAppends(mid, seeds[1..], fetch, n);
          assert r == Discover(mid, seeds[1..], fetch, n).urls;
          assert r[..|mid|] == mid;
          assert r[..|urls|] == urls by { assert mid[..|urls|] == urls; }
          forall k | |urls| <= k < |r|
            ensures Stored(r[k])
          {
            if k < |mid| {
              assert r[k] == mid[k];
            }
          }
        }
    }
  }

  /** The new entries follow seed order, then document order: stripped of the prefix,
      they are a subsequence of all hrefs fetched. */
  lemma {:induction false} DiscoverInOrder(urls: seq<string>, seeds: seq<string>, fetch: string -> Fetch, n: int)
    ensures var r := Discover(urls, seeds, fetch, n).urls;
      |urls| <= |r| && IsSubsequence(Unprefixed(r[|urls|..]), Candidates(seeds, fetch))
    decreases |seeds|
  {
    var r := Discover(urls, seeds, fetch, n).urls;
    DiscoverAppends(urls, seeds, fetch, n);
    if seeds == [] {
      assert r == urls;
    } else {
      match fetch(seeds[0])
      case TransportError =>
        assert r == urls;
        assert r[|urls|..] == [];
      case Page(hrefs) =>
        var s := ScanPage(urls, hrefs, n);
        ScanPageAppends(urls, hrefs, n);
        var mid := s.urls;
        assert Candidates(seeds, fetch) == ExtractAll(hrefs) + Candidates(seeds[1..], fetch);
        if s.stopped {
          assert r == mid;
          assert IsSubsequence(Unprefixed(r[|urls|..]) + [], ExtractAll(hrefs) + Candidates(seeds[1..], fetch)) by {
            SubsequenceConcat(Unprefixed(r[|urls|..]), ExtractAll(hrefs), [], Candidates(seeds[1..], fetch));
          }
          assert Unprefixed(r[|urls|..]) + [] == Unprefixed(r[|urls|..]);
        } else {
          DiscoverInOrder(mid, seeds[1..], fetch, n);
          DiscoverAppends(mid, seeds[1..], fetch, n);
          assert r == Discover(mid, seeds[1..], fetch, n).urls;
          assert r[|urls|..] == mid[|urls|..] + r[|mid|..];
          UnprefixedAppend(mid[|urls|..], r[|mid|..]);
          SubsequenceConcat(Unprefixed(mid[|urls|..]), ExtractAll(hrefs),
                            Unprefixed(r[|mid|..]), Candidates(seeds[1..], fetch));
        }
    }
  }

  /** Once the list holds `n` URLs, nothing more is appended from any later anchor or
      seed (later seeds may still be fetched, and their transport errors still raised). */
  lemma {:induction false} FullListStaysPut(urls: seq<string>, seeds: seq<string>, fetch: string -> Fetch, n: int)
    requires |urls| >= n
    ensures Discover(urls, seeds, fetch, n).urls == urls
    decreases |seeds|
  {
    if seeds != [] {
      match fetch(seeds[0])
      case TransportError =>
      case Page(hrefs) =>
        if hrefs == [] {
          FullListStaysPut(urls, seeds[1..], fetch, n);
        }
    }
  }

  /** An href `find_articles` would store if it met it with room left: neither empty
      nor the sentinel. */
  predicate Qualifies(u: string) {
    u != "" && u != NotFound
  }

  /** The first anchor of a page, met with room left, is stored unless the raw test
      skips it. */
  lemma ScanPageFirst(urls: seq<string>, h: string, hrefs: seq<Option<string>>, n: int)
    requires |urls| < n && Qualifies(h) && h !in urls
    ensures var r := ScanPage(urls, [Some(h)] + hrefs, n).urls;
      |urls| < |r| && r[..|urls| + 1] == urls + [Base + h]
  {
    var next := urls + [Base + h];
    assert ([Some(h)] + hrefs)[1..] == hrefs;
    ScanPageAppends(next, hrefs, n);
    assert next[..|urls| + 1] == next;
  }

  /** A page scan that is not cut short by the bound looks at every anchor: each
      qualifying href ends up stored with the prefix, or was already in the list as
      it stands (the raw test). A scan that is cut short has filled the list. */
  lemma {:induction false} ScanPageComplete(urls: seq<string>, hrefs: seq<Option<string>>, n: int)
    ensures var s := ScanPage(urls, hrefs, n);
      && (s.stopped ==> |s.urls| >= n)
      && (!s.stopped ==> forall u :: u in ExtractAll(hrefs) && Qualifies(u) ==> u in s.urls || Base + u in s.urls)
    decreases |hrefs|
  {
    var s := ScanPage(urls, hrefs, n);
    if hrefs != [] && |urls| < n {
      var url := ExtractUrl(hrefs[0]);
      var next := if Skipped(url, urls) then urls else urls + [Base + url];
      ScanPageComplete(next, hrefs[1..], n);
      ScanPageAppends(next, hrefs[1..], n);
      assert s == ScanPage(next, hrefs[1..], n);
      assert ExtractAll(hrefs) == [url] + ExtractAll(hrefs[1..]);
      if !s.stopped && Qualifies(url) {
        assert s.urls[..|next|] == next;
        if Skipped(url, urls) {
          assert url in next;
        } else {
          assert next[|urls|] == Base + url;
        }
      }
    }
  }

  /** What `find_articles` promises about the hrefs it meets: when it leaves fewer
      than `n` URLs, every qualifying href of every page it fetched is in the result,
      either prefixed (it was stored) or raw (the raw test found it there). */
  lemma {:induction false} DiscoverComplete(urls: seq<string>, seeds: seq<string>, fetch: string -> Fetch, n: int)
    ensures var r := Discover(urls, seeds, fetch, n).urls;
      |r| < n ==> forall u :: u in Candidates(seeds, fetch) && Qualifies(u) ==> u in r || Base + u in r
    decreases |seeds|
  {
    var r := Discover(urls, seeds, fetch, n).urls;
    if seeds != [] {
      match fetch(seeds[0])
      case TransportError =>
      case Page(hrefs) =>
        var s := ScanPage(urls, hrefs, n);
        ScanPageComplete(urls, hrefs, n);
        if !s.stopped && |r| < n {
          DiscoverComplete(s.urls, seeds[1..], fetch, n);
          DiscoverAppends(s.urls, seeds[1..], fetch, n);
          assert r == Discover(s.urls, seeds[1..], fetch, n).urls;
          assert r[..|s.urls|] == s.urls;
          forall u | u in Candidates(seeds, fetch) && Qualifies(u)
            ensures u in r || Base + u in r
          {
            assert Candidates(seeds, fetch) == ExtractAll(hrefs) + Candidates(seeds[1..], fetch);
            if u in ExtractAll(hrefs) {
              if u in s.urls {
                var k :| 0 <= k < |s.urls| && s.urls[k] == u;
                assert r[k] == u;
              } else {
                var k :| 0 <= k < |s.urls| && s.urls[k] == Base + u;
                assert r[k] == Base + u;
              }
            }
          }
        }
    }
  }

  /** The dedup test compares the raw href with prefixed URLs, so a relative href that
      occurs twice is stored twice, while an absolute href equal to a stored URL is
      skipped. */
  lemma RepeatedHrefIsStoredTwice()
    ensures var page := (s: string) => Page([Some("/news/1"), Some("/news/1")]);
      Discover([], ["https://krsk.sibnovosti.ru/news/"], page, 2).urls
        == [Base + "/news/1", Base + "/news/1"]
    ensures var page := (s: string) => Page([Some(Base + "/news/1")]);
      Discover([Base + "/news/1"], ["https://krsk.sibnovosti.ru/news/"], page, 2).urls
        == [Base + "/news/1"]
  {
    var u := Base + "/news/1";
    assert "/news/1" != u by { assert |"/news/1"| != |u|; }
    assert "/news/1" !in [u];
    assert u != "" && u != NotFound by { assert |u| != |NotFound|; }
    var absolute := (s: string) => Page([Some(u)]);
    var seeds := ["https://krsk.sibnovosti.ru/news/"];
    assert absolute(seeds[0]) == Page([Some(u)]);
    assert Skipped(ExtractUrl(Some(u)), [u]);
    assert ScanPage([u], [Some(u)], 2) == ScanPage([u], [], 2);
  }

  predicate NoDuplicates(us: seq<string>) {
    forall i, j :: 0 <= i < j < |us| ==> us[i] != us[j]
  }

  // ---------------------------------------------------------------- the intended dedup

  /** The skip test as evidently intended: look up the URL that would be stored. */
  predicate SkippedIntended(url: string, urls: seq<string>) {
    url == "" || Base + url in urls || url == NotFound
  }

  function ScanPageIntended(urls: seq<string>, hrefs: seq<Option<string>>, n: int): (r: ScanResult)
    decreases |hrefs|
    ensures NoDuplicates(urls) ==> NoDuplicates(r.urls)
  {
    if hrefs == [] then ScanResult(urls, false)
    else if |urls| >= n then ScanResult(urls, true)
    else
      var url := ExtractUrl(hrefs[0]);
      ScanPageIntended(if SkippedIntended(url, urls) then urls else urls + [Base + url], hrefs[1..], n)
  }

  /** `find_articles` with the intended dedup: a duplicate-free list stays duplicate-free. */
  function DiscoverIntended(urls: seq<string>, seeds: seq<string>, fetch: string -> Fetch, n: int): (r: Discovery)
    decreases |seeds|
    ensures NoDuplicates(urls) ==> NoDuplicates(r.urls)
  {
    if seeds == [] then Discovery(urls, false)
    else
      match fetch(seeds[0])
      case TransportError => Discovery(urls, true)
      case Page(hrefs) =>
        var s := ScanPageIntended(urls, hrefs, n);
        if s.stopped then Discovery(s.urls, false) else DiscoverIntended(s.urls, seeds[1..], fetch, n)
  }
}
