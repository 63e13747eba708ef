# A verified model of the news scrapper and its CoNLL-U pipeline

This project models two Python programs in Dafny and proves properties of the models.

The scrapper is `lab_5_scrapper/scrapper.py`. It does four things:
- It validates a JSON crawler configuration.
- It collects article links from the seed listing pages of one news site, up to a bound.
- It extracts each article's fields from its page, including a Russian date normaliser.
- It numbers the articles 1, 2, ... in crawl order.

The pipeline is `lab_6_pipeline/pipeline.py`. It does three things:
- It checks that a directory of raw article texts is a consistent corpus, meaning its IDs are exactly 1..N and no file is empty.
- It loads the corpus into an ID-keyed store.
- It splits each text into sentences and tokens, and derives the cleaned (lower-case, alphanumeric-only) form of each token and sentence.

Modules follow the source:
- `Wrappers`: `Option`, `Result`, `Outcome`.
- `Text`: models of the Python string methods the code calls (`lower`, `strip`, `split`, `' '.join`, `isalnum`, `isdigit`, `index`).
- `Articles`: the article record shared by both programs.
- `ScrapperConfig`: `Config` and its validation.
- `ScrapperCrawler`: `Crawler`.
- `ScrapperParser`: `HTMLParser` and the date normaliser.
- `ScrapperMain`: the article loop of `main`.
- `PipelineCorpus`: `CorpusManager`.
- `PipelineConllu`: `ConlluToken` and `ConlluSentence`.
- `PipelineMorph`: `MorphologicalAnalysisPipeline._process`.

Objects whose fields the source updates are Dafny classes:
- `Crawler.urls`;
- `HTMLParser.article`;
- `CorpusManager._storage`.

Their methods are proved against specification functions (`Discover`, `Parsed`, `Scan`). The loops of `find_articles`, `unify_date_format`, `main`, `_scan_dataset`, `get_cleaned`, `get_cleaned_sentence` and `_process` are `while`/`for` loops with invariants.

External collaborators become parameters:
- a page fetch: `fetch`, `pages`;
- the element texts BeautifulSoup would find: `PageData`;
- the directory listing, as a `PathState` of entries with names and sizes;
- `from_raw`: `read`;
- `split_by_sentence`: `splitBySentence`.

## Model

| member | source | states |
|---|---|---|
| ScrapperConfig.ValidateConfigContent | lab_5_scrapper/scrapper.py:92-126 | For each of the seven exceptions: it is raised exactly when every earlier check passes and its own check fails. The checks, in order, are: seed list and pattern; article count is a non-bool int ≥ 1; count ≤ limit; headers is a dict; encoding is a str; timeout is an int within the bounds; both flags are bools. |
| ScrapperConfig.AcceptedIffEveryFieldOk | lab_5_scrapper/scrapper.py:98-126 | The configuration is accepted exactly when each of the seven fields is acceptable on its own. |
| ScrapperConfig.CorruptingOneFieldReportsIt | lab_5_scrapper/scrapper.py:98-126 | Replace one field of an accepted configuration with a bad value. Validation then raises that field's exception and no other. |
| ScrapperConfig.BoolQuirks | lab_5_scrapper/scrapper.py:105-122 | A bool article count is rejected with IncorrectNumberOfArticlesError. A bool timeout passes the `isinstance(…, int)` test: `True` is accepted when 1 is within the timeout bounds, `False` when 0 is. |
| ScrapperConfig.MatchesSeedPattern | lab_5_scrapper/scrapper.py:101-103 | A URL passes `re.match(r'https?://.*/', url)` iff it starts with `http://` or `https://` and a `/` follows the scheme before any newline. |
| ScrapperConfig.SeedPatternExamples | lab_5_scrapper/scrapper.py:101-103 | The bare site root fails the pattern. A listing URL with a path passes. An `ftp://` URL fails. |
| ScrapperConfig.SeedUrlExamples | lab_5_scrapper/scrapper.py:98-103 | The seed check fails for a non-list, for a non-string element and for a URL without a path slash. It passes for a list of listing URLs. |
| ScrapperConfig.LoadConfig | lab_5_scrapper/scrapper.py:69-82 | Construction succeeds iff validation passes, and otherwise fails with validation's error. On success every stored field is the payload's own value: the i-th seed is the i-th configured string and matches the pattern, the count is the configured int within 1..limit, the timeout is the configured int (a bool as 0 or 1) within its bounds, and headers, encoding and both flags are the configured ones. |
| ScrapperCrawler.ExtractUrl | lab_5_scrapper/scrapper.py:196-202 | A string href is returned unchanged. The result is the sentinel `'url not found'` iff the href is missing or is that very string. |
| ScrapperCrawler.Crawler.constructor | lab_5_scrapper/scrapper.py:188-194 | The URL list starts empty and the seeds are the configuration's. |
| ScrapperCrawler.Crawler.FindArticles | lab_5_scrapper/scrapper.py:204-217 | The new URL list is `Discover` of the old one. `ok` is false exactly when a transport error escaped; the URLs stored before it remain. |
| ScrapperCrawler.ScanPageAppends | lab_5_scrapper/scrapper.py:211-217 | Scanning one page only appends, and never past the bound. Each appended URL is the site prefix plus a non-empty, non-sentinel href. The appended hrefs follow document order. |
| ScrapperCrawler.DiscoverAppends | lab_5_scrapper/scrapper.py:207-217 | Over all seeds: the list only grows, stays within the article bound when it started within it, and each new entry is a prefixed, non-empty, non-sentinel href. |
| ScrapperCrawler.DiscoverInOrder | lab_5_scrapper/scrapper.py:207-217 | With the prefix removed, the new entries are a subsequence of all hrefs fetched, taken in seed order and then document order. |
| ScrapperCrawler.ScanPageFirst | lab_5_scrapper/scrapper.py:211-217 | With room left, a first anchor whose href is non-empty, not the sentinel and not raw-present is stored as the next URL, prefixed. |
| ScrapperCrawler.ScanPageComplete | lab_5_scrapper/scrapper.py:211-217 | A scan cut short by the bound has filled the list. Otherwise every qualifying href of the page ends up in the list, prefixed, or raw (the raw test found it there). |
| ScrapperCrawler.DiscoverComplete | lab_5_scrapper/scrapper.py:207-217 | When fewer than the bound are found, every qualifying href of every page fetched is in the result, prefixed or raw. |
| ScrapperCrawler.FullListStaysPut | lab_5_scrapper/scrapper.py:212-213 | Once the list holds the bound, nothing more is appended. |
| ScrapperCrawler.RepeatedHrefIsStoredTwice | lab_5_scrapper/scrapper.py:215-217 | The dedup test compares the raw href with prefixed URLs. So a relative href that occurs twice is stored twice, while an absolute href equal to a stored URL is skipped. |
| ScrapperCrawler.ScanPageIntended | lab_5_scrapper/scrapper.py:211-217 | With the dedup test on the prefixed URL, a duplicate-free list stays duplicate-free over one page. |
| ScrapperCrawler.DiscoverIntended | lab_5_scrapper/scrapper.py:207-217 | With the dedup test on the prefixed URL, a duplicate-free list stays duplicate-free over all seeds. |
| ScrapperParser.UnifyDateFormat | lab_5_scrapper/scrapper.py:264-290 | The loop over the lower-cased tokens accumulates time, month code and day. The result is `strptime` of `2023-<month>-<day[:2]> <time>`, with `None` for the ValueError. Any result is a valid field range. |
| ScrapperParser.ParseTimestamp | lab_5_scrapper/scrapper.py:290 | A parsed timestamp always has its fields in range. |
| ScrapperParser.ParseFormat | lab_5_scrapper/scrapper.py:290 | Parsing the `%Y-%m-%d %H:%M` rendering of any in-range timestamp gives it back. |
| ScrapperParser.CollectTrailingDigits | lab_5_scrapper/scrapper.py:278-289 | Extra number tokens leave time and month alone and only lengthen the day string. Once the day already has two characters, `day[:2]` is the same with or without them. |
| ScrapperParser.UnifySiteLayout | lab_5_scrapper/scrapper.py:264-289 | For the site layout `HH:MM D month` (optionally followed by number tokens), the assembled string is `2023-<code>-<zero-padded day> HH:MM`. |
| ScrapperParser.MonthCodes | lab_5_scrapper/scrapper.py:270-273 | Every month code in the table is two digits naming a month 01..12. |
| ScrapperParser.ParseLayout | lab_5_scrapper/scrapper.py:289-290 | `strptime` of `2023-<code>-<dd> HH:MM` returns those fields, and fails exactly when one of them is out of range. |
| ScrapperParser.SiteDateTokensAnyCase | lab_5_scrapper/scrapper.py:268 | `lower().split()` of `HH:MM D month` is the time, the day and the case-folded month word. |
| ScrapperParser.AssembledSiteDate | lab_5_scrapper/scrapper.py:264-289 | For any `HH:MM D month` input in any letter case, the assembled string is `2023-<code of the lower-cased month>-<zero-padded day> HH:MM`. |
| ScrapperParser.UnifySiteDate | lab_5_scrapper/scrapper.py:264-290 | For any `HH:MM D month` input in any letter case, the result is the 2023 timestamp with the table's month (01..12), the day, hour and minute, or the ValueError exactly when one is out of range. |
| ScrapperParser.SiteDateTokens | lab_5_scrapper/scrapper.py:268 | `"14:30 5 марта".lower().split()` is the three tokens. |
| ScrapperParser.AssembleExample | lab_5_scrapper/scrapper.py:264-289 | `"14:30 5 марта"` assembles to `2023-03-05 14:30`. |
| ScrapperParser.ParseExample | lab_5_scrapper/scrapper.py:290 | `2023-03-05 14:30` parses to 5 March 2023, 14:30. |
| ScrapperParser.UnifyExample | lab_5_scrapper/scrapper.py:264-290 | `"14:30 5 марта"` normalises to 5 March 2023, 14:30. |
| ScrapperParser.BodyTextWords | lab_5_scrapper/scrapper.py:240-246 | The words of the body are the words of the paragraphs, in order: joining loses no word and glues none together. |
| ScrapperParser.Authors | lab_5_scrapper/scrapper.py:254-257 | Always one author. It is the sentinel exactly when the byline is empty or is the sentinel itself; otherwise it is the byline text, unstripped. |
| ScrapperParser.DateInputTokens | lab_5_scrapper/scrapper.py:259-261 | The tokens of `hour + ' ' + date` are the comma-free hour's tokens followed by the date's tokens. |
| ScrapperParser.DateInputTrailingComma | lab_5_scrapper/scrapper.py:260-261 | The trailing comma after the hour is dropped. |
| ScrapperParser.DateInputExample | lab_5_scrapper/scrapper.py:259-262 | Hour `14:30,` with date `5 марта` gives 5 March 2023, 14:30. |
| ScrapperParser.Parsed | lab_5_scrapper/scrapper.py:293-301 | A page yields an article iff its date parses. URL and ID are kept, the author list is never empty, and the topic is appended. |
| ScrapperParser.ArticleFor | lab_5_scrapper/scrapper.py:231-301 | A fresh parser's article carries the URL and ID it was built with, an in-range date and exactly the page's topic. |
| ScrapperParser.HtmlParser.constructor | lab_5_scrapper/scrapper.py:231-238 | The parser keeps URL, ID and config, and starts from `Article(url, id)`. |
| ScrapperParser.HtmlParser.FillArticleWithText | lab_5_scrapper/scrapper.py:240-246 | Only the text changes. It becomes the stripped paragraphs joined by single spaces. |
| ScrapperParser.HtmlParser.FillArticleWithMetaInformation | lab_5_scrapper/scrapper.py:248-262 | Sets three fields: the stripped title, the author list, and the appended topic. The date is set iff it parses; a ValueError leaves the other fields already set. |
| ScrapperParser.HtmlParser.Parse | lab_5_scrapper/scrapper.py:293-301 | Succeeds iff `Parsed` does, and the article is then `Parsed`'s article. On the date's ValueError the article keeps what was set before it: the joined text, the stripped title, the author list and the appended topic, with everything else unchanged. |
| ScrapperMain.PageArticle | lab_5_scrapper/scrapper.py:321-324 | The article one turn of the loop gets for a URL and an ID carries that URL and that ID. It is absent when fetching or parsing the page raised. |
| ScrapperMain.SaveArticles | lab_5_scrapper/scrapper.py:321-326 | The articles written, and whether the loop finished, are those of `ScrapeFrom` from ID 1, with `PageArticle` as each turn's parse. |
| ScrapperMain.ScrapeCount | lab_5_scrapper/scrapper.py:321-326 | At most one article is written per URL. The run completes iff every URL gave one. |
| ScrapperMain.ScrapeIds | lab_5_scrapper/scrapper.py:321-326 | When each turn's parse labels its article with the URL and ID it was given, the i-th written article carries the i-th URL and ID `id + i`. |
| ScrapperMain.WrittenIdsContiguous | lab_5_scrapper/scrapper.py:321-326 | However the run ends, the written IDs are exactly 1..k. |
| PipelineCorpus.RawEntries | lab_6_pipeline/pipeline.py:48 | glob keeps exactly the entries ending in `_raw.txt`. |
| PipelineCorpus.ValidateDataset | lab_6_pipeline/pipeline.py:38-54 | For each error, states the exact condition for it. FileNotFound iff the path is missing. NotADirectory iff it is no directory. EmptyDirectory iff there are no entries. InconsistentDataset iff a raw file is empty, or the parsed IDs fail the sort check. ValueError iff some prefix is no integer. Passes iff none of these. |
| PipelineCorpus.SortIsSortedPermutation | lab_6_pipeline/pipeline.py:53 | `sorted` returns an ascending permutation of its input. |
| PipelineCorpus.ConsistentIdsIff | lab_6_pipeline/pipeline.py:53-54 | `sorted(ids) == list(range(1, n + 1))` iff the IDs are distinct and all lie in 1..n. |
| PipelineCorpus.IdCheckExamples | lab_6_pipeline/pipeline.py:53-54 | `[3, 1, 2]` passes; a gap `[1, 2, 4]` and a duplicate `[1, 1]` fail. |
| PipelineCorpus.ParseDecimal | lab_6_pipeline/pipeline.py:52 | `int()` reads back the decimal rendering of any natural number. |
| PipelineCorpus.RawNameId | lab_6_pipeline/pipeline.py:52 | `<id>_raw.txt` is a raw file name, and its prefix parses to `id`. |
| PipelineCorpus.NoRawFilesPass | lab_6_pipeline/pipeline.py:46-54 | A non-empty directory without raw files passes, since the empty ID list equals `range(1, 1)`. |
| PipelineCorpus.ScrappedCorpusPasses | lab_6_pipeline/pipeline.py:42-54 | A directory holding non-empty raw files `1_raw.txt` … `n_raw.txt` passes the check. |
| PipelineCorpus.ScanKeys | lab_6_pipeline/pipeline.py:56-63 | After the scan, the storage keys are the old keys plus the IDs of the articles read. |
| PipelineCorpus.ScanValues | lab_6_pipeline/pipeline.py:61-63 | When the articles' IDs are distinct, each ID maps to the article of its own file. |
| PipelineCorpus.ScanAfterValidation | lab_6_pipeline/pipeline.py:35-63 | After a passed check, with a reader that returns each file's own ID, the storage holds exactly IDs 1..n, each mapped to its file's article. |
| PipelineCorpus.CorpusManager.Empty | lab_6_pipeline/pipeline.py:33-34 | The path is set and the storage is empty. |
| PipelineCorpus.CorpusManager.Open | lab_6_pipeline/pipeline.py:29-36 | Construction fails iff validation fails, and then with the same error. On success the manager is fresh and its storage is the scan of the raw files. |
| PipelineCorpus.CorpusManager.ScanDataset | lab_6_pipeline/pipeline.py:56-63 | The storage becomes `Scan` of the old storage over the raw files in listing order; a later file overwrites an earlier one with the same ID. |
| PipelineCorpus.CorpusManager.GetArticles | lab_6_pipeline/pipeline.py:65-69 | The keys are the IDs read. With a reader faithful to the file names, they are exactly 1..n. |
| PipelineConllu.GetCleaned | lab_6_pipeline/pipeline.py:110-118 | The result is the alphanumeric characters of the lower-cased text, in order. |
| PipelineConllu.AlnumOnly | lab_6_pipeline/pipeline.py:115-117 | The loop keeps exactly the `isalnum` characters, in order. |
| PipelineConllu.StripIrrelevant | lab_6_pipeline/pipeline.py:115 | The `strip()` before the loop does not change the cleaned form. |
| PipelineConllu.CleanedChars | lab_6_pipeline/pipeline.py:110-118 | Every character of a cleaned form is alphanumeric, not upper-case, not whitespace. |
| PipelineConllu.CleanedTrimmed | lab_6_pipeline/pipeline.py:140-141 | `strip()` leaves a cleaned form unchanged. |
| PipelineConllu.CleanedIdempotent | lab_6_pipeline/pipeline.py:110-118 | Cleaning a cleaned form changes nothing. |
| PipelineConllu.CleanedExamples | lab_6_pipeline/pipeline.py:110-118 | `...` cleans to the empty string and `Hi!` to `hi`. |
| PipelineConllu.CyrillicCleanedExample | lab_6_pipeline/pipeline.py:110-118 | `Привет!` cleans to `привет`: Cyrillic capitals are folded and the letters kept. |
| PipelineConllu.CleanedWordsAreWords | lab_6_pipeline/pipeline.py:148-151 | There are no more kept words than tokens, and each kept word is a non-empty run without whitespace. |
| PipelineConllu.GetCleanedSentence | lab_6_pipeline/pipeline.py:144-152 | The result is the non-empty cleaned token forms, in token order, joined by single spaces. |
| PipelineConllu.CleanedSentenceTrimmed | lab_6_pipeline/pipeline.py:152 | The final `strip()` changes nothing. |
| PipelineConllu.CleanedSentenceWords | lab_6_pipeline/pipeline.py:144-152 | Splitting the cleaned sentence gives back exactly the kept words, so it has no more words than the sentence has tokens. |
| PipelineConllu.CleanedWordsSnoc | lab_6_pipeline/pipeline.py:149-151 | A token that cleans to nothing is dropped; any other contributes its cleaned form as the next word. |
| PipelineConllu.CleanedSentenceExample | lab_6_pipeline/pipeline.py:144-152 | Tokens `Hi!`, `...`, `Hi!` give `hi hi`. |
| PipelineConllu.GetConlluText | lab_6_pipeline/pipeline.py:134-142 | Returns the cleaned sentence, whatever the flag. |
| PipelineMorph.TokensOf | lab_6_pipeline/pipeline.py:211 | One token per whitespace-separated word, in order, each holding the word itself: the `strip()` is the identity. |
| PipelineMorph.Segmented | lab_6_pipeline/pipeline.py:208-213 | One sentence per splitter sentence, in order. Each has position `index + 1` of the first equal sentence, its text, and its tokens. |
| PipelineMorph.Process | lab_6_pipeline/pipeline.py:204-213 | The list built by the loop is `Segmented` of the splitter's output. |
| PipelineMorph.SegmentedContent | lab_6_pipeline/pipeline.py:210-212 | Each sentence's text is the splitter's sentence, and its tokens are the words of that sentence. |
| PipelineMorph.PositionIsFirstOccurrence | lab_6_pipeline/pipeline.py:212 | The position p lies in 1..i+1, sentence p - 1 equals this one, and no earlier sentence does. |
| PipelineMorph.EqualSentencesSharePosition | lab_6_pipeline/pipeline.py:212 | Equal sentences get the same position. |
| PipelineMorph.DistinctSentencePositions | lab_6_pipeline/pipeline.py:212 | When no sentence repeats, the positions are exactly 1..n. |
| PipelineMorph.RepeatedSentenceExample | lab_6_pipeline/pipeline.py:212 | `A.`, `B.`, `A.` get positions 1, 2, 1. |
| PipelineMorph.CleanedSentenceOfProcessed | lab_6_pipeline/pipeline.py:144-152 | The cleaned text of a processed sentence has no more words than the sentence. |

## Left out

- Fetching pages (`make_request`, `requests.get`), HTML parsing (BeautifulSoup `find`/`find_all`), reading and writing files (`json.load`, `from_raw`, `to_raw`, `to_meta`) and `split_by_sentence`. These are given as parameters or as data: the element texts a page would yield, the directory listing, the reader, the splitter.
- `Config` getters, `Crawler.get_search_urls` and `_extract_config_content`: the getters only return stored fields, which are the fields of `RunConfig` (`LoadConfig` states what they hold); JSON decoding is not modelled, and the payload arrives as decoded values.
- `NUM_ARTICLES_UPPER_LIMIT`, `TIMEOUT_LOWER_LIMIT`, `TIMEOUT_UPPER_LIMIT`: `core_utils/constants.py` is not part of this model. The bounds are a `Limits` parameter, and every check uses them inclusively, as the code does.
- `prepare_environment` and the start of `main` (config file path, directory reset): file-system effects.
- `MorphologicalAnalysisPipeline.run`, `to_cleaned`, `set_conllu_sentences`, the `MorphologicalTokenDTO` and tag-converter stubs, `AdvancedMorphologicalAnalysisPipeline` and pipeline `main`: `run` only hands each article's text to `_process` and writes the result through I/O. The other members have empty bodies in the source.
- ParseTimestamp (ScrapperParser.ParseTimestamp): models `strptime('%Y-%m-%d %H:%M')` strictly. It requires exactly two digits per field and checks only field ranges (day 1..31), not month lengths. Python also accepts one-digit fields and rejects 30 February; those inputs are not modelled.
- Character classes: `str.lower`, `isalnum` and `isupper` are modelled for ASCII and the basic Cyrillic block (U+0400..U+045F) only, and `isdigit` for ASCII digits. Other Unicode letters and digits are treated as non-alphanumeric. Python's whitespace set for `split`/`strip` is modelled in full.
- ParseInt (PipelineCorpus.ParseInt): `int()` on a string is modelled as optional whitespace, an optional sign and ASCII digits. Unicode digits and `_` separators, which Python also accepts, are not modelled.
- Listing order: `Path.glob` order is taken to be the order of the given entries. Python leaves it to the file system.
- GetCleanedSentence (PipelineConllu.GetCleanedSentence): the source calls `get_cleaned()` twice per token, once for the test and once for the value. The model calls it once; both calls return the same string.
- Behaviour of the code as written that the model keeps:
  - the author is stored unstripped;
  - `main` catches no exception, so one page that fails to fetch or whose date does not parse ends the whole run (`SaveArticles` returns `completed == false`);
  - discovery dedups on the raw href (see Findings);
  - sentence positions come from `sentences.index(sentence) + 1`, so a repeated sentence reuses its first position.

## Findings

| source | as written | input that shows it | evidently intended | confidence | as-written member | corrected member |
|---|---|---|---|---|---|---|
| lab_5_scrapper/scrapper.py:215-217 | `url in self.urls` looks up the relative href, but the list stores `'https://krsk.sibnovosti.ru' + url`, so the test never matches a relative href again | one seed page whose anchors both have href `/news/1`, with a bound of 2: both are stored, giving the same URL twice | look up the prefixed URL, so the discovered list has no duplicates | not executed | ScrapperCrawler.RepeatedHrefIsStoredTwice | ScrapperCrawler.DiscoverIntended |

`Crawler.FindArticles` keeps the behaviour as written, which is what the program does. `DiscoverIntended` and `ScanPageIntended` carry the dedup as intended, and they are proved to keep a duplicate-free list duplicate-free.
