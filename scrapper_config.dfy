/**
 * `Config` of lab_5_scrapper/scrapper.py: the fail-fast validation of the crawler's
 * JSON configuration and the typed, read-only configuration it yields.
 *
 * The payload is modelled as already decoded from JSON into Python values.
 * The bounds `NUM_ARTICLES_UPPER_LIMIT`, `TIMEOUT_LOWER_LIMIT` and
 * `TIMEOUT_UPPER_LIMIT` live in `core_utils/constants.py`, which is not part of
 * this model, so they are a parameter.
 */
module ScrapperConfig {
  import opened Wrappers
  import opened Text

  /** A value `json.load` can produce; `None` and floats are `VOther`. */
  datatype Value =
    | VInt(i: int)
    | VBool(b: bool)
    | VStr(s: string)
    | VList(items: seq<Value>)
    | VDict(entries: seq<(string, Value)>)
    | VOther

  /** `isinstance(v, int)`: true of bools too, since `bool` is a subclass of `int`. */
  predicate IsInt(v: Value) {
    v.VInt? || v.VBool?
  }

  /** The integer a Python `int` (or `bool`: `True == 1`, `False == 0`) stands for. */
  function IntOf(v: Value): int
    requires IsInt(v)
  {
    if v.VInt? then v.i else if v.b then 1 else 0
  }

  /** The seven fields of the configuration file, as `ConfigDTO` receives them. */
  datatype ConfigPayload = ConfigPayload(
    seedUrls: Value,
    totalArticles: Value,
    headers: Value,
    encoding: Value,
    timeout: Value,
    shouldVerifyCertificate: Value,
    headlessMode: Value)

  datatype Limits = Limits(numArticlesUpperLimit: int, timeoutLowerLimit: int, timeoutUpperLimit: int)

  /** One error kind per exception class of the source. */
  datatype ConfigError =
    | IncorrectSeedURL
    | IncorrectNumberOfArticles
    | NumberOfArticlesOutOfRange
    | IncorrectHeaders
    | IncorrectEncoding
    | IncorrectTimeout
    | IncorrectVerify

  // ---------------------------------------------------------------- the seed URL pattern

  // The pattern `https?://` + `.*` + `/` under `re.match`, read literally: one of the
  // two schemes at the start, then a '/' at or after `start` with no newline before
  // it (`.` does not match a newline).
  ghost predicate SlashAfter(url: string, start: nat) {
    exists j :: start <= j < |url| && url[j] == '/' && forall k :: start <= k < j ==> url[k] != '\n'
  }

  ghost predicate SeedPattern(url: string) {
    || (StartsWith(url, "http://") && SlashAfter(url, 7))
    || (StartsWith(url, "https://") && SlashAfter(url, 8))
  }

  /** The regular expression's scan: the first '/' or newline from `p` on decides. */
  predicate SlashFrom(url: string, p: nat)
    decreases |url| - p
  {
    if p >= |url| then false
    else if url[p] == '/' then true
    else if url[p] == '\n' then false
    else SlashFrom(url, p + 1)
  }

  lemma {:induction false} SlashFromIsSlashAfter(url: string, p: nat)
    ensures SlashFrom(url, p) <==> SlashAfter(url, p)
    decreases |url| - p
  {
    if p >= |url| {
    } else if url[p] == '/' {
      assert url[p] == '/';
    } else if url[p] == '\n' {
      forall j | p <= j < |url| && url[j] == '/'
        ensures exists k :: p <= k < j && url[k] == '\n'
      {
        assert p < j && url[p] == '\n';
      }
    } else {
      SlashFromIsSlashAfter(url, p + 1);
      if SlashAfter(url, p) {
        var j :| p <= j < |url| && url[j] == '/' && forall k :: p <= k < j ==> url[k] != '\n';
        assert j != p;
        assert p + 1 <= j && forall k :: p + 1 <= k < j ==> url[k] != '\n';
      }
      if SlashAfter(url, p + 1) {
        var j :| p + 1 <= j < |url| && url[j] == '/' && forall k :: p + 1 <= k < j ==> url[k] != '\n';
        assert forall k :: p <= k < j ==> url[k] != '\n';
      }
    }
  }

  // Whether one seed URL passes the `re.match` of the seed pattern.
  predicate MatchesSeedPattern(url: string): (r: bool)
    ensures r <==> SeedPattern(url)
  {
    SlashFromIsSlashAfter(url, 7);
    SlashFromIsSlashAfter(url, 8);
    assert StartsWith(url, "https://") ==> url[4] == "https://"[4] == 's';
    assert StartsWith(url, "http://") ==> url[4] == "http://"[4] == ':';
    if StartsWith(url, "https://") then SlashFrom(url, 8)
    else if StartsWith(url, "http://") then SlashFrom(url, 7)
    else false
  }

  // ---------------------------------------------------------------- the individual checks

  /** `seed_urls` is a list and every element is a string matching the pattern. */
  predicate SeedUrlsOk(v: Value) {
    v.VList? && forall i :: 0 <= i < |v.items| ==> v.items[i].VStr? && MatchesSeedPattern(v.items[i].s)
  }

  /** `total_articles` is an int, not a bool, and at least 1. */
  predicate ArticleCountWellFormed(v: Value) {
    v.VInt? && v.i >= 1
  }

  /** `total_articles` does not exceed the upper limit (reached only once it is a plain int). */
  predicate ArticleCountInRange(v: Value, lim: Limits) {
    v.VInt? ==> v.i <= lim.numArticlesUpperLimit
  }

  /** `timeout` is an int (a bool counts) within the inclusive bounds. */
  predicate TimeoutOk(v: Value, lim: Limits) {
    IsInt(v) && lim.timeoutLowerLimit <= IntOf(v) <= lim.timeoutUpperLimit
  }

  /** `Config._validate_config_content`: the checks in the source's order; the first
      one that fails decides the error. */
  function ValidateConfigContent(c: ConfigPayload, lim: Limits): (r: Outcome<ConfigError>)
    ensures r == Fail(IncorrectSeedURL) <==> !SeedUrlsOk(c.seedUrls)
    ensures r == Fail(IncorrectNumberOfArticles) <==>
      SeedUrlsOk(c.seedUrls) && !ArticleCountWellFormed(c.totalArticles)
    ensures r == Fail(NumberOfArticlesOutOfRange) <==>
      SeedUrlsOk(c.seedUrls) && ArticleCountWellFormed(c.totalArticles)
      && c.totalArticles.i > lim.numArticlesUpperLimit
    ensures r == Fail(IncorrectHeaders) <==>
      SeedUrlsOk(c.seedUrls) && ArticleCountWellFormed(c.totalArticles)
      && ArticleCountInRange(c.totalArticles, lim) && !c.headers.VDict?
    ensures r == Fail(IncorrectEncoding) <==>
      SeedUrlsOk(c.seedUrls) && ArticleCountWellFormed(c.totalArticles)
      && ArticleCountInRange(c.totalArticles, lim) && c.headers.VDict? && !c.encoding.VStr?
    ensures r == Fail(IncorrectTimeout) <==>
      SeedUrlsOk(c.seedUrls) && ArticleCountWellFormed(c.totalArticles)
      && ArticleCountInRange(c.totalArticles, lim) && c.headers.VDict? && c.encoding.VStr?
      && !TimeoutOk(c.timeout, lim)
    ensures r == Fail(IncorrectVerify) <==>
      SeedUrlsOk(c.seedUrls) && ArticleCountWellFormed(c.totalArticles)
      && ArticleCountInRange(c.totalArticles, lim) && c.headers.VDict? && c.encoding.VStr?
      && TimeoutOk(c.timeout, lim)
      && !(c.shouldVerifyCertificate.VBool? && c.headlessMode.VBool?)
  {
    if !c.seedUrls.VList? then Fail(IncorrectSeedURL)
    else if exists i :: 0 <= i < |c.seedUrls.items| && !(c.seedUrls.items[i].VStr? && MatchesSeedPattern(c.seedUrls.items[i].s))
    then Fail(IncorrectSeedURL)
    else if !IsInt(c.totalArticles) || c.totalArticles.VBool? || IntOf(c.totalArticles) < 1
    then Fail(IncorrectNumberOfArticles)
    else if IntOf(c.totalArticles) > lim.numArticlesUpperLimit then Fail(NumberOfArticlesOutOfRange)
    else if !c.headers.VDict? then Fail(IncorrectHeaders)
    else if !c.encoding.VStr? then Fail(IncorrectEncoding)
    else if !IsInt(c.timeout) || IntOf(c.timeout) < lim.timeoutLowerLimit
            || IntOf(c.timeout) > lim.timeoutUpperLimit
    then Fail(IncorrectTimeout)
    else if !c.shouldVerifyCertificate.VBool? || !c.headlessMode.VBool? then Fail(IncorrectVerify)
    else Pass
  }

  // ---------------------------------------------------------------- the validated configuration

  /** The getters of `Config`, once the payload is known to be well typed. */
  datatype RunConfig = RunConfig(
    seedUrls: seq<string>,
    numArticles: int,
    headers: seq<(string, Value)>,
    encoding: string,
    timeout: int,
    verifyCertificate: bool,
    headlessMode: bool)

  function SeedStrings(items: seq<Value>): (r: seq<string>)
    requires forall i :: 0 <= i < |items| ==> items[i].VStr?
    ensures |r| == |items| && forall i :: 0 <= i < |items| ==> r[i] == items[i].s
  {
    if items == [] then [] else [items[0].s] + SeedStrings(items[1..])
  }

  /** `Config.__init__`: validate, then keep the payload's own values. A failed check
      is the raised exception. */
  function LoadConfig(c: ConfigPayload, lim: Limits): (r: Result<RunConfig, ConfigError>)
    ensures r.Success? <==> ValidateConfigContent(c, lim) == Pass
    ensures r.Failure? ==> ValidateConfigContent(c, lim) == Fail(r.error)
    ensures r.Success? ==>
      && |r.value.seedUrls| == |c.seedUrls.items|
      && (forall i :: 0 <= i < |r.value.seedUrls| ==>
            c.seedUrls.items[i] == VStr(r.value.seedUrls[i]) && SeedPattern(r.value.seedUrls[i]))
      && c.totalArticles == VInt(r.value.numArticles)
      && 1 <= r.value.numArticles <= lim.numArticlesUpperLimit
      && c.headers == VDict(r.value.headers)
      && c.encoding == VStr(r.value.encoding)
      && IsInt(c.timeout) && r.value.timeout == IntOf(c.timeout)
      && lim.timeoutLowerLimit <= r.value.timeout <= lim.timeoutUpperLimit
      && c.shouldVerifyCertificate == VBool(r.value.verifyCertificate)
      && c.headlessMode == VBool(r.value.headlessMode)
  {
    match ValidateConfigContent(c, lim)
    case Fail(e) => Failure(e)
    case Pass =>
      Success(RunConfig(
        SeedStrings(c.seedUrls.items),
        c.totalArticles.i,
        c.headers.entries,
        c.encoding.s,
        IntOf(c.timeout),
        c.shouldVerifyCertificate.b,
        c.headlessMode.b))
  }

  // ---------------------------------------------------------------- properties

  /** The seven fields, in the order the validator visits them. */
  datatype Field = SeedUrls | TotalArticles | Headers | Encoding | Timeout | VerifyCertificate | HeadlessMode

  function Get(c: ConfigPayload, f: Field): Value {
    match f
    case SeedUrls => c.seedUrls
    case TotalArticles => c.totalArticles
    case Headers => c.headers
    case Encoding => c.encoding
    case Timeout => c.timeout
    case VerifyCertificate => c.shouldVerifyCertificate
    case HeadlessMode => c.headlessMode
  }

  function With(c: ConfigPayload, f: Field, v: Value): ConfigPayload {
    match f
    case SeedUrls => c.(seedUrls := v)
    case TotalArticles => c.(totalArticles := v)
    case Headers => c.(headers := v)
    case Encoding => c.(encoding := v)
    case Timeout => c.(timeout := v)
    case VerifyCertificate => c.(shouldVerifyCertificate := v)
    case HeadlessMode => c.(headlessMode := v)
  }

  /** What each field must be, on its own. */
  predicate FieldOk(f: Field, v: Value, lim: Limits) {
    match f
    case SeedUrls => SeedUrlsOk(v)
    case TotalArticles => ArticleCountWellFormed(v) && v.i <= lim.numArticlesUpperLimit
    case Headers => v.VDict?
    case Encoding => v.VStr?
    case Timeout => TimeoutOk(v, lim)
    case VerifyCertificate => v.VBool?
    case HeadlessMode => v.VBool?
  }

  /** The exception a bad value of one field raises. */
  function ErrorFor(f: Field, v: Value): ConfigError {
    match f
    case SeedUrls => IncorrectSeedURL
    case TotalArticles =>
      if ArticleCountWellFormed(v) then NumberOfArticlesOutOfRange else IncorrectNumberOfArticles
    case Headers => IncorrectHeaders
    case Encoding => IncorrectEncoding
    case Timeout => IncorrectTimeout
    case VerifyCertificate => IncorrectVerify
    case HeadlessMode => IncorrectVerify
  }

  /** The configuration is accepted exactly when every field is acceptable. */
  lemma AcceptedIffEveryFieldOk(c: ConfigPayload, lim: Limits)
    ensures ValidateConfigContent(c, lim) == Pass <==> forall f: Field :: FieldOk(f, Get(c, f), lim)
  {
    if forall f: Field :: FieldOk(f, Get(c, f), lim) {
      assert FieldOk(SeedUrls, Get(c, SeedUrls), lim);
      assert FieldOk(TotalArticles, Get(c, TotalArticles), lim);
      assert FieldOk(Headers, Get(c, Headers), lim);
      assert FieldOk(Encoding, Get(c, Encoding), lim);
      assert FieldOk(Timeout, Get(c, Timeout), lim);
      assert FieldOk(VerifyCertificate, Get(c, VerifyCertificate), lim);
      assert FieldOk(HeadlessMode, Get(c, HeadlessMode), lim);
    }
  }

  /** Corrupting one field of an accepted configuration is reported as that field's
      error and no other. */
  lemma CorruptingOneFieldReportsIt(c: ConfigPayload, lim: Limits, f: Field, v: Value)
    requires ValidateConfigContent(c, lim) == Pass
    requires !FieldOk(f, v, lim)
    ensures ValidateConfigContent(With(c, f, v), lim) == Fail(ErrorFor(f, v))
  {
    AcceptedIffEveryFieldOk(c, lim);
    assert FieldOk(SeedUrls, Get(c, SeedUrls), lim);
    assert FieldOk(TotalArticles, Get(c, TotalArticles), lim);
    assert FieldOk(Timeout, Get(c, Timeout), lim);
  }

  /** A bool article count is rejected although `isinstance(True, int)` holds, while a
      bool timeout is accepted as the number it stands for: `True` as 1, `False` as 0. */
  lemma BoolQuirks(c: ConfigPayload, lim: Limits)
    requires ValidateConfigContent(c, lim) == Pass
    ensures ValidateConfigContent(c.(totalArticles := VBool(true)), lim) == Fail(IncorrectNumberOfArticles)
    ensures lim.timeoutLowerLimit <= 1 <= lim.timeoutUpperLimit ==>
      ValidateConfigContent(c.(timeout := VBool(true)), lim) == Pass
    ensures lim.timeoutLowerLimit <= 0 <= lim.timeoutUpperLimit ==>
      ValidateConfigContent(c.(timeout := VBool(false)), lim) == Pass
  {
  }

  /** A site root without a path slash fails the pattern; a listing URL passes. */
  lemma SeedPatternExamples()
    ensures !MatchesSeedPattern("https://krsk.sibnovosti.ru")
    ensures MatchesSeedPattern("https://krsk.sibnovosti.ru/news/")
    ensures !MatchesSeedPattern("ftp://krsk.sibnovosti.ru/")
  {
    SiteRootFails();
    ListingUrlPasses();
    OtherSchemeFails();
  }

  lemma OtherSchemeFails()
    ensures !MatchesSeedPattern("ftp://krsk.sibnovosti.ru/")
  {
    var ftp := "ftp://krsk.sibnovosti.ru/";
    assert !StartsWith(ftp, "https://") by { assert ftp[0] != "https://"[0]; }
    assert !StartsWith(ftp, "http://") by { assert ftp[0] != "http://"[0]; }
  }

  lemma SiteRootFails()
    ensures !MatchesSeedPattern("https://krsk.sibnovosti.ru")
  {
    var bare := "https://krsk.sibnovosti.ru";
    assert StartsWith(bare, "https://");
    assert forall j :: 8 <= j < |bare| ==> bare[j] != '/';
    SlashFromIsSlashAfter(bare, 8);
  }

  lemma ListingUrlPasses()
    ensures MatchesSeedPattern("https://krsk.sibnovosti.ru/news/")
  {
    var good := "https://krsk.sibnovosti.ru/news/";
    assert StartsWith(good, "https://");
    assert good[26] == '/';
    assert forall k :: 8 <= k < 26 ==> good[k] != '\n';
    SlashFromIsSlashAfter(good, 8);
  }

  /** A non-list seed value, an element that is not a string, or a URL without a
      path slash makes the seed check fail, so any payload holding it raises
      IncorrectSeedURL. */
  lemma SeedUrlExamples()
    ensures !SeedUrlsOk(VStr("https://krsk.sibnovosti.ru/"))
    ensures !SeedUrlsOk(VList([VInt(1)]))
    ensures !SeedUrlsOk(VList([VStr("https://krsk.sibnovosti.ru")]))
    ensures SeedUrlsOk(VList([VStr("https://krsk.sibnovosti.ru/news/")]))
  {
    SeedPatternExamples();
    var int1 := VList([VInt(1)]);
    assert !int1.items[0].VStr?;
    var bad := VList([VStr("https://krsk.sibnovosti.ru")]);
    assert bad.items[0] == VStr("https://krsk.sibnovosti.ru");
    assert !MatchesSeedPattern(bad.items[0].s);
    var good := VList([VStr("https://krsk.sibnovosti.ru/news/")]);
    assert |good.items| == 1 && good.items[0] == VStr("https://krsk.sibnovosti.ru/news/");
    assert MatchesSeedPattern(good.items[0].s);
  }
}
