/**
 * `HTMLParser` of lab_5_scrapper/scrapper.py: the field-extraction rules for one
 * article page and the Russian date normaliser `unify_date_format`.
 *
 * Locating elements in the page (BeautifulSoup's `find` / `find_all` and their
 * `.text`) is given as data: each fill method receives the texts of the
 * elements it would have found.
 */
module ScrapperParser {
  import opened Wrappers
  import opened Text
  import opened Articles
  import opened ScrapperConfig

  // ---------------------------------------------------------------- the date normaliser

  /** The fixed table of genitive month names. */
  const Months: map<string, string> := map[
    "января" := "01", "февраля" := "02", "марта" := "03",
    "апреля" := "04", "мая" := "05", "июня" := "06",
    "июля" := "07", "августа" := "08", "сентября" := "09",
    "октября" := "10", "ноября" := "11", "декабря" := "12"]

  /** The month code a token contributes when it is a key of the month table
      (always `Months` here; the loop lemmas hold for any table). */
  function MonthCode(table: map<string, string>, e: string): string {
    if e in table then table[e] else ""
  }

  /** The year every date is placed in. */
  const Year := "2023"

  /** The day tokens that get a leading zero. */
  const SingleDigits: seq<string> := ["1", "2", "3", "4", "5", "6", "7", "8", "9"]

  /** The three strings the loop of `unify_date_format` accumulates. */
  datatype DateParts = DateParts(time: string, month: string, day: string)

  /** What one token adds to the day: '1'..'9' padded, other digit strings as they are. */
  function DayPiece(e: string): string {
    if IsDigits(e) && e in SingleDigits then "0" + e
    else if IsDigits(e) && e !in SingleDigits then e
    else ""
  }

  /** One turn of the loop: the three tests are independent `if`s. */
  function Step(table: map<string, string>, p: DateParts, e: string): DateParts {
    DateParts(
      p.time + (if ':' in e then e else ""),
      p.month + MonthCode(table, e),
      p.day + DayPiece(e))
  }

  /** The accumulators after the loop has seen `tokens`, looking months up in `table`. */
  function Collect(table: map<string, string>, tokens: seq<string>): DateParts
    decreases |tokens|
  {
    if tokens == [] then DateParts("", "", "")
    else Step(table, Collect(table, tokens[..|tokens| - 1]), tokens[|tokens| - 1])
  }

  /** Python's `s[:k]`. */
  function Take(s: string, k: nat): (r: string)
    ensures |r| <= k && StartsWithOrIs(s, r)
  {
    if |s| <= k then s else s[..k]
  }

  predicate StartsWithOrIs(s: string, r: string) {
    |r| <= |s| && s[..|r|] == r
  }

  /** The string `unify_date_format` builds from the tokens of its input. */
  function Assemble(tokens: seq<string>): string {
    var p := Collect(Months, tokens);
    Year + "-" + p.month + "-" + Take(p.day, 2) + " " + p.time
  }

  /** The string `unify_date_format` hands to `strptime`. */
  function AssembledDate(dateStr: string): string {
    Assemble(Split(Lower(dateStr)))
  }

  // ---------------------------------------------------------------- strptime('%Y-%m-%d %H:%M')

  function Digit(c: char): int {
    c as int - '0' as int
  }

  function Num2(s: string, i: nat): int
    requires i + 2 <= |s|
  {
    10 * Digit(s[i]) + Digit(s[i + 1])
  }

  function Num4(s: string, i: nat): int
    requires i + 4 <= |s|
  {
    100 * Num2(s, i) + Num2(s, i + 2)
  }

  predicate DigitsAt(s: string, lo: nat, hi: nat)
    requires lo <= hi <= |s|
  {
    forall i :: lo <= i < hi ==> IsDigit(s[i])
  }

  /** The fields of a timestamp that a `datetime` can hold (calendar lengths aside). */
  predicate InRange(t: Timestamp) {
    1 <= t.year <= 9999 && 1 <= t.month <= 12 && 1 <= t.day <= 31
    && 0 <= t.hour <= 23 && 0 <= t.minute <= 59
  }

  /** `datetime.strptime(s, '%Y-%m-%d %H:%M')` on the fixed-width layout
      `DDDD-DD-DD DD:DD`; `None` is the raised ValueError. */
  function ParseTimestamp(s: string): (r: Option<Timestamp>)
    ensures r.Some? ==> InRange(r.value)
  {
    if |s| == 16 && s[4] == '-' && s[7] == '-' && s[10] == ' ' && s[13] == ':'
       && DigitsAt(s, 0, 4) && DigitsAt(s, 5, 7) && DigitsAt(s, 8, 10)
       && DigitsAt(s, 11, 13) && DigitsAt(s, 14, 16)
    then
      var t := Timestamp(Num4(s, 0), Num2(s, 5), Num2(s, 8), Num2(s, 11), Num2(s, 14));
      if InRange(t) then Some(t) else None
    else None
  }

  function TwoDigits(n: int): (r: string)
    requires 0 <= n <= 99
    ensures |r| == 2 && IsDigit(r[0]) && IsDigit(r[1]) && Num2(r, 0) == n
  {
    [('0' as int + n / 10) as char, ('0' as int + n % 10) as char]
  }

  /** The canonical rendering `YYYY-MM-DD HH:MM` of a timestamp. */
  function FormatTimestamp(t: Timestamp): (r: string)
    requires InRange(t)
    ensures |r| == 16
  {
    TwoDigits(t.year / 100) + TwoDigits(t.year % 100) + "-" + TwoDigits(t.month) + "-"
    + TwoDigits(t.day) + " " + TwoDigits(t.hour) + ":" + TwoDigits(t.minute)
  }

  /** Parsing undoes formatting. */
  lemma ParseFormat(t: Timestamp)
    requires InRange(t)
    ensures ParseTimestamp(FormatTimestamp(t)) == Some(t)
  {
    var s := FormatTimestamp(t);
    var y1, y2 := TwoDigits(t.year / 100), TwoDigits(t.year % 100);
    var mo, d, h, mi := TwoDigits(t.month), TwoDigits(t.day), TwoDigits(t.hour), TwoDigits(t.minute);
    assert s == y1 + y2 + "-" + mo + "-" + d + " " + h + ":" + mi;
    assert s[0..2] == y1 && s[2..4] == y2 && s[5..7] == mo && s[8..10] == d;
    assert s[11..13] == h && s[14..16] == mi;
    assert Num2(s, 0) == Num2(y1, 0) && Num2(s, 2) == Num2(y2, 0);
    assert Num2(s, 5) == Num2(mo, 0) && Num2(s, 8) == Num2(d, 0);
    assert Num2(s, 11) == Num2(h, 0) && Num2(s, 14) == Num2(mi, 0);
  }

  /** Value-level `unify_date_format`: the timestamp it returns, or `None` for the
      ValueError `strptime` raises. */
  function UnifiedDate(dateStr: string): Option<Timestamp> {
    ParseTimestamp(AssembledDate(dateStr))
  }

  /** `HTMLParser.unify_date_format`. */
  method UnifyDateFormat(dateStr: string) returns (date: Option<Timestamp>)
    ensures date == UnifiedDate(dateStr)
    ensures date.Some? ==> InRange(date.value)
  {
    var listDate := Split(Lower(dateStr));
    var year := Year;
    var month := "";
    var day := "";
    var time := "";
    for k := 0 to |listDate|
      invariant DateParts(time, month, day) == Collect(Months, listDate[..k])
    {
      var element := listDate[k];
      CollectPrefixStep(Months, listDate, k);
      ghost var before := DateParts(time, month, day);
      if ':' in element {
        time := time + element;
      }
      if element in Months {
        month := month + Months[element];
      }
      if IsDigits(element) && element in SingleDigits {
        day := day + ("0" + element);
      }
      if IsDigits(element) && element !in SingleDigits {
        day := day + element;
      }
      assert time == before.time + (if ':' in element then element else "");
      assert month == before.month + MonthCode(Months, element);
      assert day == before.day + DayPiece(element);
    }
    assert listDate[..|listDate|] == listDate;
    ghost var parts := Collect(Months, listDate);
    assert time == parts.time && month == parts.month && day == parts.day;
    var correctDate := year + "-" + month + "-" + Take(day, 2) + " " + time;
    date := ParseTimestamp(correctDate);
  }

  // ---------------------------------------------------------------- date properties

  lemma {:induction false} LowerAppend(a: string, b: string)
    ensures Lower(a + b) == Lower(a) + Lower(b)
  {
    assert |Lower(a + b)| == |Lower(a) + Lower(b)|;
    forall i | 0 <= i < |a + b|
      ensures Lower(a + b)[i] == (Lower(a) + Lower(b))[i]
    {
      if i < |a| {
        assert (a + b)[i] == a[i];
      } else {
        assert (a + b)[i] == b[i - |a|];
      }
    }
  }

  function LowerAll(xs: seq<string>): (r: seq<string>)
    ensures |r| == |xs| && forall i :: 0 <= i < |xs| ==> r[i] == Lower(xs[i])
  {
    if xs == [] then [] else [Lower(xs[0])] + LowerAll(xs[1..])
  }

  /** Case folding the joined tokens case folds each token. */
  lemma {:induction false} LowerJoin(xs: seq<string>)
    ensures Lower(Join(" ", xs)) == Join(" ", LowerAll(xs))
  {
    if |xs| > 1 {
      LowerJoin(xs[1..]);
      LowerAppend(xs[0], " " + Join(" ", xs[1..]));
      LowerAppend(" ", Join(" ", xs[1..]));
      assert Lower(" ") == " ";
      assert LowerAll(xs)[1..] == LowerAll(xs[1..]);
    }
  }

  /** Number tokens after the month only lengthen the day string, so once the day
      has two characters, `day[:2]` cuts the extra digits off. */
  lemma CollectTrailingDigits(prefix: seq<string>, ys: seq<string>)
    requires forall i :: 0 <= i < |ys| ==> IsDigits(ys[i]) && ys[i] !in Months
    ensures Collect(Months, prefix + ys).time == Collect(Months, prefix).time
    ensures Collect(Months, prefix + ys).month == Collect(Months, prefix).month
    ensures StartsWithOrIs(Collect(Months, prefix + ys).day, Collect(Months, prefix).day)
    ensures |Collect(Months, prefix).day| >= 2 ==>
      Take(Collect(Months, prefix + ys).day, 2) == Take(Collect(Months, prefix).day, 2)
  {
    var xs := prefix + ys;
    assert xs[..|prefix|] == prefix;
    CollectTail(Months, xs, |prefix|);
    var before, after := Collect(Months, prefix).day, Collect(Months, xs).day;
    if |before| >= 2 {
      TakeOfExtension(before, after);
    }
  }

  /** The same, for the tokens of `xs` from index `k` on. */
  lemma {:induction false} CollectTail(table: map<string, string>, xs: seq<string>, k: nat)
    requires k <= |xs|
    requires forall i :: k <= i < |xs| ==> IsDigits(xs[i]) && xs[i] !in table
    ensures Collect(table, xs).time == Collect(table, xs[..k]).time
    ensures Collect(table, xs).month == Collect(table, xs[..k]).month
    ensures StartsWithOrIs(Collect(table, xs).day, Collect(table, xs[..k]).day)
    decreases |xs|
  {
    if |xs| == k {
      assert xs[..k] == xs;
    } else {
      var init := xs[..|xs| - 1];
      assert init[..k] == xs[..k];
      CollectTail(table, init, k);
      StepDigits(table, Collect(table, init), xs[|xs| - 1]);
      var mid := Collect(table, init).day;
      assert Collect(table, xs).day == mid + DayPiece(xs[|xs| - 1]);
      assert (mid + DayPiece(xs[|xs| - 1]))[..|Collect(table, xs[..k]).day|] == mid[..|Collect(table, xs[..k]).day|];
    }
  }

  /** A number token that is not a month name only extends the day. */
  lemma StepDigits(table: map<string, string>, p: DateParts, y: string)
    requires IsDigits(y) && y !in table
    ensures Step(table, p, y) == DateParts(p.time, p.month, p.day + DayPiece(y))
  {
    assert IsDigit(y[0]);
    assert ':' !in y;
  }

  lemma TakeOfExtension(before: string, after: string)
    requires StartsWithOrIs(after, before) && |before| >= 2
    ensures Take(after, 2) == Take(before, 2)
  {
    assert after[..2] == after[..|before|][..2];
  }

  /** Lower-case Cyrillic letters only. */
  predicate CyrillicWord(s: string) {
    s != [] && forall i :: 0 <= i < |s| ==> '\U{430}' <= s[i] <= '\U{44F}'
  }

  lemma MonthNamesAreWords(m: string)
    requires m in Months
    ensures CyrillicWord(m)
  {
    if m == "января" {} else if m == "февраля" {} else if m == "марта" {}
    else if m == "апреля" {} else if m == "мая" {} else if m == "июня" {}
    else if m == "июля" {} else if m == "августа" {} else if m == "сентября" {}
    else if m == "октября" {} else if m == "ноября" {} else {}
  }

  lemma NoColonInMonths(m: string)
    requires m in Months
    ensures ':' !in m && !IsDigits(m)
  {
    MonthNamesAreWords(m);
    assert !IsDigit(m[0]);
  }

  /** The single-digit day tokens are one digit long. */
  lemma SingleDigitShape(d: string)
    requires d in SingleDigits
    ensures |d| == 1 && IsDigits(d)
  {
  }

  /** A time token only extends the time. */
  lemma StepTime(p: DateParts, t: string)
    requires ':' in t && t !in Months && !IsDigits(t)
    ensures Step(Months, p, t) == DateParts(p.time + t, p.month, p.day)
  {
  }

  /** A day token only extends the day, zero-padded when it is one digit. */
  lemma StepDay(p: DateParts, d: string)
    requires d in SingleDigits || (|d| == 2 && IsDigits(d))
    ensures Step(Months, p, d) == DateParts(p.time, p.month, p.day + (if |d| == 1 then "0" + d else d))
  {
    if d in SingleDigits {
      SingleDigitShape(d);
    }
    assert IsDigits(d);
    assert d !in Months by {
      if d in Months { NoColonInMonths(d); }
    }
    assert ':' !in d;
    assert MonthCode(Months, d) == "";
  }

  /** A month token only extends the month code. */
  lemma StepMonth(p: DateParts, m: string)
    requires m in Months
    ensures Step(Months, p, m) == DateParts(p.time, p.month + Months[m], p.day)
  {
    NoColonInMonths(m);
    assert DayPiece(m) == "";
  }

  lemma CollectThree(t: string, d: string, m: string)
    requires ':' in t && t !in Months && !IsDigits(t)
    requires d in SingleDigits || (|d| == 2 && IsDigits(d))
    requires m in Months
    ensures Collect(Months, [t, d, m]) ==
      DateParts(t, Months[m], if |d| == 1 then "0" + d else d)
  {
    var p0 := DateParts("", "", "");
    CollectOfThree(Months, [t, d, m]);
    StepTime(p0, t);
    var p1 := Step(Months, p0, t);
    StepDay(p1, d);
    var p2 := Step(Months, p1, d);
    StepMonth(p2, m);
  }

  /** Three tokens are three turns of the loop. */
  lemma CollectOfThree(table: map<string, string>, xs: seq<string>)
    requires |xs| == 3
    ensures Collect(table, xs) == Step(table, Step(table, Step(table, DateParts("", "", ""), xs[0]), xs[1]), xs[2])
  {
    assert xs[..0] == [];
    CollectPrefixStep(table, xs, 0);
    CollectPrefixStep(table, xs, 1);
    CollectPrefixStep(table, xs, 2);
    assert xs[..3] == xs;
  }

  /** The loop's accumulators after one more token of `xs`. */
  lemma CollectPrefixStep(table: map<string, string>, xs: seq<string>, k: nat)
    requires k < |xs|
    ensures Collect(table, xs[..k + 1]) == Step(table, Collect(table, xs[..k]), xs[k])
  {
    assert xs[..k + 1][..k] == xs[..k];
  }

  /** The layout the site uses, `HH:MM D month`, optionally followed by more number
      tokens (a year): time, month code and the zero-padded day land in place, and
      the day is cut to two characters. */
  lemma UnifySiteLayout(t: string, d: string, m: string, code: string, ys: seq<string>)
    requires ':' in t && !IsDigits(t)
    requires d in SingleDigits || (|d| == 2 && IsDigits(d))
    requires m in Months && Months[m] == code
    requires forall i :: 0 <= i < |ys| ==> IsDigits(ys[i])
    ensures Assemble([t, d, m] + ys)
      == Year + "-" + code + "-" + (if |d| == 1 then "0" + d else d) + " " + t
  {
    var dd := if |d| == 1 then "0" + d else d;
    if d in SingleDigits {
      SingleDigitShape(d);
    }
    assert |dd| == 2;
    SiteLayoutParts(t, d, m, ys);
    var p := Collect(Months, [t, d, m] + ys);
    TakeOfExtension(dd, p.day);
    assert Take(dd, 2) == dd;
    assert Assemble([t, d, m] + ys) == Year + "-" + p.month + "-" + Take(p.day, 2) + " " + p.time;
  }

  /** What the loop accumulates over the site layout's tokens. */
  lemma SiteLayoutParts(t: string, d: string, m: string, ys: seq<string>)
    requires ':' in t && !IsDigits(t)
    requires d in SingleDigits || (|d| == 2 && IsDigits(d))
    requires m in Months
    requires forall i :: 0 <= i < |ys| ==> IsDigits(ys[i])
    ensures Collect(Months, [t, d, m] + ys).time == t
    ensures Collect(Months, [t, d, m] + ys).month == Months[m]
    ensures StartsWithOrIs(Collect(Months, [t, d, m] + ys).day, if |d| == 1 then "0" + d else d)
  {
    assert t !in Months by {
      if t in Months { NoColonInMonths(t); }
    }
    CollectThree(t, d, m);
    forall i | 0 <= i < |ys|
      ensures ys[i] !in Months
    {
      if ys[i] in Months { NoColonInMonths(ys[i]); }
    }
    CollectTrailingDigits([t, d, m], ys);
  }

  /** The digits and lower-case letters survive `lower()` unchanged. */
  lemma LowerNoUpper(s: string)
    requires forall i :: 0 <= i < |s| ==> !IsUpper(s[i])
    ensures Lower(s) == s
  {
  }

  /** Case folding keeps a word a word. */
  lemma LowerWord(w: string)
    requires IsWord(w)
    ensures IsWord(Lower(w))
  {
  }

  /** The tokens of a case-folded sentence of words are the case-folded words. */
  lemma SplitLowerJoin(xs: seq<string>)
    requires forall i :: 0 <= i < |xs| ==> IsWord(xs[i])
    ensures Split(Lower(Join(" ", xs))) == LowerAll(xs)
  {
    LowerJoin(xs);
    forall i | 0 <= i < |xs|
      ensures IsWord(LowerAll(xs)[i])
    {
      LowerWord(xs[i]);
    }
    SplitJoin(LowerAll(xs));
  }

  /** Every month code is two digits naming a month 01..12. */
  lemma MonthCodes(m: string)
    requires m in Months
    ensures |Months[m]| == 2 && IsDigits(Months[m]) && 1 <= Num2(Months[m], 0) <= 12
  {
    if m == "января" {} else if m == "февраля" {} else if m == "марта" {}
    else if m == "апреля" {} else if m == "мая" {} else if m == "июня" {}
    else if m == "июля" {} else if m == "августа" {} else if m == "сентября" {}
    else if m == "октября" {} else if m == "ноября" {} else {}
  }

  /** A word whose case-folded form is a month name holds no whitespace. */
  lemma MonthWord(m: string)
    requires Lower(m) in Months
    ensures IsWord(m)
  {
    MonthNamesAreWords(Lower(m));
    forall i | 0 <= i < |m|
      ensures !IsSpace(m[i])
    {
      assert IsSpace(LowerChar(m[i])) == IsSpace(m[i]);
    }
  }

  /** The `HH:MM` layout of the time token. */
  predicate ClockToken(t: string) {
    |t| == 5 && t[2] == ':' && IsDigit(t[0]) && IsDigit(t[1]) && IsDigit(t[3]) && IsDigit(t[4])
  }

  /** `strptime` on the assembled string: it reads back the month code, the padded day
      and the clock token, and fails exactly when a field is out of range. */
  lemma ParseLayout(code: string, dd: string, t: string)
    requires |code| == 2 && IsDigits(code) && |dd| == 2 && IsDigits(dd) && ClockToken(t)
    ensures var ts := Timestamp(2023, Num2(code, 0), Num2(dd, 0), Num2(t, 0), Num2(t, 3));
      ParseTimestamp(Year + "-" + code + "-" + dd + " " + t) == if InRange(ts) then Some(ts) else None
  {
    var s := Year + "-" + code + "-" + dd + " " + t;
    assert |s| == 16;
    assert s[..4] == Year && s[5..7] == code && s[8..10] == dd && s[11..] == t;
    assert s[4] == '-' && s[7] == '-' && s[10] == ' ' && s[13] == t[2];
    assert DigitsAt(s, 0, 4) && DigitsAt(s, 5, 7) && DigitsAt(s, 8, 10);
    assert DigitsAt(s, 11, 13) && DigitsAt(s, 14, 16);
    assert Num4(s, 0) == 2023;
    assert Num2(s, 5) == Num2(code, 0) && Num2(s, 8) == Num2(dd, 0);
    assert Num2(s, 11) == Num2(t, 0) && Num2(s, 14) == Num2(t, 3);
  }

  /** The string `unify_date_format` assembles from the site's layout `HH:MM D month`,
      in any letter case: 2023, the code the table gives for the case-folded month
      word, the day `D` zero-padded when it is one digit, and the clock time. */
  lemma AssembledSiteDate(t: string, d: string, m: string, code: string)
    requires ClockToken(t)
    requires d in SingleDigits || (|d| == 2 && IsDigits(d))
    requires Lower(m) in Months && Months[Lower(m)] == code
    ensures AssembledDate(t + " " + d + " " + m)
      == Year + "-" + code + "-" + (if |d| == 1 then "0" + d else d) + " " + t
  {
    var lm := Lower(m);
    if d in SingleDigits {
      SingleDigitShape(d);
    }
    MonthWord(m);
    SiteDateTokensAnyCase(t, d, m);
    assert !IsDigit(t[2]);
    UnifySiteLayout(t, d, lm, code, []);
    assert [t, d, lm] + [] == [t, d, lm];
  }

  /** `unify_date_format` on the site's layout `HH:MM D month`, in any letter case:
      the timestamp lies in 2023, in the month the table gives for the case-folded
      month word, on the day `D`, at the clock time; `strptime` rejects it exactly
      when the day, hour or minute is out of range. */
  lemma UnifySiteDate(t: string, d: string, m: string, code: string)
    requires ClockToken(t)
    requires d in SingleDigits || (|d| == 2 && IsDigits(d))
    requires Lower(m) in Months && Months[Lower(m)] == code
    ensures 1 <= Num2(code, 0) <= 12
    ensures var ts := Timestamp(2023, Num2(code, 0), Num2(if |d| == 1 then "0" + d else d, 0), Num2(t, 0), Num2(t, 3));
      UnifiedDate(t + " " + d + " " + m) == if InRange(ts) then Some(ts) else None
  {
    var dd := if |d| == 1 then "0" + d else d;
    if d in SingleDigits {
      SingleDigitShape(d);
    }
    AssembledSiteDate(t, d, m, code);
    MonthCodes(Lower(m));
    ParseLayout(code, dd, t);
  }

  /** The tokens of the site's layout after `lower().split()`: the time and the day
      as they are, the month word case-folded. */
  lemma SiteDateTokensAnyCase(t: string, d: string, m: string)
    requires ClockToken(t) && IsDigits(d) && IsWord(m)
    ensures Split(Lower(t + " " + d + " " + m)) == [t, d, Lower(m)]
  {
    var xs := [t, d, m];
    assert Join(" ", xs) == t + " " + (d + " " + m) by {
      assert xs[1..] == [d, m] && xs[1..][1..] == [m];
      assert Join(" ", [m]) == m;
      assert Join(" ", [d, m]) == d + " " + m;
    }
    assert t + " " + (d + " " + m) == t + " " + d + " " + m;
    SplitLowerJoin(xs);
    LowerNoUpper(t);
    LowerNoUpper(d);
    assert LowerAll(xs) == [t, d, Lower(m)];
  }

  /** "14:30 5 марта" splits into its three tokens, which are already lower case. */
  lemma SiteDateTokens()
    ensures Split(Lower("14:30 5 марта")) == ["14:30", "5", "марта"]
  {
    var s := "14:30 5 марта";
    var xs := ["14:30", "5", "марта"];
    LowerNoUpper(s);
    assert Join(" ", xs) == s by {
      assert xs[1..] == ["5", "марта"] && xs[1..][1..] == ["марта"];
    }
    SplitJoin(xs);
  }

  /** The site's layout: "14:30 5 марта" is 5 March 2023, 14:30. */
  lemma UnifyExample()
    ensures AssembledDate("14:30 5 марта") == "2023-03-05 14:30"
    ensures UnifiedDate("14:30 5 марта") == Some(Timestamp(2023, 3, 5, 14, 30))
  {
    AssembleExample();
    ParseExample();
  }

  /** The string the loop builds for "14:30 5 марта". */
  lemma AssembleExample()
    ensures AssembledDate("14:30 5 марта") == "2023-03-05 14:30"
  {
    var t, d, m := "14:30", "5", "марта";
    assert t + " " + d + " " + m == "14:30 5 марта";
    assert Year + "-" + "03" + "-" + ("0" + d) + " " + t == "2023-03-05 14:30";
    assert ClockToken(t);
    DayTable(d);
    LowerNoUpper(m);
    MonthTable(m);
    AssembledSiteDate(t, d, m, "03");
  }

  lemma MonthTable(m: string)
    requires m == "марта"
    ensures m in Months && Months[m] == "03"
  {
  }

  lemma DayTable(d: string)
    requires d == "5"
    ensures d in SingleDigits
  {
  }

  lemma ParseExample()
    ensures ParseTimestamp("2023-03-05 14:30") == Some(Timestamp(2023, 3, 5, 14, 30))
  {
    var s := "2023-03-05 14:30";
    assert DigitsAt(s, 0, 4) && DigitsAt(s, 5, 7) && DigitsAt(s, 8, 10);
    assert DigitsAt(s, 11, 13) && DigitsAt(s, 14, 16);
  }

  // ---------------------------------------------------------------- field extraction

  function StripAll(xs: seq<string>): (r: seq<string>)
    ensures |r| == |xs| && forall i :: 0 <= i < |xs| ==> r[i] == Strip(xs[i])
  {
    if xs == [] then [] else [Strip(xs[0])] + StripAll(xs[1..])
  }

  /** The article body: the stripped texts of the paragraphs, joined by single spaces. */
  function BodyText(paragraphs: seq<string>): string {
    Join(" ", StripAll(paragraphs))
  }

  function Flatten(xss: seq<seq<string>>): seq<string>
    decreases |xss|
  {
    if xss == [] then [] else xss[0] + Flatten(xss[1..])
  }

  function WordsOf(paragraphs: seq<string>): seq<seq<string>>
    decreases |paragraphs|
  {
    if paragraphs == [] then [] else [Split(paragraphs[0])] + WordsOf(paragraphs[1..])
  }

  /** The words of the body are the words of the paragraphs, in order: joining loses
      no word and glues none together. */
  lemma {:induction false} BodyTextWords(paragraphs: seq<string>)
    ensures Split(BodyText(paragraphs)) == Flatten(WordsOf(paragraphs))
  {
    if paragraphs == [] {
    } else if |paragraphs| == 1 {
      SplitStrip(paragraphs[0]);
      assert Flatten(WordsOf(paragraphs)) == Split(paragraphs[0]) + [];
    } else {
      var rest := paragraphs[1..];
      BodyTextWords(rest);
      assert StripAll(paragraphs)[1..] == StripAll(rest);
      assert BodyText(paragraphs) == Strip(paragraphs[0]) + [' '] + BodyText(rest);
      SplitAtSpace(Strip(paragraphs[0]), ' ', BodyText(rest));
      SplitStrip(paragraphs[0]);
    }
  }

  /** The author list: the byline text itself, or the sentinel when it is empty. */
  function Authors(byline: string): (r: seq<string>)
    ensures |r| == 1
    ensures r == ["NOT FOUND"] <==> byline == "" || byline == "NOT FOUND"
    ensures byline != "" ==> r[0] == byline
  {
    if byline == "" then ["NOT FOUND"] else [byline]
  }

  /** The string handed to the date normaliser: the hour text without its commas,
      one space, then the date text. */
  function DateInput(hour: string, date: string): (r: string) {
    RemoveChar(hour, ',') + " " + date
  }

  /** The hour's tokens come first, comma-free, followed by the date's tokens. */
  lemma DateInputTokens(hour: string, date: string)
    ensures Split(DateInput(hour, date)) == Split(RemoveChar(hour, ',')) + Split(date)
    ensures forall w :: w in Split(RemoveChar(hour, ',')) ==> ',' !in w
  {
    SplitAtSpace(RemoveChar(hour, ','), ' ', date);
    assert DateInput(hour, date) == RemoveChar(hour, ',') + [' '] + date;
    forall w | w in Split(RemoveChar(hour, ','))
      ensures ',' !in w
    {
      SplitWordsAreInfixes(RemoveChar(hour, ','), w);
    }
  }

  /** Every word `split()` returns is made of characters of the string. */
  lemma {:induction false} SplitWordsAreInfixes(s: string, w: string)
    requires w in Split(s)
    ensures forall c :: c in w ==> c in s
    decreases |s|
  {
    if s != [] {
      if IsSpace(s[0]) {
        SplitWordsAreInfixes(s[1..], w);
      } else {
        var n := WordLen(s);
        if w != s[..n] {
          SplitWordsAreInfixes(s[n..], w);
        }
      }
    }
  }

  /** A page whose hour element reads "14:30," and whose date element reads "5 марта"
      is dated 5 March 2023, 14:30. */
  lemma DateInputExample()
    ensures DateInput("14:30,", "5 марта") == "14:30 5 марта"
    ensures UnifiedDate(DateInput("14:30,", "5 марта")) == Some(Timestamp(2023, 3, 5, 14, 30))
  {
    var h, date := "14:30", "5 марта";
    assert "14:30," == h + [','];
    DateInputTrailingComma(h, date);
    assert h + " " + date == "14:30 5 марта";
    UnifyExample();
  }

  /** The trailing comma the site puts after the hour is dropped. */
  lemma DateInputTrailingComma(h: string, date: string)
    requires ',' !in h
    ensures DateInput(h + [','], date) == h + " " + date
  {
    RemoveCharSnoc(h, ',', ',');
  }

  // ---------------------------------------------------------------- one whole page

  /** The texts of the elements `parse` looks up on one article page. */
  datatype PageData = PageData(
    paragraphs: seq<string>, title: string, byline: string, topic: string,
    date: string, hour: string)

  /** What `parse` makes of `a` for one page: `None` when the date raises. */
  function Parsed(a: Article, page: PageData): (r: Option<Article>)
    ensures r.Some? <==> UnifiedDate(DateInput(page.hour, page.date)).Some?
    ensures r.Some? ==> r.value.url == a.url && r.value.articleId == a.articleId
    ensures r.Some? ==> r.value.author != [] && r.value.topics == a.topics + [page.topic]
  {
    var d := UnifiedDate(DateInput(page.hour, page.date));
    if d.None? then None
    else Some(a.(text := BodyText(page.paragraphs), title := Strip(page.title),
                 author := Authors(page.byline), topics := a.topics + [page.topic], date := d))
  }

  /** The article a fresh parser returns for a page. */
  function ArticleFor(url: string, articleId: int, page: PageData): (r: Option<Article>)
    ensures r.Some? ==> r.value.url == Some(url) && r.value.articleId == articleId
    ensures r.Some? ==> r.value.date.Some? && InRange(r.value.date.value)
    ensures r.Some? ==> r.value.topics == [page.topic]
  {
    Parsed(NewArticle(Some(url), articleId), page)
  }

  // ---------------------------------------------------------------- the parser object

  class HtmlParser {
    const fullUrl: string
    const articleId: int
    const config: RunConfig
    var article: Article

    constructor (fullUrl: string, articleId: int, config: RunConfig)
      ensures this.fullUrl == fullUrl && this.articleId == articleId && this.config == config
      ensures article == NewArticle(Some(fullUrl), articleId)
    {
      this.fullUrl := fullUrl;
      this.articleId := articleId;
      this.config := config;
      this.article := NewArticle(Some(fullUrl), articleId);
    }

    /** `_fill_article_with_text`, given the texts of the paragraphs of the content block. */
    method FillArticleWithText(paragraphs: seq<string>)
      modifies this
      ensures article == old(article).(text := BodyText(paragraphs))
    {
      article := article.(text := BodyText(paragraphs));
    }

    /** `_fill_article_with_meta_information`, given the texts of the title block, the
        byline, the active category, and the date and hour spans. When the date does
        not parse (`ok` false) the ValueError leaves title, author and topic already
        set and the date untouched. */
    method FillArticleWithMetaInformation(title: string, byline: string, topic: string,
                                          date: string, hour: string) returns (ok: bool)
      modifies this
      ensures var filled := old(article).(title := Strip(title), author := Authors(byline),
                                         topics := old(article).topics + [topic]);
        && ok == UnifiedDate(DateInput(hour, date)).Some?
        && article == (if ok then filled.(date := UnifiedDate(DateInput(hour, date))) else filled)
    {
      article := article.(title := Strip(title));
      if byline == "" {
        article := article.(author := ["NOT FOUND"]);
      } else {
        article := article.(author := [byline]);
      }
      article := article.(topics := article.topics + [topic]);
      var hourText := RemoveChar(hour, ',');
      var dateStr := hourText + " " + date;
      var unified := UnifyDateFormat(dateStr);
      ok := unified.Some?;
      if ok {
        article := article.(date := unified);
      }
    }

    /** `parse`, with the page already fetched; `ok` false is the ValueError of the
        date, which leaves the article partly filled. */
    method Parse(page: PageData) returns (ok: bool)
      modifies this
      ensures ok == Parsed(old(article), page).Some?
      ensures ok ==> article == Parsed(old(article), page).value
      ensures !ok ==> article == old(article).(text := BodyText(page.paragraphs),
        title := Strip(page.title), author := Authors(page.byline),
        topics := old(article).topics + [page.topic])
    {
      FillArticleWithText(page.paragraphs);
      ok := FillArticleWithMetaInformation(page.title, page.byline, page.topic, page.date, page.hour);
    }
  }
}
