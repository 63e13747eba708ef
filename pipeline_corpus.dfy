/**
 * `CorpusManager` of lab_6_pipeline/pipeline.py: the consistency check of the
 * directory the scrapper filled, and the ID-keyed storage built from it.
 *
 * The directory is given as its entries in listing order (name and size); reading
 * a raw file back into an article (`from_raw`) is a parameter.
 */
module PipelineCorpus {
  import opened Wrappers
  import opened Text
  import opened Articles

  // ---------------------------------------------------------------- the directory

  /** One directory entry: its file name and its size in bytes. */
  datatype Entry = Entry(name: string, size: nat)

  /** What `Path.exists()` and `Path.is_dir()` report, and the entries of a directory. */
  datatype PathState = Missing | NotDirectoryPath | Directory(entries: seq<Entry>)

  /** The exceptions `_validate_dataset` raises; `ValueError` comes from `int()`. */
  datatype CorpusError =
    | FileNotFound
    | NotADirectory
    | EmptyDirectory
    | InconsistentDataset
    | ValueError

  const RawSuffix := "_raw.txt"

  predicate EndsWith(s: string, suffix: string) {
    |suffix| <= |s| && s[|s| - |suffix|..] == suffix
  }

  /** The entries `glob('*_raw.txt')` matches. */
  predicate IsRaw(e: Entry) {
    EndsWith(e.name, RawSuffix)
  }

  function RawEntries(es: seq<Entry>): (r: seq<Entry>)
    ensures |r| <= |es|
    ensures forall i :: 0 <= i < |r| ==> IsRaw(r[i]) && r[i] in es
    ensures forall e :: e in es && IsRaw(e) ==> e in r
  {
    if es == [] then []
    else (if IsRaw(es[0]) then [es[0]] else []) + RawEntries(es[1..])
  }

  /** `path.glob('*_raw.txt')`, in listing order; nothing for a path that is not a directory. */
  function RawFiles(p: PathState): seq<Entry> {
    if p.Directory? then RawEntries(p.entries) else []
  }

  // ---------------------------------------------------------------- int(name[:name.index('_')])

  function DigitValue(c: char): nat
    requires IsDigit(c)
  {
    c as int - '0' as int
  }

  /** The value of a string of decimal digits. */
  function DecimalValue(ds: string): (n: nat)
    requires forall i :: 0 <= i < |ds| ==> IsDigit(ds[i])
    decreases |ds|
  {
    if ds == [] then 0
    else 10 * DecimalValue(ds[..|ds| - 1]) + DigitValue(ds[|ds| - 1])
  }

  /** Python's `int(s)` on a string: surrounding whitespace, an optional sign, then
      one or more digits; anything else is a `ValueError` (`None`). */
  function ParseInt(s: string): Option<int> {
    var t := Strip(s);
    if t == [] then None
    else
      var sign := if t[0] == '-' then -1 else 1;
      var ds := if t[0] == '-' || t[0] == '+' then t[1..] else t;
      if IsDigits(ds) then Some(sign * DecimalValue(ds)) else None
  }

  /** The decimal rendering `str(n)` of a natural number. */
  function Decimal(n: nat): (r: string)
    ensures r != [] && forall i :: 0 <= i < |r| ==> IsDigit(r[i])
    decreases n
  {
    if n < 10 then [('0' as int + n) as char]
    else Decimal(n / 10) + [('0' as int + n % 10) as char]
  }

  lemma {:induction false} DecimalRoundTrip(n: nat)
    ensures DecimalValue(Decimal(n)) == n
    decreases n
  {
    if n >= 10 {
      DecimalRoundTrip(n / 10);
      var d := Decimal(n);
      assert d[..|d| - 1] == Decimal(n / 10);
    }
  }

  /** `int()` reads back what `str()` wrote. */
  lemma ParseDecimal(n: nat)
    ensures ParseInt(Decimal(n)) == Some(n)
  {
    var d := Decimal(n);
    assert IsDigit(d[0]) && IsDigit(d[|d| - 1]);
    assert Trimmed(d);
    assert Strip(d) == d;
    assert IsDigits(d) && d[0] != '-' && d[0] != '+';
    DecimalRoundTrip(n);
  }

  /** The part of a raw file's name before its first '_'. */
  function IdPrefix(e: Entry): (r: string)
    requires IsRaw(e)
    ensures '_' !in r
  {
    assert e.name[|e.name| - 8] == RawSuffix[0] == '_';
    e.name[..IndexOf(e.name, '_')]
  }

  /** `list_of_ids` for the raw files, or `None` for the `ValueError` raised when
      some prefix is not a number (which one fails first makes no difference). */
  function ParseIds(raws: seq<Entry>): (r: Option<seq<int>>)
    requires forall i :: 0 <= i < |raws| ==> IsRaw(raws[i])
  {
    if forall i :: 0 <= i < |raws| ==> ParseInt(IdPrefix(raws[i])).Some? then
      Some(seq(|raws|, i requires 0 <= i < |raws| => ParseInt(IdPrefix(raws[i])).value))
    else None
  }

  // ---------------------------------------------------------------- sorted(ids) == list(range(1, n + 1))

  predicate IsSorted(s: seq<int>) {
    forall i, j :: 0 <= i < j < |s| ==> s[i] <= s[j]
  }

  /** One step of insertion sort: `x` placed before the first element not below it. */
  function Insert(x: int, s: seq<int>): (r: seq<int>)
    ensures |r| == |s| + 1
    ensures r[0] == (if s == [] || x <= s[0] then x else s[0])
  {
    if s == [] then [x]
    else if x <= s[0] then [x] + s
    else [s[0]] + Insert(x, s[1..])
  }

  /** Python's `sorted` on a list of ints, as insertion sort. */
  function Sort(s: seq<int>): (r: seq<int>)
    ensures |r| == |s|
  {
    if s == [] then [] else Insert(s[0], Sort(s[1..]))
  }

  lemma {:induction false} InsertCounts(x: int, s: seq<int>)
    ensures multiset(Insert(x, s)) == multiset(s) + multiset{x}
  {
    if s != [] && x > s[0] {
      InsertCounts(x, s[1..]);
      assert s == [s[0]] + s[1..];
    }
  }

  lemma {:induction false} InsertSorted(x: int, s: seq<int>)
    requires IsSorted(s)
    ensures IsSorted(Insert(x, s))
  {
    if s != [] && x > s[0] {
      var t := s[1..];
      assert IsSorted(t) by {
        forall i, j | 0 <= i < j < |t|
          ensures t[i] <= t[j]
        {
          assert t[i] == s[i + 1] && t[j] == s[j + 1];
        }
      }
      InsertSorted(x, t);
      var rest := Insert(x, t);
      var r := Insert(x, s);
      assert r == [s[0]] + rest;
      assert s[0] <= rest[0] by {
        if t != [] {
          assert s[0] <= s[1];
        }
      }
      forall i, j | 0 <= i < j < |r|
        ensures r[i] <= r[j]
      {
        if i == 0 {
          assert r[j] == rest[j - 1];
          assert rest[0] <= rest[j - 1];
        } else {
          assert r[i] == rest[i - 1] && r[j] == rest[j - 1];
        }
      }
    }
  }

  /** `sorted` returns its input's elements in ascending order. */
  lemma {:induction false} SortIsSortedPermutation(s: seq<int>)
    ensures IsSorted(Sort(s)) && multiset(Sort(s)) == multiset(s)
  {
    if s != [] {
      SortIsSortedPermutation(s[1..]);
      InsertSorted(s[0], Sort(s[1..]));
      InsertCounts(s[0], Sort(s[1..]));
      assert s == [s[0]] + s[1..];
    }
  }

  /** `list(range(1, n + 1))`. */
  function Range(n: nat): (r: seq<int>)
    ensures |r| == n && forall i :: 0 <= i < n ==> r[i] == i + 1
  {
    seq(n, i requires 0 <= i < n => i + 1)
  }

  /** The check on the parsed IDs. */
  predicate ConsistentIds(ids: seq<int>) {
    Sort(ids) == Range(|ids|)
  }

  predicate Distinct(s: seq<int>) {
    forall i, j :: 0 <= i < j < |s| ==> s[i] != s[j]
  }

  // ---------------------------------------------------------------- _validate_dataset

  predicate HasEmptyRaw(p: PathState) {
    exists i :: 0 <= i < |RawFiles(p)| && RawFiles(p)[i].size == 0
  }

  /** `_validate_dataset`: the checks in source order, the first failure decides. */
  function ValidateDataset(p: PathState): (r: Outcome<CorpusError>)
    ensures r == Fail(FileNotFound) <==> p.Missing?
    ensures r == Fail(NotADirectory) <==> p.NotDirectoryPath?
    ensures r == Fail(EmptyDirectory) <==> p.Directory? && p.entries == []
    ensures r == Fail(ValueError) <==>
      p.Directory? && p.entries != [] && !HasEmptyRaw(p) && ParseIds(RawFiles(p)).None?
    ensures r == Fail(InconsistentDataset) <==>
      p.Directory? && p.entries != [] &&
      (HasEmptyRaw(p) || (ParseIds(RawFiles(p)).Some? && !ConsistentIds(ParseIds(RawFiles(p)).value)))
    ensures r.Pass? <==>
      p.Directory? && p.entries != [] && !HasEmptyRaw(p)
      && ParseIds(RawFiles(p)).Some? && ConsistentIds(ParseIds(RawFiles(p)).value)
  {
    if p.Missing? then Fail(FileNotFound)
    else if p.NotDirectoryPath? then Fail(NotADirectory)
    else if p.entries == [] then Fail(EmptyDirectory)
    else if HasEmptyRaw(p) then Fail(InconsistentDataset)
    else
      match ParseIds(RawFiles(p))
      case None => Fail(ValueError)
      case Some(ids) => if !ConsistentIds(ids) then Fail(InconsistentDataset) else Pass
  }

  // ---------------------------------------------------------------- what the ID check means

  lemma {:induction false} DistinctAtMostOnce(s: seq<int>)
    requires Distinct(s)
    ensures forall x :: multiset(s)[x] <= 1
  {
    if s != [] {
      var t := s[1..];
      assert Distinct(t) by {
        forall i, j | 0 <= i < j < |t|
          ensures t[i] != t[j]
        {
          assert t[i] == s[i + 1] && t[j] == s[j + 1];
        }
      }
      DistinctAtMostOnce(t);
      assert s == [s[0]] + t;
      assert s[0] !in t by {
        forall j | 0 <= j < |t|
          ensures t[j] != s[0]
        {
          assert t[j] == s[j + 1];
        }
      }
    }
  }

  lemma TwoIndices(s: seq<int>, i: int, j: int)
    requires 0 <= i < j < |s|
    ensures multiset(s)[s[i]] >= 1 + (if s[i] == s[j] then 1 else 0)
  {
    assert s == s[..j] + s[j..];
    assert s[i] == s[..j][i];
    assert s[j] == s[j..][0];
  }

  lemma AtMostOnceDistinct(s: seq<int>)
    requires forall x :: multiset(s)[x] <= 1
    ensures Distinct(s)
  {
    forall i, j | 0 <= i < j < |s|
      ensures s[i] != s[j]
    {
      TwoIndices(s, i, j);
    }
  }

  function SetOf(s: seq<int>): set<int> {
    set x | x in s
  }

  lemma {:induction false} DistinctCard(s: seq<int>)
    requires Distinct(s)
    ensures |SetOf(s)| == |s|
  {
    if s != [] {
      var t := s[1..];
      assert Distinct(t) by {
        forall i, j | 0 <= i < j < |t|
          ensures t[i] != t[j]
        {
          assert t[i] == s[i + 1] && t[j] == s[j + 1];
        }
      }
      DistinctCard(t);
      assert SetOf(s) == {s[0]} + SetOf(t);
      assert s[0] !in SetOf(t) by {
        forall j | 0 <= j < |t|
          ensures t[j] != s[0]
        {
          assert t[j] == s[j + 1];
        }
      }
    }
  }

  /** The set {1, ..., n}. */
  function Interval(n: nat): set<int> {
    if n == 0 then {} else Interval(n - 1) + {n}
  }

  lemma {:induction false} InInterval(n: nat, x: int)
    ensures x in Interval(n) <==> 1 <= x <= n
  {
    if n > 0 {
      InInterval(n - 1, x);
    }
  }

  lemma {:induction false} IntervalCard(n: nat)
    ensures |Interval(n)| == n
  {
    if n > 0 {
      IntervalCard(n - 1);
      InInterval(n - 1, n);
    }
  }

  lemma SubsetSameCard(a: set<int>, b: set<int>)
    requires a <= b && |a| == |b|
    ensures a == b
  {
    var d := b - a;
    assert a + d == b;
    assert a * d == {};
    assert |d| == 0;
    assert forall x :: x in b ==> x in a by {
      forall x | x in b
        ensures x in a
      {
        assert x !in d;
      }
    }
  }

  lemma SortedHeadIsLeast(s: seq<int>, x: int)
    requires IsSorted(s) && x in s
    ensures s[0] <= x
  {
    var i :| 0 <= i < |s| && s[i] == x;
  }

  lemma SortedTail(s: seq<int>)
    requires IsSorted(s) && s != []
    ensures IsSorted(s[1..])
  {
    var t := s[1..];
    forall i, j | 0 <= i < j < |t|
      ensures t[i] <= t[j]
    {
      assert t[i] == s[i + 1] && t[j] == s[j + 1];
    }
  }

  /** Two sorted sequences with the same elements are equal. */
  lemma {:induction false} SortedUnique(a: seq<int>, b: seq<int>)
    requires IsSorted(a) && IsSorted(b) && multiset(a) == multiset(b)
    ensures a == b
    decreases |a|
  {
    assert |a| == |multiset(a)| && |b| == |multiset(b)|;
    if a != [] {
      assert a[0] in multiset(a) && b[0] in multiset(b);
      SortedHeadIsLeast(b, a[0]);
      SortedHeadIsLeast(a, b[0]);
      assert a[0] == b[0];
      assert a == [a[0]] + a[1..] && b == [b[0]] + b[1..];
      assert multiset(a[1..]) == multiset(a) - multiset{a[0]};
      assert multiset(b[1..]) == multiset(b) - multiset{a[0]};
      SortedTail(a);
      SortedTail(b);
      SortedUnique(a[1..], b[1..]);
    }
  }

  lemma RangeSet(n: nat)
    ensures SetOf(Range(n)) == Interval(n)
  {
    var r := Range(n);
    forall x
      ensures x in SetOf(r) <==> x in Interval(n)
    {
      InInterval(n, x);
      if 1 <= x <= n {
        assert r[x - 1] == x;
      }
    }
  }

  lemma RangeSortedDistinct(n: nat)
    ensures IsSorted(Range(n)) && Distinct(Range(n))
  {
  }

  lemma ConsistentIdsDistinct(ids: seq<int>)
    requires ConsistentIds(ids)
    ensures Distinct(ids) && forall i :: 0 <= i < |ids| ==> 1 <= ids[i] <= |ids|
  {
    var r := Range(|ids|);
    SortIsSortedPermutation(ids);
    RangeSortedDistinct(|ids|);
    DistinctAtMostOnce(r);
    AtMostOnceDistinct(ids);
    forall i | 0 <= i < |ids|
      ensures 1 <= ids[i] <= |ids|
    {
      assert ids[i] in multiset(r);
      var k :| 0 <= k < |r| && r[k] == ids[i];
    }
  }

  lemma SameSetSameCounts(a: seq<int>, b: seq<int>)
    requires Distinct(a) && Distinct(b) && SetOf(a) == SetOf(b)
    ensures multiset(a) == multiset(b)
  {
    DistinctAtMostOnce(a);
    DistinctAtMostOnce(b);
    forall x
      ensures multiset(a)[x] == multiset(b)[x]
    {
      assert x in a <==> x in SetOf(a);
      assert x in b <==> x in SetOf(b);
    }
  }

  /** Distinct IDs within 1..n are all of 1..n. */
  lemma IdsFillInterval(ids: seq<int>)
    requires Distinct(ids) && forall i :: 0 <= i < |ids| ==> 1 <= ids[i] <= |ids|
    ensures SetOf(ids) == Interval(|ids|)
  {
    var n := |ids|;
    DistinctCard(ids);
    IntervalCard(n);
    forall x | x in SetOf(ids)
      ensures x in Interval(n)
    {
      InInterval(n, x);
    }
    SubsetSameCard(SetOf(ids), Interval(n));
  }

  lemma DistinctBoundedConsistent(ids: seq<int>)
    requires Distinct(ids) && forall i :: 0 <= i < |ids| ==> 1 <= ids[i] <= |ids|
    ensures ConsistentIds(ids)
  {
    var n := |ids|;
    var r := Range(n);
    RangeSet(n);
    RangeSortedDistinct(n);
    IdsFillInterval(ids);
    SameSetSameCounts(ids, r);
    SortIsSortedPermutation(ids);
    SortedUnique(Sort(ids), r);
  }

  /** The ID check passes exactly when the IDs are distinct and all lie in 1..n:
      neither a gap nor a duplicate gets through, and their order does not matter. */
  lemma ConsistentIdsIff(ids: seq<int>)
    ensures ConsistentIds(ids) <==> Distinct(ids) && forall i :: 0 <= i < |ids| ==> 1 <= ids[i] <= |ids|
  {
    if ConsistentIds(ids) {
      ConsistentIdsDistinct(ids);
    }
    if Distinct(ids) && forall i :: 0 <= i < |ids| ==> 1 <= ids[i] <= |ids| {
      DistinctBoundedConsistent(ids);
    }
  }

  /** {1, 2, 3} in any order passes; a gap or a duplicate fails. */
  lemma IdCheckExamples()
    ensures ConsistentIds([3, 1, 2])
    ensures !ConsistentIds([1, 2, 4])
    ensures !ConsistentIds([1, 1])
  {
    ConsistentIdsIff([3, 1, 2]);
    ConsistentIdsIff([1, 2, 4]);
    assert [1, 2, 4][2] == 4;
    ConsistentIdsIff([1, 1]);
    assert [1, 1][0] == [1, 1][1];
  }

  /** A non-empty directory without a single raw file passes the check: the empty
      list of IDs equals `list(range(1, 1))`. */
  lemma NoRawFilesPass(p: PathState)
    requires p.Directory? && p.entries != [] && RawFiles(p) == []
    ensures ValidateDataset(p).Pass?
  {
    assert |Range(0)| == 0;
    assert ParseIds(RawFiles(p)).value == [];
  }

  /** The name `to_raw` gives the raw text of article `id`. */
  function RawName(id: nat): string {
    Decimal(id) + RawSuffix
  }

  lemma RawNameId(id: nat, size: nat)
    ensures IsRaw(Entry(RawName(id), size))
    ensures ParseInt(IdPrefix(Entry(RawName(id), size))) == Some(id)
  {
    var d := Decimal(id);
    var name := RawName(id);
    assert name[|name| - |RawSuffix|..] == RawSuffix;
    var i := IndexOf(name, '_');
    assert name[|d|] == '_';
    assert forall k :: 0 <= k < |d| ==> name[k] == d[k];
    assert name[i] == '_' && !IsDigit('_');
    assert name[..i] == d;
    ParseDecimal(id);
  }

  function RawEntriesFor(sizes: seq<nat>): (r: seq<Entry>)
    ensures |r| == |sizes|
    ensures forall i :: 0 <= i < |sizes| ==> r[i] == Entry(RawName(i + 1), sizes[i])
  {
    seq(|sizes|, i requires 0 <= i < |sizes| => Entry(RawName(i + 1), sizes[i]))
  }

  lemma {:induction false} AllRawKept(es: seq<Entry>)
    requires forall i :: 0 <= i < |es| ==> IsRaw(es[i])
    ensures RawEntries(es) == es
  {
    if es != [] {
      AllRawKept(es[1..]);
    }
  }

  /** `list_of_ids` when every prefix is a number. */
  lemma ParseIdsAll(raws: seq<Entry>, ids: seq<int>)
    requires forall i :: 0 <= i < |raws| ==> IsRaw(raws[i])
    requires |ids| == |raws| && forall i :: 0 <= i < |raws| ==> ParseInt(IdPrefix(raws[i])) == Some(ids[i])
    ensures ParseIds(raws) == Some(ids)
  {
    assert ParseIds(raws).value == ids;
  }

  lemma ScrappedIds(sizes: seq<nat>)
    ensures RawFiles(Directory(RawEntriesFor(sizes))) == RawEntriesFor(sizes)
    ensures ParseIds(RawEntriesFor(sizes)) == Some(Range(|sizes|))
  {
    var es := RawEntriesFor(sizes);
    var r := Range(|sizes|);
    forall i | 0 <= i < |es|
      ensures IsRaw(es[i]) && ParseInt(IdPrefix(es[i])) == Some(r[i])
    {
      RawNameId(i + 1, sizes[i]);
    }
    AllRawKept(es);
    ParseIdsAll(es, r);
  }

  lemma RangeConsistent(n: nat)
    ensures ConsistentIds(Range(n))
  {
    SortIsSortedPermutation(Range(n));
    RangeSortedDistinct(n);
    SortedUnique(Sort(Range(n)), Range(n));
  }

  /** A directory holding the raw texts of articles 1..n under the names `to_raw`
      gives them, none of them empty, passes the check. */
  lemma ScrappedCorpusPasses(sizes: seq<nat>)
    requires sizes != [] && forall i :: 0 <= i < |sizes| ==> sizes[i] > 0
    ensures ValidateDataset(Directory(RawEntriesFor(sizes))).Pass?
  {
    ScrappedIds(sizes);
    RangeConsistent(|sizes|);
  }

  // ---------------------------------------------------------------- _scan_dataset

  /** The storage after `_scan_dataset` has read `files` into `m`: a later file with
      the same ID overwrites an earlier one. */
  function Scan(m: map<int, Article>, files: seq<Entry>, read: Entry -> Article): map<int, Article>
    decreases |files|
  {
    if files == [] then m
    else
      var a := read(files[|files| - 1]);
      Scan(m, files[..|files| - 1], read)[a.articleId := a]
  }

  /** Reading one more file updates the storage at that file's ID. */
  lemma ScanStep(m: map<int, Article>, files: seq<Entry>, k: nat, read: Entry -> Article)
    requires k < |files|
    ensures Scan(m, files[..k + 1], read) == Scan(m, files[..k], read)[read(files[k]).articleId := read(files[k])]
  {
    assert files[..k + 1][..k] == files[..k];
  }

  function ReadIds(files: seq<Entry>, read: Entry -> Article): set<int> {
    set i | 0 <= i < |files| :: read(files[i]).articleId
  }

  lemma {:induction false} ScanKeys(m: map<int, Article>, files: seq<Entry>, read: Entry -> Article)
    ensures Scan(m, files, read).Keys == m.Keys + ReadIds(files, read)
    decreases |files|
  {
    if files != [] {
      var init := files[..|files| - 1];
      ScanKeys(m, init, read);
      assert ReadIds(files, read) == ReadIds(init, read) + {read(files[|files| - 1]).articleId} by {
        forall x | x in ReadIds(files, read)
          ensures x in ReadIds(init, read) + {read(files[|files| - 1]).articleId}
        {
          var i :| 0 <= i < |files| && read(files[i]).articleId == x;
          if i < |init| {
            assert files[i] == init[i];
          }
        }
        forall x | x in ReadIds(init, read)
          ensures x in ReadIds(files, read)
        {
          var i :| 0 <= i < |init| && read(init[i]).articleId == x;
          assert init[i] == files[i];
        }
      }
    }
  }

  /** When the files' articles carry distinct IDs, each ID maps to its own file's article. */
  lemma {:induction false} ScanValues(m: map<int, Article>, files: seq<Entry>, read: Entry -> Article)
    requires forall i, j :: 0 <= i < j < |files| ==> read(files[i]).articleId != read(files[j]).articleId
    ensures forall i :: 0 <= i < |files| ==>
      read(files[i]).articleId in Scan(m, files, read) && Scan(m, files, read)[read(files[i]).articleId] == read(files[i])
    decreases |files|
  {
    if files != [] {
      var init := files[..|files| - 1];
      ScanValues(m, init, read);
      ScanKeys(m, init, read);
      forall i | 0 <= i < |files|
        ensures Scan(m, files, read)[read(files[i]).articleId] == read(files[i])
      {
        if i < |init| {
          assert files[i] == init[i];
        }
      }
    }
  }

  /** `from_raw` gives back the article whose ID its file name starts with. */
  ghost predicate ReadsOwnIds(files: seq<Entry>, read: Entry -> Article)
    requires forall i :: 0 <= i < |files| ==> IsRaw(files[i])
  {
    forall i :: 0 <= i < |files| ==> ParseInt(IdPrefix(files[i])) == Some(read(files[i]).articleId)
  }

  /** Articles whose IDs pass the ID check have distinct IDs that make up 1..n. */
  lemma ConsistentReadIds(files: seq<Entry>, read: Entry -> Article, ids: seq<int>)
    requires |ids| == |files| && forall i :: 0 <= i < |files| ==> ids[i] == read(files[i]).articleId
    requires ConsistentIds(ids)
    ensures forall i, j :: 0 <= i < j < |files| ==> read(files[i]).articleId != read(files[j]).articleId
    ensures ReadIds(files, read) == Interval(|files|)
  {
    ConsistentIdsIff(ids);
    IdsFillInterval(ids);
    assert ReadIds(files, read) == SetOf(ids) by {
      forall x | x in SetOf(ids)
        ensures x in ReadIds(files, read)
      {
        var i :| 0 <= i < |ids| && ids[i] == x;
        assert read(files[i]).articleId == x;
      }
    }
  }

  /** After a passed check, a reader that returns each file's own ID gives IDs that
      are distinct and make up 1..n. */
  lemma PassedIds(p: PathState, read: Entry -> Article)
    requires ValidateDataset(p).Pass?
    requires ReadsOwnIds(RawFiles(p), read)
    ensures forall i, j :: 0 <= i < j < |RawFiles(p)| ==> read(RawFiles(p)[i]).articleId != read(RawFiles(p)[j]).articleId
    ensures ReadIds(RawFiles(p), read) == Interval(|RawFiles(p)|)
  {
    var files := RawFiles(p);
    var ids := ParseIds(files).value;
    assert forall i :: 0 <= i < |files| ==> ids[i] == read(files[i]).articleId;
    ConsistentReadIds(files, read, ids);
  }

  /** After a passed check, and with a reader that returns each file's own ID, the
      storage holds exactly the IDs 1..n, each mapped to the article of its file. */
  lemma ScanAfterValidation(p: PathState, read: Entry -> Article)
    requires ValidateDataset(p).Pass?
    requires ReadsOwnIds(RawFiles(p), read)
    ensures Scan(map[], RawFiles(p), read).Keys == Interval(|RawFiles(p)|)
    ensures forall i :: 0 <= i < |RawFiles(p)| ==>
      var a := read(RawFiles(p)[i]);
      a.articleId in Scan(map[], RawFiles(p), read) && Scan(map[], RawFiles(p), read)[a.articleId] == a
  {
    PassedIds(p, read);
    ScanKeys(map[], RawFiles(p), read);
    ScanValues(map[], RawFiles(p), read);
  }

  lemma StorageKeys(p: PathState, read: Entry -> Article)
    requires ValidateDataset(p).Pass?
    ensures Scan(map[], RawFiles(p), read).Keys == ReadIds(RawFiles(p), read)
    ensures ReadsOwnIds(RawFiles(p), read) ==> Scan(map[], RawFiles(p), read).Keys == Interval(|RawFiles(p)|)
  {
    ScanKeys(map[], RawFiles(p), read);
    if ReadsOwnIds(RawFiles(p), read) {
      ScanAfterValidation(p, read);
    }
  }

  // ---------------------------------------------------------------- the manager

  class CorpusManager {
    const path: PathState
    const read: Entry -> Article
    var storage: map<int, Article>

    /** The state `__init__` leaves behind when neither check nor scan raised. */
    ghost predicate Valid()
      reads this
    {
      ValidateDataset(path).Pass? && storage == Scan(map[], RawFiles(path), read)
    }

    /** The first two lines of `__init__`: the path and an empty storage. */
    constructor Empty(path: PathState, read: Entry -> Article)
      ensures this.path == path && this.read == read && storage == map[]
    {
      this.path := path;
      this.read := read;
      this.storage := map[];
    }

    /** `__init__`: validate, then scan; a raised check leaves no manager. */
    static method Open(path: PathState, read: Entry -> Article) returns (r: Result<CorpusManager, CorpusError>)
      ensures r.Failure? <==> ValidateDataset(path).Fail?
      ensures r.Failure? ==> Fail(r.error) == ValidateDataset(path)
      ensures r.Success? ==> fresh(r.value) && r.value.path == path && r.value.read == read && r.value.Valid()
    {
      var check := ValidateDataset(path);
      if check.Fail? {
        return Failure(check.error);
      }
      var m := new CorpusManager.Empty(path, read);
      m.ScanDataset();
      return Success(m);
    }

    /** `_scan_dataset`: read every raw file and store its article under its ID. */
    method ScanDataset()
      modifies this
      ensures storage == Scan(old(storage), RawFiles(path), read)
    {
      var files := RawFiles(path);
      for k := 0 to |files|
        invariant storage == Scan(old(storage), files[..k], read)
      {
        var article := read(files[k]);
        ScanStep(old(storage), files, k, read);
        storage := storage[article.articleId := article];
      }
      assert files[..|files|] == files;
    }

    /** `get_articles`: the storage, which holds one article per raw file's ID. */
    function GetArticles(): (r: map<int, Article>)
      reads this
      requires Valid()
      ensures r.Keys == ReadIds(RawFiles(path), read)
      ensures ReadsOwnIds(RawFiles(path), read) ==> r.Keys == Interval(|RawFiles(path)|)
    {
      StorageKeys(path, read);
      storage
    }
  }
}
