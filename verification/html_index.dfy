/**
  The index from numeric identifiers to HTML files (`build_html_index`):
  every maximal run of digits in a file's name is a key, and the first file,
  in traversal order, whose name holds that run is its value.
 */
module HtmlIndex {
  import opened Text

  /** An HTML file found under the posts directory: its full path and its base name. */
  datatype HtmlFile = HtmlFile(path: string, name: string)

  type Index = map<string, HtmlFile>

  /**
    The maximal runs of ASCII digits in `s`, left to right: what
    `re.findall(r"\d+", s)` returns.
   */
  function DigitRuns(s: string): (runs: seq<string>)
    ensures forall k :: 0 <= k < |runs| ==> runs[k] != [] && AllDigits(runs[k])
    decreases |s|
  {
    if |s| == 0 then []
    else if !IsDigit(s[0]) then DigitRuns(s[1..])
    else
      var k := DigitPrefixLen(s);
      [s[..k]] + DigitRuns(s[k..])
  }

  /** `s[i..j]` is a run of digits that cannot be extended on either side. */
  predicate MaximalRunAt(s: string, i: int, j: int) {
    && 0 <= i < j <= |s|
    && AllDigits(s[i..j])
    && (i == 0 || !IsDigit(s[i - 1]))
    && (j == |s| || !IsDigit(s[j]))
  }

  lemma DigitsIn(s: string, a: int, b: int)
    requires 0 <= a <= b <= |s| && AllDigits(s[a..b])
    ensures forall m :: a <= m < b ==> IsDigit(s[m])
  {
    forall m | a <= m < b ensures IsDigit(s[m]) { assert s[m] == s[a..b][m - a]; }
  }

  /** `d` is a maximal digit run somewhere in `s`. */
  ghost predicate IsRunOf(d: string, s: string) {
    exists i, j :: MaximalRunAt(s, i, j) && s[i..j] == d
  }

  /**
    A maximal run of a suffix `s[k..]` is a maximal run of `s`, unless it
    starts the suffix right after a digit.
   */
  lemma RunShift(s: string, k: int, i: int, j: int)
    requires 0 <= k <= |s| && (k == 0 || i > 0 || !IsDigit(s[k - 1]))
    requires MaximalRunAt(s[k..], i, j)
    ensures MaximalRunAt(s, i + k, j + k) && s[i + k..j + k] == s[k..][i..j]
  {
    assert s[i + k..j + k] == s[k..][i..j];
    if i > 0 {
      assert s[i + k - 1] == s[k..][i - 1];
    }
    if j < |s[k..]| {
      assert s[j + k] == s[k..][j];
    }
  }

  /** Every string `DigitRuns` returns is a maximal digit run of the input. */
  lemma {:induction false} DigitRunsSound(s: string, d: string)
    requires d in DigitRuns(s)
    ensures IsRunOf(d, s)
    decreases |s|
  {
    if !IsDigit(s[0]) {
      DigitRunsSound(s[1..], d);
      var i, j :| MaximalRunAt(s[1..], i, j) && s[1..][i..j] == d;
      RunShift(s, 1, i, j);
    } else {
      var k := DigitPrefixLen(s);
      if d == s[..k] {
        assert MaximalRunAt(s, 0, k) && s[0..k] == d;
      } else {
        assert d in DigitRuns(s[k..]);
        DigitRunsSound(s[k..], d);
        var i, j :| MaximalRunAt(s[k..], i, j) && s[k..][i..j] == d;
        assert s[k..][i..j][0] == s[k..][i];
        RunShift(s, k, i, j);
      }
    }
  }

  /** Every maximal digit run of the input is among the strings `DigitRuns` returns. */
  lemma {:induction false} DigitRunsComplete(s: string, i: int, j: int)
    requires MaximalRunAt(s, i, j)
    ensures s[i..j] in DigitRuns(s)
    decreases |s|
  {
    assert s[i..j][0] == s[i];
    if !IsDigit(s[0]) {
      assert MaximalRunAt(s[1..], i - 1, j - 1) by {
        assert s[1..][i - 1..j - 1] == s[i..j];
        if i > 1 { assert s[1..][i - 2] == s[i - 1]; }
        if j < |s| { assert s[1..][j - 1] == s[j]; }
      }
      DigitRunsComplete(s[1..], i - 1, j - 1);
      assert s[1..][i - 1..j - 1] == s[i..j];
    } else {
      var k := DigitPrefixLen(s);
      if i == 0 {
        DigitsIn(s, 0, j);
        DigitsIn(s, 0, k);
        assert j == k;
      } else {
        DigitsIn(s, 0, k);
        assert k < i;
        assert MaximalRunAt(s[k..], i - k, j - k) by {
          assert s[k..][i - k..j - k] == s[i..j];
          if i - k > 0 { assert s[k..][i - k - 1] == s[i - 1]; }
          if j < |s| { assert s[k..][j - k] == s[j]; }
        }
        DigitRunsComplete(s[k..], i - k, j - k);
        assert s[k..][i - k..j - k] == s[i..j];
      }
    }
  }

  /** The strings `re.findall(r"\d+", s)` returns are exactly the maximal digit runs of `s`. */
  lemma DigitRunsExactly(s: string, d: string)
    ensures d in DigitRuns(s) <==> IsRunOf(d, s)
  {
    if d in DigitRuns(s) {
      DigitRunsSound(s, d);
    }
    if IsRunOf(d, s) {
      var i, j :| MaximalRunAt(s, i, j) && s[i..j] == d;
      DigitRunsComplete(s, i, j);
    }
  }

  /** Some file of `files` has `d` among the digit runs of its name. */
  ghost predicate OccursIn(files: seq<HtmlFile>, d: string) {
    exists i :: 0 <= i < |files| && d in DigitRuns(files[i].name)
  }

  /** `files[i]` is the first file of `files` with `d` among the digit runs of its name. */
  predicate FirstOccurrence(files: seq<HtmlFile>, d: string, i: int) {
    && 0 <= i < |files|
    && d in DigitRuns(files[i].name)
    && forall j :: 0 <= j < i ==> d !in DigitRuns(files[j].name)
  }

  /**
    The inner loop over one file's digit runs: a run that is not yet a key
    is mapped to the file, and an existing key is never overwritten.
   */
  function AddRuns(index: Index, runs: seq<string>, f: HtmlFile): (r: Index)
    ensures r.Keys == index.Keys + (set d | d in runs)
    ensures forall d :: d in index ==> r[d] == index[d]
    ensures forall d :: d in r && d !in index ==> r[d] == f
    decreases |runs|
  {
    if |runs| == 0 then index
    else AddRuns(if runs[0] in index then index else index[runs[0] := f], runs[1..], f)
  }

  /** How occurrences in `files` relate to occurrences in its first file and in `files[1..]`. */
  lemma ShiftFacts(files: seq<HtmlFile>)
    requires |files| > 0
    ensures forall d :: OccursIn(files, d) <==> d in DigitRuns(files[0].name) || OccursIn(files[1..], d)
    ensures forall d, i :: FirstOccurrence(files, d, i) && i > 0 ==> FirstOccurrence(files[1..], d, i - 1)
    ensures forall d, i :: FirstOccurrence(files[1..], d, i) && d !in DigitRuns(files[0].name) ==> FirstOccurrence(files, d, i + 1)
    ensures forall d :: d in DigitRuns(files[0].name) ==> FirstOccurrence(files, d, 0)
  {
    assert forall d :: OccursIn(files[1..], d) ==> OccursIn(files, d) by {
      forall d | OccursIn(files[1..], d) ensures OccursIn(files, d) {
        var i :| 0 <= i < |files[1..]| && d in DigitRuns(files[1..][i].name);
        assert files[i + 1] == files[1..][i];
      }
    }
    assert forall d :: OccursIn(files, d) && d !in DigitRuns(files[0].name) ==> OccursIn(files[1..], d) by {
      forall d | OccursIn(files, d) && d !in DigitRuns(files[0].name) ensures OccursIn(files[1..], d) {
        var i :| 0 <= i < |files| && d in DigitRuns(files[i].name);
        assert files[1..][i - 1] == files[i];
      }
    }
    assert forall d, i :: FirstOccurrence(files, d, i) && i > 0 ==> FirstOccurrence(files[1..], d, i - 1);
    assert forall d, i :: FirstOccurrence(files[1..], d, i) && d !in DigitRuns(files[0].name) ==> FirstOccurrence(files, d, i + 1);
    assert forall d :: d in DigitRuns(files[0].name) ==> FirstOccurrence(files, d, 0);
  }

  /** The outer loop of `build_html_index`, continued from `index` over the remaining `files`. */
  function IndexFiles(index: Index, files: seq<HtmlFile>): (r: Index)
    ensures forall d :: d in r <==> d in index || OccursIn(files, d)
    ensures forall d :: d in index ==> r[d] == index[d]
    ensures forall d, i :: d !in index && FirstOccurrence(files, d, i) ==> d in r && r[d] == files[i]
    ensures forall d :: d in r && d !in index ==> exists i :: FirstOccurrence(files, d, i) && r[d] == files[i]
    decreases |files|
  {
    if |files| == 0 then index
    else
      var next := AddRuns(index, DigitRuns(files[0].name), files[0]);
      var r := IndexFiles(next, files[1..]);
      ShiftFacts(files);
      r
  }

  /**
    `build_html_index` over the files in traversal order: the keys are
    exactly the digit runs of the names, and each key maps to the first
    file whose name holds it.
   */
  function BuildIndex(files: seq<HtmlFile>): (r: Index)
    ensures forall d :: d in r <==> OccursIn(files, d)
    ensures forall d, i :: FirstOccurrence(files, d, i) ==> d in r && r[d] == files[i]
    ensures forall d :: d in r ==> exists i :: FirstOccurrence(files, d, i) && r[d] == files[i]
  {
    IndexFiles(map[], files)
  }

  /** The keys of the index are exactly the maximal digit runs of the file names. */
  lemma IndexKeysAreMaximalRuns(files: seq<HtmlFile>, d: string)
    ensures d in BuildIndex(files) <==> exists i :: 0 <= i < |files| && IsRunOf(d, files[i].name)
  {
    forall i | 0 <= i < |files| ensures d in DigitRuns(files[i].name) <==> IsRunOf(d, files[i].name) {
      DigitRunsExactly(files[i].name, d);
    }
  }

  /** Indexing `files + more` is indexing `files` first and then continuing over `more`. */
  lemma {:induction false} IndexFilesAppend(index: Index, files: seq<HtmlFile>, more: seq<HtmlFile>)
    ensures IndexFiles(index, files + more) == IndexFiles(IndexFiles(index, files), more)
    decreases |files|
  {
    if |files| == 0 {
      assert files + more == more;
    } else {
      assert (files + more)[1..] == files[1..] + more;
      IndexFilesAppend(AddRuns(index, DigitRuns(files[0].name), files[0]), files[1..], more);
    }
  }

  /** Files found later never change an entry that earlier files created. */
  lemma LaterFilesNeverOverwrite(files: seq<HtmlFile>, more: seq<HtmlFile>, d: string)
    requires d in BuildIndex(files)
    ensures d in BuildIndex(files + more) && BuildIndex(files + more)[d] == BuildIndex(files)[d]
  {
    IndexFilesAppend(map[], files, more);
  }
}
