/**
  The last step of `html_to_text`: the visible text of the page, as the HTML
  parser extracted it, has every run of three or more newlines replaced by
  exactly two (the substitution `\n{3,}` to `\n\n`), and is then stripped.
 */
module HtmlText {
  import opened Text

  /** Three newlines start at offset `i` of `s`. */
  predicate TripleAt(s: string, i: int) {
    0 <= i && i + 3 <= |s| && s[i] == '\n' && s[i + 1] == '\n' && s[i + 2] == '\n'
  }

  predicate NoTripleNewline(s: string) {
    forall i :: 0 <= i < |s| ==> !TripleAt(s, i)
  }

  /** The number of newlines at the start of `s`. */
  function NewlineRunLen(s: string): (k: nat)
    ensures k <= |s|
    ensures forall i :: 0 <= i < k ==> s[i] == '\n'
    ensures k == |s| || s[k] != '\n'
    decreases |s|
  {
    if |s| > 0 && s[0] == '\n' then 1 + NewlineRunLen(s[1..]) else 0
  }

  /** `s` with its newlines removed: everything the collapse must keep. */
  function DropNewlines(s: string): string
    decreases |s|
  {
    if |s| == 0 then []
    else if s[0] == '\n' then DropNewlines(s[1..])
    else [s[0]] + DropNewlines(s[1..])
  }

  lemma {:induction false} DropNewlinesConcat(a: string, b: string)
    ensures DropNewlines(a + b) == DropNewlines(a) + DropNewlines(b)
    decreases |a|
  {
    if |a| > 0 {
      assert (a + b)[1..] == a[1..] + b;
      DropNewlinesConcat(a[1..], b);
    } else {
      assert a + b == b;
    }
  }

  lemma {:induction false} DropNewlinesOfNewlines(a: string)
    requires forall i :: 0 <= i < |a| ==> a[i] == '\n'
    ensures DropNewlines(a) == []
    decreases |a|
  {
    if |a| > 0 {
      DropNewlinesOfNewlines(a[1..]);
    }
  }

  lemma NoTripleCons(c: char, b: string)
    requires c != '\n' && NoTripleNewline(b)
    ensures NoTripleNewline([c] + b)
  {
    var s := [c] + b;
    forall i | 0 <= i < |s| ensures !TripleAt(s, i) {
      if i > 0 && TripleAt(s, i) {
        assert TripleAt(b, i - 1);
      }
    }
  }

  /** At most two newlines followed by text that does not start with a newline. */
  lemma NoTripleShortRun(a: string, b: string)
    requires |a| <= 2 && NoTripleNewline(b) && (b == [] || b[0] != '\n')
    ensures NoTripleNewline(a + b)
  {
    var s := a + b;
    forall i | 0 <= i < |s| ensures !TripleAt(s, i) {
      if i >= |a| {
        assert TripleAt(s, i) ==> TripleAt(b, i - |a|);
      } else if |a| < |s| {
        assert s[|a|] == b[0];
      }
    }
  }

  /**
    `re.sub(r"\n{3,}", "\n\n", s)`: each maximal run of three or more
    newlines becomes two newlines; everything else is copied.
   */
  function Collapse(s: string): (r: string)
    ensures |r| <= |s|
    ensures NoTripleNewline(r)
    ensures s != [] && s[0] != '\n' ==> r != [] && r[0] == s[0]
    decreases |s|
  {
    if |s| == 0 then []
    else if s[0] != '\n' then
      var r := [s[0]] + Collapse(s[1..]);
      NoTripleCons(s[0], Collapse(s[1..]));
      r
    else
      var k := NewlineRunLen(s);
      var run := if k >= 3 then "\n\n" else s[..k];
      var r := run + Collapse(s[k..]);
      NoTripleShortRun(run, Collapse(s[k..]));
      r
  }

  /** The collapse removes newlines only: all other characters survive, in order. */
  lemma {:induction false} CollapseKeepsText(s: string)
    ensures DropNewlines(Collapse(s)) == DropNewlines(s)
    decreases |s|
  {
    if |s| == 0 {
    } else if s[0] != '\n' {
      CollapseKeepsText(s[1..]);
    } else {
      var k := NewlineRunLen(s);
      var run := if k >= 3 then "\n\n" else s[..k];
      CollapseKeepsText(s[k..]);
      DropNewlinesConcat(run, Collapse(s[k..]));
      DropNewlinesConcat(s[..k], s[k..]);
      assert s == s[..k] + s[k..];
      DropNewlinesOfNewlines(run);
      DropNewlinesOfNewlines(s[..k]);
    }
  }

  lemma NoTripleSuffix(s: string, k: int)
    requires 0 <= k <= |s| && NoTripleNewline(s)
    ensures NoTripleNewline(s[k..])
  {
    forall i | 0 <= i < |s[k..]| ensures !TripleAt(s[k..], i) {
      if TripleAt(s[k..], i) {
        assert TripleAt(s, i + k);
      }
    }
  }

  /** Text whose newline runs are all at most two long is left exactly as it was. */
  lemma {:induction false} CollapseKeepsShortRuns(s: string)
    requires NoTripleNewline(s)
    ensures Collapse(s) == s
    decreases |s|
  {
    if |s| == 0 {
    } else if s[0] != '\n' {
      NoTripleSuffix(s, 1);
      CollapseKeepsShortRuns(s[1..]);
    } else {
      var k := NewlineRunLen(s);
      assert k < 3 by {
        assert !TripleAt(s, 0);
      }
      NoTripleSuffix(s, k);
      CollapseKeepsShortRuns(s[k..]);
      assert Collapse(s) == s[..k] + Collapse(s[k..]);
      assert s == s[..k] + s[k..];
    }
  }

  /** The collapse changes the text exactly when it has three newlines in a row. */
  lemma CollapseFixpoint(s: string)
    ensures Collapse(s) == s <==> NoTripleNewline(s)
  {
    if NoTripleNewline(s) {
      CollapseKeepsShortRuns(s);
    }
  }

  lemma CollapseIdempotent(s: string)
    ensures Collapse(Collapse(s)) == Collapse(s)
  {
    CollapseKeepsShortRuns(Collapse(s));
  }

  /** `k` newlines. */
  function Newlines(k: nat): (r: string)
    ensures |r| == k && forall i :: 0 <= i < k ==> r[i] == '\n'
  {
    seq(k, i => '\n')
  }

  /** The leading newline run is the one that the characters of `s` fix. */
  lemma NewlineRunLenIs(s: string, k: nat)
    requires k <= |s| && forall i :: 0 <= i < k ==> s[i] == '\n'
    requires k == |s| || s[k] != '\n'
    ensures NewlineRunLen(s) == k
  {
  }

  /** What a run of `k` newlines becomes: two newlines when `k >= 3`, itself otherwise. */
  function Squeezed(k: nat): (r: string)
    ensures |r| == (if k >= 3 then 2 else k) && forall i :: 0 <= i < |r| ==> r[i] == '\n'
  {
    Newlines(if k >= 3 then 2 else k)
  }

  /** A run of `k` newlines at the start collapses on its own. */
  lemma CollapseLeadingRun(k: nat, b: string)
    requires k >= 1 && (b == [] || b[0] != '\n')
    ensures Collapse(Newlines(k) + b) == Squeezed(k) + Collapse(b)
  {
    var s := Newlines(k) + b;
    NewlineRunLenIs(s, k);
    assert s[..k] == Newlines(k);
    assert s[k..] == b;
  }

  lemma CollapseCons(c: char, y: string)
    requires c != '\n'
    ensures Collapse([c] + y) == [c] + Collapse(y)
  {
    assert ([c] + y)[1..] == y;
  }

  /** A leading newline run that ends inside `a` collapses the same way whatever follows `a`. */
  lemma CollapseInnerRun(a: string, y: string)
    requires a != [] && a[0] == '\n' && NewlineRunLen(a) < |a|
    ensures Collapse(a) == Squeezed(NewlineRunLen(a)) + Collapse(a[NewlineRunLen(a)..])
    ensures Collapse(a + y) == Squeezed(NewlineRunLen(a)) + Collapse(a[NewlineRunLen(a)..] + y)
  {
    var j := NewlineRunLen(a);
    var s := a + y;
    NewlineRunLenIs(s, j);
    assert s[..j] == a[..j];
    assert s[j..] == a[j..] + y;
    assert if j >= 3 then Squeezed(j) == "\n\n" else Squeezed(j) == a[..j];
  }

  /** A text cut after a character other than a newline collapses piece by piece. */
  lemma {:induction false} CollapseConcat(u: string, v: string)
    requires u == [] || u[|u| - 1] != '\n'
    ensures Collapse(u + v) == Collapse(u) + Collapse(v)
    decreases |u|
  {
    if |u| == 0 {
      assert u + v == v;
    } else {
      var j := if u[0] == '\n' then NewlineRunLen(u) else 1;
      var t := u[j..];
      var s := if u[0] == '\n' then Squeezed(j) else [u[0]];
      assert Collapse(u + v) == s + Collapse(t + v) && Collapse(u) == s + Collapse(t) by {
        if u[0] == '\n' {
          CollapseInnerRun(u, v);
        } else {
          assert u + v == [u[0]] + (t + v) && u == [u[0]] + t;
          CollapseCons(u[0], t + v);
          CollapseCons(u[0], t);
        }
      }
      CollapseConcat(t, v);
      AppendAssoc(s, Collapse(t), Collapse(v));
    }
  }

  /**
    Each maximal run of `k` newlines collapses in place, independently of the
    text around it: to two newlines when `k >= 3`, and to itself otherwise.
   */
  lemma CollapseRun(a: string, k: nat, b: string)
    requires a == [] || a[|a| - 1] != '\n'
    requires b == [] || b[0] != '\n'
    requires k >= 1
    ensures Collapse(a + Newlines(k) + b) == Collapse(a) + Squeezed(k) + Collapse(b)
  {
    assert a + Newlines(k) + b == a + (Newlines(k) + b);
    CollapseConcat(a, Newlines(k) + b);
    CollapseLeadingRun(k, b);
    AppendAssoc(Collapse(a), Squeezed(k), Collapse(b));
  }

  /** Three newlines between two letters become two. */
  lemma CollapseTripleBetweenLetters()
    ensures Collapse("a\n\n\nb") == "a\n\nb"
  {
    assert "a\n\n\nb" == "a" + Newlines(3) + "b";
    CollapseRun("a", 3, "b");
    CollapseKeepsShortRuns("a");
    CollapseKeepsShortRuns("b");
    assert Squeezed(3) == "\n\n";
  }

  lemma NoTripleSlice(s: string, i: int, j: int)
    requires 0 <= i <= j <= |s| && NoTripleNewline(s)
    ensures NoTripleNewline(s[i..j])
  {
    forall m | 0 <= m < j - i ensures !TripleAt(s[i..j], m) {
      if TripleAt(s[i..j], m) {
        assert TripleAt(s, i + m);
      }
    }
  }

  lemma StripKeepsNoTriple(s: string)
    requires NoTripleNewline(s)
    ensures NoTripleNewline(Strip(s))
  {
    var r := Strip(s);
    var i :| StrippedAt(s, r, i);
    assert r == s[i..i + |r|];
    NoTripleSlice(s, i, i + |r|);
  }

  /**
    The text `html_to_text` returns for the extracted visible text `t`:
    the collapsed text with its outer whitespace removed, so no three
    newlines in a row and no whitespace at either end.
   */
  function CleanText(t: string): (r: string)
    ensures exists i :: StrippedAt(Collapse(t), r, i)
    ensures NoTripleNewline(r)
    ensures NoOuterSpace(r)
    ensures |r| <= |t|
  {
    var c := Collapse(t);
    StripKeepsNoTriple(c);
    Strip(c)
  }

  /** Text that is already clean passes through `html_to_text`'s last step unchanged. */
  lemma CleanTextKeepsCleanText(t: string)
    requires NoTripleNewline(t) && NoOuterSpace(t)
    ensures CleanText(t) == t
  {
    CollapseKeepsShortRuns(t);
    StripOfStripped(t);
  }
}
