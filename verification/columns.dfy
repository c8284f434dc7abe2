/**
  Column-name normalisation in the extractor: each CSV column name is
  trimmed and lower-cased and looked up in the synonym table; a synonym
  spelled differently from its canonical name is renamed with `AS`, every
  other column is selected as it is. The fragments are joined with ", "
  into the select list of the normalising view.
 */
module Columns {
  import opened Nullable
  import opened Text
  import opened SelectSql

  /** The synonym table `col_map`, as (lookup key, canonical column name) pairs. */
  const ColMap: seq<(string, string)> := [
    ("post_id", "post_id"),
    ("title", "title"),
    ("subtitle", "sub_title"),
    ("sub_title", "sub_title"),
    ("post_date", "post_date"),
    ("date", "post_date"),
    ("is_published", "is_published"),
    ("published", "is_published")
  ]

  /** The canonical name stored under `key` in `entries`, if any. */
  function LookupIn(entries: seq<(string, string)>, key: string): Option<string>
    decreases |entries|
  {
    if |entries| == 0 then None
    else if entries[0].0 == key then Some(entries[0].1)
    else LookupIn(entries[1..], key)
  }

  /** A hit is an entry of the table: the first one with that key. */
  lemma {:induction false} LookupInHit(entries: seq<(string, string)>, key: string)
    requires LookupIn(entries, key).Some?
    ensures exists i :: (0 <= i < |entries| && entries[i] == (key, LookupIn(entries, key).value)
      && forall j :: 0 <= j < i ==> entries[j].0 != key)
    decreases |entries|
  {
    if entries[0].0 != key {
      LookupInHit(entries[1..], key);
      var i :| 0 <= i < |entries[1..]| && entries[1..][i] == (key, LookupIn(entries[1..], key).value)
        && forall j :: 0 <= j < i ==> entries[1..][j].0 != key;
      assert entries[i + 1] == entries[1..][i];
      assert forall j :: 1 <= j < i + 1 ==> entries[j] == entries[1..][j - 1];
    } else {
      assert entries[0] == (key, LookupIn(entries, key).value);
    }
  }

  /** A miss means that no entry has the key. */
  lemma {:induction false} LookupInMiss(entries: seq<(string, string)>, key: string)
    ensures LookupIn(entries, key).None? <==> forall i :: 0 <= i < |entries| ==> entries[i].0 != key
    decreases |entries|
  {
    if |entries| > 0 {
      LookupInMiss(entries[1..], key);
      assert forall i :: 1 <= i < |entries| ==> entries[i] == entries[1..][i - 1];
    }
  }

  /** The keys of `col_map`: the first components of `ColMap`, as `ColMapSets` shows. */
  const TableKeys: set<string> :=
    {"post_id", "title", "subtitle", "sub_title", "post_date", "date", "is_published", "published"}

  /** The canonical column names: the second components of `ColMap`, as `ColMapSets` shows. */
  const CanonicalNames: set<string> := {"post_id", "title", "sub_title", "post_date", "is_published"}

  /** `TableKeys` and `CanonicalNames` are the key set and the value set of the one table `ColMap`. */
  lemma ColMapSets()
    ensures TableKeys == set i | 0 <= i < |ColMap| :: ColMap[i].0
    ensures CanonicalNames == set i | 0 <= i < |ColMap| :: ColMap[i].1
  {
    ColMapKeys();
    ColMapValues();
  }

  lemma ColMapKeys()
    ensures TableKeys == set i | 0 <= i < |ColMap| :: ColMap[i].0
  {
    var keys := set i | 0 <= i < |ColMap| :: ColMap[i].0;
    assert ColMap[0].0 in keys && ColMap[1].0 in keys && ColMap[2].0 in keys && ColMap[3].0 in keys;
    assert ColMap[4].0 in keys && ColMap[5].0 in keys && ColMap[6].0 in keys && ColMap[7].0 in keys;
  }

  lemma ColMapValues()
    ensures CanonicalNames == set i | 0 <= i < |ColMap| :: ColMap[i].1
  {
    var values := set i | 0 <= i < |ColMap| :: ColMap[i].1;
    assert ColMap[0].1 in values && ColMap[1].1 in values && ColMap[2].1 in values && ColMap[3].1 in values;
    assert ColMap[4].1 in values && ColMap[5].1 in values && ColMap[6].1 in values && ColMap[7].1 in values;
  }

  /** `col_map.get(key)`: a canonical name exactly for the table's eight keys, None for every other key. */
  function Lookup(key: string): (r: Option<string>)
    ensures r.Some? <==> key in TableKeys
    ensures r.Some? ==> r.value in CanonicalNames
  {
    TableKeysLookedUp(key);
    LookupIn(ColMap, key)
  }

  lemma TableKeysLookedUp(key: string)
    ensures LookupIn(ColMap, key).Some? <==> key in TableKeys
    ensures LookupIn(ColMap, key).Some? ==> LookupIn(ColMap, key).value in CanonicalNames
  {
    if LookupIn(ColMap, key).Some? {
      TableHit(key);
    } else {
      TableMiss(key);
    }
  }

  lemma TableHit(key: string)
    requires LookupIn(ColMap, key).Some?
    ensures key in TableKeys && LookupIn(ColMap, key).value in CanonicalNames
  {
    LookupInHit(ColMap, key);
  }

  lemma TableMiss(key: string)
    requires LookupIn(ColMap, key).None?
    ensures key !in TableKeys
  {
    LookupInMiss(ColMap, key);
    assert key != ColMap[0].0 && key != ColMap[1].0 && key != ColMap[2].0 && key != ColMap[3].0;
    assert key != ColMap[4].0 && key != ColMap[5].0 && key != ColMap[6].0 && key != ColMap[7].0;
  }

  /** The lookup key of a column name: `col.strip().lower()`. */
  function Key(col: string): (k: string)
    ensures NoOuterSpace(k) && |k| <= |col|
    ensures forall i :: 0 <= i < |k| ==> !('A' <= k[i] <= 'Z')
  {
    LowerShape(Strip(col));
    Lower(Strip(col))
  }

  /** The key of a key is the key itself: trimming and lower-casing a second time changes nothing. */
  lemma KeyIdempotent(col: string)
    ensures Key(Key(col)) == Key(col)
  {
    var k := Key(col);
    StripOfStripped(k);
    LowerIdempotent(Strip(col));
  }

  /** The column is a synonym spelled differently from its canonical name, so it gets an alias. */
  predicate Renamed(col: string) {
    Lookup(Key(col)).Some? && col != Lookup(Key(col)).value
  }

  /** The name a column has in the normalised view. */
  function OutputName(col: string): string {
    ValueOr(Lookup(Key(col)), col)
  }

  /** What a correct fragment for `col` reads: the column itself, aliased when it is renamed. */
  function IntendedItem(col: string): SelectItem {
    SelectItem(col, if Renamed(col) then Lookup(Key(col)) else None)
  }

  predicate EndsWith(s: string, suffix: string) {
    |suffix| <= |s| && s[|s| - |suffix|..] == suffix
  }

  /**
    The select fragment the extractor writes for column `col`, given what the
    table holds under its key: the column as it is, or, when the canonical
    name differs from it, the column (quoted when it holds a space or a
    hyphen) renamed with `AS`.
   */
  function Fragment(col: string, normalized: Option<string>): (r: string)
    ensures normalized.None? || col == normalized.value ==> r == col
    ensures normalized.Some? && col != normalized.value ==>
      EndsWith(r, " AS " + normalized.value) && |r| > |col|
  {
    match normalized
    case Some(n) =>
      if col != n then
        var escaped := if ' ' in col || '-' in col then "\"" + col + "\"" else col;
        escaped + " AS " + n
      else col
    case None => col
  }

  /** The select fragment the extractor writes for one column. */
  function ColumnFragment(col: string): (r: string)
    ensures !Renamed(col) ==> r == col
    ensures Renamed(col) ==> EndsWith(r, " AS " + Lookup(Key(col)).value) && |r| > |col|
  {
    Fragment(col, Lookup(Key(col)))
  }

  /** The loop over the columns: one fragment per column, in column order. */
  function NormalizeColumns(cols: seq<string>): (parts: seq<string>)
    ensures |parts| == |cols|
    ensures forall i :: 0 <= i < |cols| ==> parts[i] == ColumnFragment(cols[i])
  {
    seq(|cols|, i requires 0 <= i < |cols| => ColumnFragment(cols[i]))
  }

  /**
    The select list of the normalising view: one column gives its fragment
    alone; more columns give a list that starts with the first column's
    fragment and ends with the last's.
   */
  function SelectList(cols: seq<string>): (r: string)
    ensures cols == [] ==> r == ""
    ensures |cols| == 1 ==> r == ColumnFragment(cols[0])
    ensures |cols| > 0 ==> |ColumnFragment(cols[0])| <= |r| && r[..|ColumnFragment(cols[0])|] == ColumnFragment(cols[0])
    ensures |cols| > 0 ==> EndsWith(r, ColumnFragment(cols[|cols| - 1]))
  {
    Join(NormalizeColumns(cols), ", ")
  }

  /** Each further column adds ", " and its own fragment at the end of the select list. */
  lemma SelectListAppend(cols: seq<string>, col: string)
    requires |cols| > 0
    ensures SelectList(cols + [col]) == SelectList(cols) + ", " + ColumnFragment(col)
  {
    NormalizeAppend(cols, col);
    JoinAppend(NormalizeColumns(cols), ColumnFragment(col), ", ");
  }

  lemma NormalizeAppend(cols: seq<string>, col: string)
    ensures NormalizeColumns(cols + [col]) == NormalizeColumns(cols) + [ColumnFragment(col)]
  {
    assert forall i :: 0 <= i < |cols| ==> (cols + [col])[i] == cols[i];
  }

  predicate IsKeyChar(c: char) {
    'a' <= c <= 'z' || c == '_'
  }

  predicate KeyChars(s: string) {
    forall i :: 0 <= i < |s| ==> IsKeyChar(s[i])
  }

  /** A table entry: a lower-case key and a canonical name that is a lower-case bare identifier. */
  predicate GoodEntry(e: (string, string)) {
    KeyChars(e.0) && IsBareIdent(e.1) && KeyChars(e.1)
  }

  lemma ColMapShape()
    ensures forall i :: 0 <= i < |ColMap| ==> GoodEntry(ColMap[i])
  {
  }

  /** Every canonical name is stored under itself. */
  lemma CanonicalNamesMapToThemselves()
    ensures forall i :: 0 <= i < |ColMap| ==> Lookup(ColMap[i].1) == Some(ColMap[i].1)
  {
    assert Lookup("post_id") == Some("post_id");
    assert Lookup("title") == Some("title");
    assert Lookup("sub_title") == Some("sub_title");
    assert Lookup("post_date") == Some("post_date");
    assert Lookup("is_published") == Some("is_published");
  }

  /**
    Whatever the table returns is a lower-case bare identifier that the table
    maps to itself, found under a lower-case key.
   */
  lemma LookupGood(key: string)
    requires Lookup(key).Some?
    ensures GoodEntry((key, Lookup(key).value))
    ensures Lookup(Lookup(key).value) == Lookup(key)
  {
    LookupInHit(ColMap, key);
    ColMapShape();
    CanonicalNamesMapToThemselves();
  }

  /** A key holding anything but lower-case letters and underscores is not in the table. */
  lemma UnknownKey(key: string, m: int)
    requires 0 <= m < |key| && !IsKeyChar(key[m])
    ensures Lookup(key).None?
  {
    ColMapShape();
    LookupInMiss(ColMap, key);
  }

  /** A recognised column name holds only whitespace, letters and underscores. */
  lemma RecognizedChars(col: string)
    requires Lookup(Key(col)).Some?
    ensures forall m :: 0 <= m < |col| ==> IsSpace(col[m]) || IsIdentStart(col[m])
  {
    LookupGood(Key(col));
    var t := Strip(col);
    var j :| StrippedAt(col, t, j);
    forall m | j <= m < j + |t| ensures IsIdentStart(col[m]) {
      assert col[m] == t[m - j];
      assert IsKeyChar(Lower(t)[m - j]);
    }
  }

  lemma {:induction false} EscapeNoQuote(s: string)
    requires forall m :: 0 <= m < |s| ==> s[m] != '"'
    ensures Escape(s) == s
    decreases |s|
  {
    if |s| > 0 {
      EscapeNoQuote(s[1..]);
      assert [s[0]] + s[1..] == s;
    }
  }

  /**
    For a renamed column the name is quoted exactly when it contains a space
    or a hyphen.
   */
  lemma RenamedQuotedIff(col: string)
    requires Renamed(col)
    ensures |col| > 0
    ensures ColumnFragment(col)[0] == '"' <==> ' ' in col || '-' in col
  {
    var n := Lookup(Key(col)).value;
    assert |col| > 0 by {
      assert Key(col) in TableKeys;
    }
    if ' ' in col || '-' in col {
      QuotedRename(col, n);
    } else {
      UnquotedRename(col, n);
      assert IsSpace(col[0]) || IsIdentStart(col[0]) by {
        RecognizedChars(col);
      }
    }
  }

  /** A renamed column with a space or a hyphen is written in double quotes, then `AS` and the canonical name. */
  lemma QuotedRename(col: string, canon: string)
    requires Lookup(Key(col)) == Some(canon) && col != canon
    requires ' ' in col || '-' in col
    ensures ColumnFragment(col) == "\"" + col + "\"" + " AS " + canon
  {
  }

  /**
    The fragment as written reads the right column under the right name
    when the name is a bare identifier, or when it is renamed and contains
    a space or a hyphen (the case the quoting was written for).
   */
  lemma FragmentReadsColumn(col: string)
    requires (IsBareIdent(col) && Lower(col) != "as") || (Renamed(col) && (' ' in col || '-' in col))
    ensures ParseItem(ColumnFragment(col)) == Some(IntendedItem(col))
  {
    if Renamed(col) {
      if ' ' in col || '-' in col {
        QuotedRenameReadsColumn(col);
      } else {
        BareRenameReadsColumn(col);
      }
    } else {
      BareItem(col);
    }
  }

  lemma QuotedRenameReadsColumn(col: string)
    requires Renamed(col) && (' ' in col || '-' in col)
    ensures ParseItem(ColumnFragment(col)) == Some(IntendedItem(col))
  {
    LookupGood(Key(col));
    QuotedRenameFragment(col);
    QuotedAliasItem(col, Lookup(Key(col)).value);
  }

  /** The quoting of a renamed column needs no escaping: a recognised name holds no `"`. */
  lemma QuotedRenameFragment(col: string)
    requires Renamed(col) && (' ' in col || '-' in col)
    ensures ColumnFragment(col) == QuoteIdent(col) + " AS " + Lookup(Key(col)).value
  {
    QuotedRename(col, Lookup(Key(col)).value);
    assert Escape(col) == col by {
      RecognizedChars(col);
      EscapeNoQuote(col);
    }
  }

  /** A renamed column without a space or a hyphen is written as it is, then `AS` and the canonical name. */
  lemma UnquotedRename(col: string, canon: string)
    requires Lookup(Key(col)) == Some(canon) && col != canon
    requires ' ' !in col && '-' !in col
    ensures ColumnFragment(col) == col + " AS " + canon
  {
  }

  lemma BareRenameReadsColumn(col: string)
    requires Renamed(col) && IsBareIdent(col) && ' ' !in col && '-' !in col
    ensures ParseItem(ColumnFragment(col)) == Some(IntendedItem(col))
  {
    LookupGood(Key(col));
    var canon := Lookup(Key(col)).value;
    UnquotedRename(col, canon);
    BareAliasItem(col, canon);
  }

  /** A name already canonical is looked up as itself. */
  lemma CanonicalKey(c: string)
    requires IsBareIdent(c) && KeyChars(c)
    ensures Key(c) == c
  {
    assert NoOuterSpace(c);
    StripOfStripped(c);
    assert forall i :: 0 <= i < |c| ==> LowerChar(c[i]) == c[i];
  }

  /**
    Normalisation is stable: feeding the normalised names back in selects
    every column as it is.
   */
  lemma NormalizeIdempotent(cols: seq<string>)
    ensures NormalizeColumns(seq(|cols|, i requires 0 <= i < |cols| => OutputName(cols[i])))
         == seq(|cols|, i requires 0 <= i < |cols| => OutputName(cols[i]))
  {
    forall i | 0 <= i < |cols| ensures ColumnFragment(OutputName(cols[i])) == OutputName(cols[i]) {
      if Lookup(Key(cols[i])).Some? {
        LookupGood(Key(cols[i]));
        CanonicalKey(Lookup(Key(cols[i])).value);
      }
    }
  }

  /** The fragment with every name quoted and escaped: the evidently intended behaviour. */
  function SafeColumnFragment(col: string): (r: string)
    ensures |r| > 0 && r[0] == '"'
  {
    if Renamed(col) then QuoteIdent(col) + " AS " + Lookup(Key(col)).value else QuoteIdent(col)
  }

  /** With every name quoted, the fragment reads the right column under the right name, for every name. */
  lemma SafeFragmentReadsColumn(col: string)
    ensures ParseItem(SafeColumnFragment(col)) == Some(IntendedItem(col))
  {
    if Renamed(col) {
      LookupGood(Key(col));
      QuotedAliasItem(col, Lookup(Key(col)).value);
    } else {
      QuotedItem(col);
    }
  }

  /** Every corrected fragment reads its own column. */
  lemma SafeFragmentsRead(cols: seq<string>)
    ensures forall i :: 0 <= i < |cols| ==> ParseItem(SafeColumnFragment(cols[i])) == Some(IntendedItem(cols[i]))
  {
    forall i | 0 <= i < |cols| ensures ParseItem(SafeColumnFragment(cols[i])) == Some(IntendedItem(cols[i])) {
      SafeFragmentReadsColumn(cols[i]);
    }
  }

  /** The corrected loop: one fragment per column, in column order, each reading its own column. */
  function SafeNormalizeColumns(cols: seq<string>): (parts: seq<string>)
    ensures |parts| == |cols|
    ensures forall i :: 0 <= i < |cols| ==> ParseItem(parts[i]) == Some(IntendedItem(cols[i]))
  {
    SafeFragmentsRead(cols);
    seq(|cols|, i requires 0 <= i < |cols| => SafeColumnFragment(cols[i]))
  }

  lemma SafeNormalizeAppend(cols: seq<string>, col: string)
    ensures SafeNormalizeColumns(cols + [col]) == SafeNormalizeColumns(cols) + [SafeColumnFragment(col)]
  {
    assert forall i :: 0 <= i < |cols| ==> (cols + [col])[i] == cols[i];
  }

  /**
    The corrected select list of the normalising view: it starts with the
    first column's corrected fragment and ends with the last column's, each
    of which SQL reads as its own column.
   */
  function SafeSelectList(cols: seq<string>): (r: string)
    ensures cols == [] ==> r == ""
    ensures |cols| == 1 ==> r == SafeColumnFragment(cols[0])
    ensures |cols| > 0 ==> var first := SafeNormalizeColumns(cols)[0];
      |first| <= |r| && r[..|first|] == first
    ensures |cols| > 0 ==> EndsWith(r, SafeNormalizeColumns(cols)[|cols| - 1])
  {
    Join(SafeNormalizeColumns(cols), ", ")
  }

  /** Each further column adds ", " and its own corrected fragment at the end of the corrected select list. */
  lemma SafeSelectListAppend(cols: seq<string>, col: string)
    requires |cols| > 0
    ensures SafeSelectList(cols + [col]) == SafeSelectList(cols) + ", " + SafeColumnFragment(col)
  {
    SafeNormalizeAppend(cols, col);
    JoinAppend(SafeNormalizeColumns(cols), SafeColumnFragment(col), ", ");
  }

  /**
    A name without outer whitespace holding a character that lower-cases to
    neither a letter nor an underscore is not in the table, so it is selected
    as it is.
   */
  lemma OddNamePassesThrough(col: string, m: int)
    requires NoOuterSpace(col) && 0 <= m < |col| && !IsKeyChar(LowerChar(col[m]))
    ensures ColumnFragment(col) == col
  {
    StripOfStripped(col);
    assert Key(col)[m] == LowerChar(col[m]);
    UnknownKey(Key(col), m);
  }

  /** Neither name is in the synonym table, so both are selected as they are. */
  lemma UnknownNamesPassThrough()
    ensures ColumnFragment("Post URL") == "Post URL"
    ensures ColumnFragment("post-url") == "post-url"
  {
    OddNamePassesThrough("Post URL", 4);
    OddNamePassesThrough("post-url", 4);
  }

  /** SQL reads `Post URL` as column `Post` renamed `URL`. */
  lemma SpacedNameMisread()
    ensures ParseItem("Post URL") == Some(SelectItem("Post", Some("URL")))
  {
    assert "Post URL" == "Post" + " " + "URL";
    assert Lower("URL") == "url";
    SpaceMeansAlias("Post", "URL");
  }

  /** SQL does not read `post-url` as a column at all. */
  lemma HyphenedNameRejected()
    ensures ParseItem("post-url") == None
  {
    assert "post-url" == "post" + "-" + "url";
    HyphenIsNoColumn("post", "url");
  }

  /**
    Only spaces and hyphens trigger the quoting, but the key is trimmed of
    every whitespace character: a synonym followed by a tab (or any SQL
    whitespace other than a space) is renamed without quotes, and SQL then
    reads the column named without the tab.
   */
  lemma TrailingWhitespaceMisread(col: string, w: string, c: char)
    requires col == w + [c] && IsBareIdent(w) && IsSqlSpace(c) && c != ' '
    requires Lookup(Key(col)).Some?
    ensures ParseItem(ColumnFragment(col)) == Some(SelectItem(w, Lookup(Key(col))))
    ensures ParseItem(ColumnFragment(col)) != Some(IntendedItem(col))
  {
    var canon := Lookup(Key(col)).value;
    assert ColumnFragment(col) == w + [c] + " AS " + canon && Renamed(col) by {
      TrailingWhitespaceUnquoted(col, w, c);
    }
    assert ParseItem(w + [c] + " AS " + canon) == Some(SelectItem(w, Some(canon))) by {
      LookupGood(Key(col));
      SpaceEndsName(w, c, canon);
    }
    assert |col| != |w|;
  }

  lemma TrailingWhitespaceUnquoted(col: string, w: string, c: char)
    requires col == w + [c] && IsBareIdent(w) && IsSqlSpace(c) && c != ' '
    requires Lookup(Key(col)).Some?
    ensures Renamed(col)
    ensures ColumnFragment(col) == col + " AS " + Lookup(Key(col)).value
  {
    var canon := Lookup(Key(col)).value;
    assert IsBareIdent(canon) by {
      LookupGood(Key(col));
    }
    SpacedNotBare(w, c, canon);
    SpacedUnspaced(w, c);
    UnquotedRename(col, canon);
  }

  /** A name ending in whitespace is no bare identifier. */
  lemma SpacedNotBare(w: string, c: char, canon: string)
    requires IsSqlSpace(c) && IsBareIdent(canon)
    ensures w + [c] != canon
  {
    if |canon| == |w| + 1 {
      assert canon[|w|] != c;
    }
  }

  /** A bare identifier followed by whitespace other than a space holds neither a space nor a hyphen. */
  lemma SpacedUnspaced(w: string, c: char)
    requires IsBareIdent(w) && IsSqlSpace(c) && c != ' '
    ensures ' ' !in w + [c] && '-' !in w + [c]
  {
    BareIdentUnspaced(w);
    assert forall m :: 0 <= m < |w| ==> (w + [c])[m] == w[m];
  }

  /** `Date` followed by a tab is such a name: its key is `date`, a synonym of `post_date`. */
  lemma TabbedDateKey()
    ensures "Date\t" == "Date" + ['\t']
    ensures Lookup(Key("Date\t")) == Some("post_date")
  {
    assert "Date\t" == "Date" + ['\t'];
    assert Key("Date\t") == "date" by {
      assert "Date\t" == "Date" + ['\t'];
      KeyOfTrailingSpace("Date", '\t');
      assert Lower("Date") == "date";
    }
    DateLookup();
  }

  /** Whitespace after a name is dropped from its key. */
  lemma KeyOfTrailingSpace(w: string, c: char)
    requires w != [] && NoOuterSpace(w) && IsSpace(c)
    ensures Key(w + [c]) == Lower(w)
  {
    assert Strip(w + [c]) == w by {
      assert StrippedAt(w + [c], w, 0);
      StripUnique(w + [c], w, 0);
    }
  }

  lemma DateLookup()
    ensures Lookup("date") == Some("post_date")
  {
  }

  /**
    A column outside the synonym table is selected without quotes: a name
    with a space reads a different column under an alias, and a name with a
    hyphen is not a column reference at all.
   */
  lemma UnquotedPassThrough()
    ensures ParseItem(ColumnFragment("Post URL")) == Some(SelectItem("Post", Some("URL")))
    ensures ParseItem(ColumnFragment("Post URL")) != Some(IntendedItem("Post URL"))
    ensures ParseItem(ColumnFragment("post-url")) == None
  {
    UnknownNamesPassThrough();
    SpacedNameMisread();
    HyphenedNameRejected();
  }
}
