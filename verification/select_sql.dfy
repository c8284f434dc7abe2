/**
  A reader for one item of a SQL select list, in the subset of DuckDB's
  syntax that column renaming uses: `<name>`, `<name> AS <alias>` or
  `<name> <alias>`, where a name is a bare identifier or a double-quoted one
  (with `""` standing for one `"` inside the quotes). It is the reference
  against which the select fragments built from CSV column names are checked:
  a fragment is right when this reader gives back the column it was built for.
 */
module SelectSql {
  import opened Nullable
  import opened Text

  /** Characters that separate SQL tokens. */
  predicate IsSqlSpace(c: char) {
    c == ' ' || c == '\t' || c == '\n' || c == '\r' || c as int == 0x0C
  }

  predicate IsIdentStart(c: char) {
    'a' <= c <= 'z' || 'A' <= c <= 'Z' || c == '_'
  }

  predicate IsIdentChar(c: char) {
    IsIdentStart(c) || IsDigit(c)
  }

  /** A name that SQL reads as one identifier without quotes. */
  predicate IsBareIdent(s: string) {
    |s| > 0 && IsIdentStart(s[0]) && forall i :: 0 <= i < |s| ==> IsIdentChar(s[i])
  }

  datatype Token = Word(text: string) | QuotedName(text: string)

  /** One select-list item: the column it reads and the name it is given. */
  datatype SelectItem = SelectItem(column: string, alias: Option<string>)

  /** The number of identifier characters at the start of `s`. */
  function WordLen(s: string): (k: nat)
    ensures k <= |s|
    ensures forall i :: 0 <= i < k ==> IsIdentChar(s[i])
    ensures k == |s| || !IsIdentChar(s[k])
    decreases |s|
  {
    if |s| > 0 && IsIdentChar(s[0]) then 1 + WordLen(s[1..]) else 0
  }

  /** `s` with every `"` doubled, as inside a quoted identifier. */
  function Escape(s: string): string
    decreases |s|
  {
    if |s| == 0 then []
    else (if s[0] == '"' then "\"\"" else [s[0]]) + Escape(s[1..])
  }

  /** `s` written as a double-quoted identifier. */
  function QuoteIdent(s: string): string {
    "\"" + Escape(s) + "\""
  }

  /**
    Reads the rest of a quoted identifier whose opening quote is already
    consumed: the name, and how many characters were read up to and
    including the closing quote; None when the quote is never closed.
   */
  function ReadQuoted(s: string): (r: Option<(string, nat)>)
    ensures r.Some? ==> 1 <= r.value.1 <= |s|
    decreases |s|
  {
    if |s| == 0 then None
    else if s[0] == '"' then
      if |s| >= 2 && s[1] == '"' then
        match ReadQuoted(s[2..])
        case None => None
        case Some(q) => Some(("\"" + q.0, q.1 + 2))
      else Some(("", 1))
    else
      match ReadQuoted(s[1..])
      case None => None
      case Some(q) => Some(([s[0]] + q.0, q.1 + 1))
  }

  function Cons(t: Token, rest: Option<seq<Token>>): Option<seq<Token>> {
    match rest
    case None => None
    case Some(ts) => Some([t] + ts)
  }

  /**
    Splits a select item into tokens; None when it holds anything other than
    identifiers and whitespace (an operator such as `-`, an unclosed quote, ...).
   */
  function Lex(s: string): Option<seq<Token>>
    decreases |s|
  {
    if |s| == 0 then Some([])
    else if IsSqlSpace(s[0]) then Lex(s[1..])
    else if s[0] == '"' then
      match ReadQuoted(s[1..])
      case None => None
      case Some(q) => Cons(QuotedName(q.0), Lex(s[1 + q.1..]))
    else if IsIdentStart(s[0]) then
      var k := WordLen(s);
      Cons(Word(s[..k]), Lex(s[k..]))
    else None
  }

  predicate IsAs(t: Token) {
    t.Word? && Lower(t.text) == "as"
  }

  /** What a select item reads and how it names it; None when it is not a plain column reference. */
  function ParseItem(s: string): Option<SelectItem> {
    match Lex(s)
    case None => None
    case Some(ts) =>
      if |ts| == 1 && !IsAs(ts[0]) then Some(SelectItem(ts[0].text, None))
      else if |ts| == 2 && !IsAs(ts[1]) then Some(SelectItem(ts[0].text, Some(ts[1].text)))
      else if |ts| == 3 && IsAs(ts[1]) then Some(SelectItem(ts[0].text, Some(ts[2].text)))
      else None
  }

  /** The reader undoes the escaping of a quoted identifier. */
  lemma {:induction false} ReadQuotedEscape(x: string, rest: string)
    requires rest == [] || rest[0] != '"'
    ensures ReadQuoted(Escape(x) + "\"" + rest) == Some((x, |Escape(x)| + 1))
    decreases |x|
  {
    var s := Escape(x) + "\"" + rest;
    if |x| == 0 {
      assert s == "\"" + rest;
    } else if x[0] == '"' {
      assert s == "\"\"" + (Escape(x[1..]) + "\"" + rest);
      assert s[2..] == Escape(x[1..]) + "\"" + rest;
      ReadQuotedEscape(x[1..], rest);
      assert "\"" + x[1..] == x;
    } else {
      assert s == [x[0]] + (Escape(x[1..]) + "\"" + rest);
      assert s[1..] == Escape(x[1..]) + "\"" + rest;
      ReadQuotedEscape(x[1..], rest);
      assert [x[0]] + x[1..] == x;
    }
  }

  /** A quoted identifier followed by anything but a quote lexes to that name. */
  lemma LexQuoted(x: string, rest: string)
    requires rest == [] || rest[0] != '"'
    ensures Lex(QuoteIdent(x) + rest) == Cons(QuotedName(x), Lex(rest))
  {
    var s := QuoteIdent(x) + rest;
    assert s[1..] == Escape(x) + "\"" + rest;
    ReadQuotedEscape(x, rest);
    assert s[1 + |Escape(x)| + 1..] == rest;
  }

  /** A bare identifier followed by a non-identifier character lexes to one word. */
  lemma LexWord(w: string, rest: string)
    requires IsBareIdent(w)
    requires rest == [] || !IsIdentChar(rest[0])
    ensures Lex(w + rest) == Cons(Word(w), Lex(rest))
  {
    var s := w + rest;
    WordLenOf(w, rest);
    assert s[..|w|] == w && s[|w|..] == rest;
  }

  lemma {:induction false} WordLenOf(w: string, rest: string)
    requires forall i :: 0 <= i < |w| ==> IsIdentChar(w[i])
    requires rest == [] || !IsIdentChar(rest[0])
    ensures WordLen(w + rest) == |w|
    decreases |w|
  {
    if |w| > 0 {
      assert (w + rest)[1..] == w[1..] + rest;
      WordLenOf(w[1..], rest);
    } else {
      assert w + rest == rest;
    }
  }

  /** ` AS <alias>` lexes to the keyword and the alias. */
  lemma LexAsAlias(alias: string)
    requires IsBareIdent(alias)
    ensures Lex(" AS " + alias) == Some([Word("AS"), Word(alias)])
  {
    var s := " AS " + alias;
    assert s[1..] == "AS" + (" " + alias);
    assert Lex(s) == Lex("AS" + (" " + alias));
    assert IsBareIdent("AS");
    LexWord("AS", " " + alias);
    assert (" " + alias)[1..] == alias;
    assert Lex(" " + alias) == Lex(alias);
    LexWord(alias, "");
    assert alias + "" == alias;
    assert Lex("") == Some([]);
    assert [Word(alias)] + [] == [Word(alias)];
    assert Lex(alias) == Some([Word(alias)]);
    assert Lex("AS" + (" " + alias)) == Cons(Word("AS"), Some([Word(alias)]));
    assert [Word("AS")] + [Word(alias)] == [Word("AS"), Word(alias)];
  }

  /** `"x"` reads column `x`, whatever characters `x` holds. */
  lemma QuotedItem(x: string)
    ensures ParseItem(QuoteIdent(x)) == Some(SelectItem(x, None))
  {
    LexQuoted(x, "");
    assert QuoteIdent(x) + "" == QuoteIdent(x);
  }

  /** `"x" AS a` reads column `x` under the name `a`. */
  lemma QuotedAliasItem(x: string, alias: string)
    requires IsBareIdent(alias)
    ensures ParseItem(QuoteIdent(x) + " AS " + alias) == Some(SelectItem(x, Some(alias)))
  {
    LexQuotedAlias(x, alias);
    assert Lower("AS") == "as";
  }

  lemma LexQuotedAlias(x: string, alias: string)
    requires IsBareIdent(alias)
    ensures Lex(QuoteIdent(x) + " AS " + alias) == Some([QuotedName(x), Word("AS"), Word(alias)])
  {
    LexQuoted(x, " AS " + alias);
    LexAsAlias(alias);
    assert QuoteIdent(x) + " AS " + alias == QuoteIdent(x) + (" AS " + alias);
    assert [QuotedName(x)] + [Word("AS"), Word(alias)] == [QuotedName(x), Word("AS"), Word(alias)];
  }

  /** `w` reads column `w` when `w` is a bare identifier. */
  lemma BareItem(w: string)
    requires IsBareIdent(w) && Lower(w) != "as"
    ensures ParseItem(w) == Some(SelectItem(w, None))
  {
    LexWord(w, "");
    assert w + "" == w;
  }

  /** `w AS a` reads column `w` under the name `a` when both are bare identifiers. */
  lemma BareAliasItem(w: string, alias: string)
    requires IsBareIdent(w) && IsBareIdent(alias)
    ensures ParseItem(w + " AS " + alias) == Some(SelectItem(w, Some(alias)))
  {
    LexBareAlias(w, alias);
    assert Lower("AS") == "as";
  }

  lemma LexBareAlias(w: string, alias: string)
    requires IsBareIdent(w) && IsBareIdent(alias)
    ensures Lex(w + " AS " + alias) == Some([Word(w), Word("AS"), Word(alias)])
  {
    LexWord(w, " AS " + alias);
    LexAsAlias(alias);
    assert w + " AS " + alias == w + (" AS " + alias);
    assert [Word(w)] + [Word("AS"), Word(alias)] == [Word(w), Word("AS"), Word(alias)];
  }

  /** An unquoted identifier holds neither a space nor a hyphen. */
  lemma BareIdentUnspaced(w: string)
    requires IsBareIdent(w)
    ensures ' ' !in w && '-' !in w
  {
    assert forall m :: 0 <= m < |w| ==> IsIdentChar(w[m]);
  }

  /** Whitespace after an unquoted name ends it: the name read is the identifier before it. */
  lemma SpaceEndsName(w: string, c: char, alias: string)
    requires IsBareIdent(w) && IsBareIdent(alias) && IsSqlSpace(c)
    ensures ParseItem(w + [c] + " AS " + alias) == Some(SelectItem(w, Some(alias)))
  {
    LexSpacedAlias(w, c, alias);
    assert Lower("AS") == "as";
  }

  lemma LexSpacedAlias(w: string, c: char, alias: string)
    requires IsBareIdent(w) && IsBareIdent(alias) && IsSqlSpace(c)
    ensures Lex(w + [c] + " AS " + alias) == Some([Word(w), Word("AS"), Word(alias)])
  {
    var tail := " AS " + alias;
    assert w + [c] + " AS " + alias == w + ([c] + tail);
    LexWord(w, [c] + tail);
    LexSpace(c, tail);
    LexAsAlias(alias);
    assert [Word(w)] + [Word("AS"), Word(alias)] == [Word(w), Word("AS"), Word(alias)];
  }

  lemma LexSpace(c: char, rest: string)
    requires IsSqlSpace(c)
    ensures Lex([c] + rest) == Lex(rest)
  {
    assert ([c] + rest)[1..] == rest;
  }

  /** Two identifiers separated by a space read as a column and its alias. */
  lemma SpaceMeansAlias(w: string, alias: string)
    requires IsBareIdent(w) && IsBareIdent(alias) && Lower(alias) != "as"
    ensures ParseItem(w + " " + alias) == Some(SelectItem(w, Some(alias)))
  {
    LexWord(w, " " + alias);
    assert (" " + alias)[1..] == alias;
    assert Lex(" " + alias) == Lex(alias);
    LexWord(alias, "");
    assert alias + "" == alias;
    assert Lex("") == Some([]);
    assert w + " " + alias == w + (" " + alias);
  }

  /** An identifier followed by a hyphen is not a column reference: the minus sign is an operator. */
  lemma HyphenIsNoColumn(w: string, rest: string)
    requires IsBareIdent(w)
    ensures ParseItem(w + "-" + rest) == None
  {
    LexWord(w, "-" + rest);
    assert w + "-" + rest == w + ("-" + rest);
  }
}
