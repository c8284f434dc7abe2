/**
  The per-row part of the extractor: each CSV row (after column renaming and
  the published filter) gets a numeric id, the body text of the first HTML
  file indexed under that id, and the text that is embedded for it.
 */
module Extract {
  import opened Nullable
  import opened Text
  import opened HtmlIndex
  import opened HtmlText

  /**
    A row of the normalised view. `postId` is None only for a NULL value:
    without a `post_id` column the view that adds `numeric_id` cannot be
    created, so no row exists. The other fields are None when the value is
    NULL or the CSV has no such column (`row.get` falls back to "").
   */
  datatype Row = Row(postId: Option<string>, title: Option<string>, subTitle: Option<string>, postDate: Option<string>)

  /** The record written for one post, without its embedding vector. */
  datatype Post = Post(
    postId: string,
    title: string,
    subTitle: string,
    postDate: string,
    blogText: string,
    embeddingInput: string)

  /** `str(row.get(name, "") or "")` for a text field. */
  function Field(v: Option<string>): (r: string)
    ensures v.None? ==> r == ""
    ensures v.Some? ==> r == v.value
  {
    ValueOr(v, "")
  }

  /**
    The `numeric_id` column: `regexp_extract(post_id, '^(\d+)', 1)`, which is
    the leading digits of the id ("" when it does not start with a digit)
    and NULL when the id is NULL.
   */
  function NumericId(postId: Option<string>): (r: Option<string>)
    ensures r.None? <==> postId.None?
    ensures r.Some? ==> |r.value| <= |postId.value| && r.value == postId.value[..|r.value|]
    ensures r.Some? ==> AllDigits(r.value)
    ensures r.Some? ==> |r.value| == |postId.value| || !IsDigit(postId.value[|r.value|])
  {
    match postId
    case None => None
    case Some(p) => Some(LeadingDigits(p))
  }

  /** The index is consulted: the id is present, non-empty and a key (`nid and nid in html_index`). */
  predicate IndexHit(nid: Option<string>, index: Index) {
    nid.Some? && nid.value != "" && nid.value in index
  }

  /**
    The body text of a post. `extract` stands for reading the file and
    taking the visible text of its main element (None when that raises);
    `html_to_text` then collapses newlines and strips the result.
   */
  function BlogText(nid: Option<string>, index: Index, extract: HtmlFile -> Option<string>): (r: string)
    ensures !IndexHit(nid, index) ==> r == ""
    ensures IndexHit(nid, index) && extract(index[nid.value]).None? ==> r == ""
    ensures IndexHit(nid, index) && extract(index[nid.value]).Some? ==>
      r == CleanText(extract(index[nid.value]).value)
    ensures NoTripleNewline(r) && NoOuterSpace(r)
  {
    if IndexHit(nid, index) then
      match extract(index[nid.value])
      case Some(visible) => CleanText(visible)
      case None => ""
    else ""
  }

  /** Every character of `a + b` is whitespace exactly when every character of both is. */
  lemma AllSpaceConcat(a: string, b: string)
    ensures AllSpace(a + b) <==> AllSpace(a) && AllSpace(b)
  {
    var s := a + b;
    assert forall k :: 0 <= k < |a| ==> s[k] == a[k];
    assert forall k :: 0 <= k < |b| ==> s[|a| + k] == b[k];
  }

  /**
    The embedding input `f"{title} {subtitle} {blog_text}".strip()`: the
    three texts separated by single spaces and stripped; it is empty
    exactly when all three are whitespace only.
   */
  function CombinedText(title: string, subTitle: string, blogText: string): (r: string)
    ensures NoOuterSpace(r)
    ensures exists i :: StrippedAt(title + " " + subTitle + " " + blogText, r, i)
    ensures r == "" <==> AllSpace(title) && AllSpace(subTitle) && AllSpace(blogText)
  {
    var joined := title + " " + subTitle + " " + blogText;
    StripEmptyIff(joined);
    AllSpaceConcat(title + " " + subTitle + " ", blogText);
    AllSpaceConcat(title + " " + subTitle, " ");
    AllSpaceConcat(title + " ", subTitle);
    AllSpaceConcat(title, " ");
    Strip(joined)
  }

  /** Texts without outer whitespace are embedded exactly as the three of them, space separated. */
  lemma CombinedTextOfCleanParts(title: string, subTitle: string, blogText: string)
    requires title != [] && subTitle != [] && blogText != []
    requires NoOuterSpace(title) && NoOuterSpace(subTitle) && NoOuterSpace(blogText)
    ensures CombinedText(title, subTitle, blogText) == title + " " + subTitle + " " + blogText
  {
    var joined := title + " " + subTitle + " " + blogText;
    assert joined[0] == title[0] && joined[|joined| - 1] == blogText[|blogText| - 1];
    StripOfStripped(joined);
  }

  /** A row with neither title nor subtitle embeds its body text as it is. */
  lemma CombinedTextOfBodyOnly(blogText: string)
    requires NoOuterSpace(blogText)
    ensures CombinedText("", "", blogText) == blogText
  {
    var joined := "" + " " + "" + " " + blogText;
    assert StrippedAt(joined, blogText, 2);
    StripUnique(joined, blogText, 2);
  }

  /** One row of the extractor's two loops over `data`. */
  function ExtractPost(row: Row, index: Index, extract: HtmlFile -> Option<string>): (p: Post)
    ensures p.postId == Field(row.postId) && p.title == Field(row.title)
    ensures p.subTitle == Field(row.subTitle) && p.postDate == Field(row.postDate)
    ensures p.blogText == BlogText(NumericId(row.postId), index, extract)
    ensures p.embeddingInput == CombinedText(Field(row.title), Field(row.subTitle), p.blogText)
  {
    var text := BlogText(NumericId(row.postId), index, extract);
    Post(Field(row.postId), Field(row.title), Field(row.subTitle), Field(row.postDate),
         text, CombinedText(Field(row.title), Field(row.subTitle), text))
  }

  function ExtractRows(rows: seq<Row>, index: Index, extract: HtmlFile -> Option<string>): (posts: seq<Post>)
    ensures |posts| == |rows|
    ensures forall k :: 0 <= k < |rows| ==> posts[k] == ExtractPost(rows[k], index, extract)
    decreases |rows|
  {
    if |rows| == 0 then []
    else [ExtractPost(rows[0], index, extract)] + ExtractRows(rows[1..], index, extract)
  }

  /**
    The extractor from the filtered rows and the HTML files in traversal
    order: one post per row, in row order.
   */
  function ExtractPosts(rows: seq<Row>, files: seq<HtmlFile>, extract: HtmlFile -> Option<string>): (posts: seq<Post>)
    ensures |posts| == |rows|
    ensures forall k :: 0 <= k < |rows| ==> posts[k].postId == Field(rows[k].postId)
    ensures forall k :: 0 <= k < |rows| ==> posts[k] == ExtractPost(rows[k], BuildIndex(files), extract)
  {
    ExtractRows(rows, BuildIndex(files), extract)
  }

  /**
    A post whose id starts with the digits `d` gets its body from the first
    file, in traversal order, whose name holds `d` as a maximal digit run.
   */
  lemma PostTextFromFirstFile(rows: seq<Row>, files: seq<HtmlFile>, extract: HtmlFile -> Option<string>, k: int, i: int)
    requires 0 <= k < |rows| && rows[k].postId.Some?
    requires LeadingDigits(rows[k].postId.value) != ""
    requires FirstOccurrence(files, LeadingDigits(rows[k].postId.value), i)
    ensures ExtractPosts(rows, files, extract)[k].blogText
         == match extract(files[i]) case Some(v) => CleanText(v) case None => ""
  {
  }

  /**
    A post whose id is NULL, does not start with a digit, or has digits no
    file name holds gets an empty body and embeds its title and subtitle only.
   */
  lemma PostWithoutFileHasNoText(rows: seq<Row>, files: seq<HtmlFile>, extract: HtmlFile -> Option<string>, k: int)
    requires 0 <= k < |rows|
    requires rows[k].postId.None? || !OccursIn(files, LeadingDigits(rows[k].postId.value))
    ensures ExtractPosts(rows, files, extract)[k].blogText == ""
    ensures ExtractPosts(rows, files, extract)[k].embeddingInput
         == CombinedText(Field(rows[k].title), Field(rows[k].subTitle), "")
  {
  }
}
