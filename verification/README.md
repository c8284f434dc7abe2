# Blog-post embeddings and chat: a Dafny model

The repository is a small retrieval pipeline over a blog's posts.

`extract_post_data.py` does three things:
- It reads a CSV export of the posts and renames its columns to canonical names (`post_id`, `title`, `sub_title`, `post_date`, `is_published`).
- It finds each post's HTML file by the numeric id at the start of its `post_id`, and turns the page into plain text.
- It embeds `"title subtitle body"` for each post and writes the posts to a Lance dataset.

`chat.py` is a console loop. It reads a question, retrieves the five nearest posts, and builds a prompt from their titles and bodies. It prints the model's answer and the first three posts as sources.

This project models the pure logic inside that glue. Everything the scripts hand to a library is a parameter of the model: file listing and reading, HTML parsing, SQL execution, embeddings, vector search and the language model.

| file | module | what it models |
|---|---|---|
| `text.dfy` | `Nullable`, `Text` | Python `None` as an option type, and the `str` operations the scripts use: `strip()` with Python's whitespace set, ASCII `lower()`, `join`, `s[:n]`, and the leading-digit match `^\d+` |
| `html_index.dfy` | `HtmlIndex` | `build_html_index`: `re.findall(r"\d+")` as maximal digit runs, and the first-file-wins map |
| `html_text.dfy` | `HtmlText` | the last step of `html_to_text`: `\n{3,}` becomes `\n\n`, then the text is stripped |
| `select_sql.dfy` | `SelectSql` | a reader for one SQL select item (`name`, `name AS alias`, `name alias`, with `"…"` quoting). It is the reference the column fragments are checked against |
| `columns.dfy` | `Columns` | the `col_map` table and the `select_parts` loop that renames columns |
| `extract.dfy` | `Extract` | the per-row part of the extractor: numeric id, guarded index lookup, body text, embedding input |
| `chat.dfy` | `Chat` | one pass of the chat loop: classification, context parts, prompt, sources, and the session over the typed lines |

Strings are `seq<char>`. Retrieval is a function `string -> seq<Hit>` that stands for embedding the question and searching the table. The model is a function `string -> string`. Reading and parsing an HTML file is a function `HtmlFile -> Option<string>`, which gives the visible text of the page, or None when reading raises.

## Model

| member | source | states |
|---|---|---|
| Text.Strip | extract_post_data.py:83 | `strip()` gives text with no whitespace at either end that sits inside the input with only whitespace before and after it |
| Text.StripUnique | extract_post_data.py:83 | any text with no outer whitespace that sits inside `s` between whitespace is `Strip(s)`, so the contract of `Strip` determines it |
| Text.StripIdempotent | chat.py:38 | stripping twice is stripping once |
| Text.StripOfStripped | extract_post_data.py:38 | text with no whitespace at either end is left unchanged by `strip()` |
| Text.StripEmptyIff | extract_post_data.py:143-144 | `strip()` gives "" exactly for whitespace-only text |
| Text.Lower | extract_post_data.py:83 | `lower()` keeps the length and lower-cases each character on its own: `A`-`Z` become `a`-`z`, everything else is kept |
| Text.LowerShape | chat.py:40 | a lower-cased text holds no upper-case letter, and lower-casing keeps a text free of outer whitespace |
| Text.Join | extract_post_data.py:94 | `sep.join(parts)` is "" for no parts and the part itself for one part; longer lists start with the first part and end with the last. With `Text.JoinAppend` this fixes the join of every list |
| Text.JoinAppend | extract_post_data.py:94 | `sep.join(parts + [x])` is `sep.join(parts) + sep + x` for non-empty `parts` |
| Text.Take | chat.py:61 | `s[:n]` is the prefix of `s` of length `min(n, len(s))` |
| Text.LeadingDigits | extract_post_data.py:110 | the match of `^(\d+)` (or "") is the longest all-digit prefix: it is a prefix, all digits, and followed by a non-digit or the end |
| HtmlIndex.DigitRuns | extract_post_data.py:21 | every string `re.findall(r"\d+", name)` returns is a non-empty run of digits |
| HtmlIndex.DigitRunsSound | extract_post_data.py:21 | every string `re.findall(r"\d+", name)` returns is a maximal digit run of the name |
| HtmlIndex.DigitRunsComplete | extract_post_data.py:21 | every maximal digit run of the name is among the strings returned |
| HtmlIndex.DigitRunsExactly | extract_post_data.py:21 | `d` is returned exactly when it is a maximal digit run of the name |
| HtmlIndex.AddRuns | extract_post_data.py:22-24 | the inner loop adds every run of the file as a key, keeps every existing entry, and maps each new key to this file |
| HtmlIndex.IndexFiles | extract_post_data.py:20-24 | the outer loop from a partial index: keys are the old keys plus the runs that occur, old entries are kept, and each new key maps to the first file holding it |
| HtmlIndex.BuildIndex | extract_post_data.py:18-25 | the keys are exactly the runs occurring in the names, and each maps to the first file, in traversal order, whose name holds it |
| HtmlIndex.IndexKeysAreMaximalRuns | extract_post_data.py:18-25 | `d` is a key exactly when it is a maximal digit run of some file name |
| HtmlIndex.IndexFilesAppend | extract_post_data.py:20-24 | indexing `files + more` is indexing `files` and then continuing with `more` |
| HtmlIndex.LaterFilesNeverOverwrite | extract_post_data.py:23-24 | files found later never change an existing entry |
| HtmlText.Collapse | extract_post_data.py:38 | after `re.sub(r"\n{3,}", "\n\n", …)` there are no three newlines in a row, the text is no longer, and its first character is kept |
| HtmlText.CollapseKeepsText | extract_post_data.py:38 | the substitution removes newlines only: every other character survives, in order |
| HtmlText.CollapseKeepsShortRuns | extract_post_data.py:38 | text whose newline runs are at most two long is unchanged |
| HtmlText.CollapseFixpoint | extract_post_data.py:38 | the substitution changes the text exactly when it holds three newlines in a row |
| HtmlText.CollapseIdempotent | extract_post_data.py:38 | applying the substitution twice is applying it once |
| HtmlText.CollapseConcat | extract_post_data.py:38 | a text cut after a character other than a newline is collapsed piece by piece: no match of `\n{3,}` spans the cut |
| HtmlText.CollapseRun | extract_post_data.py:38 | each maximal run of `k` newlines is replaced in place, whatever surrounds it: by two newlines when `k >= 3`, by itself otherwise |
| HtmlText.CollapseTripleBetweenLetters | extract_post_data.py:38 | `a\n\n\nb` becomes `a\n\nb` |
| HtmlText.StripKeepsNoTriple | extract_post_data.py:38 | stripping cannot create three newlines in a row |
| HtmlText.CleanText | extract_post_data.py:38 | the text `html_to_text` returns is the collapsed text with exactly its outer whitespace removed; it has no three newlines in a row and is no longer than its input |
| HtmlText.CleanTextKeepsCleanText | extract_post_data.py:38 | text that is already clean passes through unchanged |
| Columns.LookupInHit | extract_post_data.py:84-85 | a hit in the table is the value of the first entry with that key |
| Columns.LookupInMiss | extract_post_data.py:84 | a miss means that no entry has the key |
| Columns.ColMapSets | extract_post_data.py:70-79 | the eight lookup keys and the five canonical names are the key set and the value set of `col_map` |
| Columns.Key | extract_post_data.py:83 | the lookup key `col.strip().lower()` has no outer whitespace, no upper-case letter, and is no longer than the column name |
| Columns.KeyIdempotent | extract_post_data.py:83 | a key is its own key |
| Columns.Lookup | extract_post_data.py:84-85 | `col_map` has an entry exactly for the eight synonyms, and every entry is one of the five canonical names |
| Columns.LookupGood | extract_post_data.py:70-79 | every canonical name is a lower-case bare identifier, found under a lower-case key, and maps to itself |
| Columns.UnknownKey | extract_post_data.py:84 | a key holding anything but lower-case letters and underscores is not in the table |
| Columns.Fragment | extract_post_data.py:84-92 | the fragment is the column as it is when there is no canonical name or the name is already canonical; otherwise it ends in ` AS <canonical>` and is longer than the column name |
| Columns.ColumnFragment | extract_post_data.py:82-92 | a column that is not renamed passes through unchanged; a renamed one ends in ` AS <canonical>` |
| Columns.NormalizeColumns | extract_post_data.py:81-92 | exactly one fragment per column, in column order |
| Columns.SelectList | extract_post_data.py:94 | the select list is "" for no columns and the fragment itself for one column; longer lists start with the first column's fragment and end with the last one's |
| Columns.SelectListAppend | extract_post_data.py:94 | each further column adds `, ` and its own fragment at the end of the select list |
| Columns.RecognizedChars | extract_post_data.py:83-84 | a column whose trimmed, lower-cased name is in the table holds only whitespace, letters and underscores |
| Columns.RenamedQuotedIff | extract_post_data.py:87 | a renamed column is written in double quotes exactly when it holds a space or a hyphen |
| Columns.FragmentReadsColumn | extract_post_data.py:83-92 | SQL reads the fragment as the right column under the right name when the name is a bare identifier, or when it is renamed and holds a space or a hyphen |
| Columns.QuotedRenameFragment | extract_post_data.py:87-88 | a quoted renamed column needs no `""` escaping: the fragment is the quoted name, `AS`, and the canonical name |
| Columns.QuotedRename | extract_post_data.py:86-88 | a renamed column holding a space or a hyphen gives `"col" AS canonical` |
| Columns.UnquotedRename | extract_post_data.py:86-88 | a renamed column holding neither gives `col AS canonical`, unquoted |
| Columns.CanonicalKey | extract_post_data.py:70-79 | a canonical name is its own lookup key |
| Columns.NormalizeIdempotent | extract_post_data.py:81-92 | feeding the normalised names back in selects every column as it is |
| Columns.OddNamePassesThrough | extract_post_data.py:91-92 | a name with a character that lower-cases to neither a letter nor an underscore is selected as it is |
| Columns.UnquotedPassThrough | extract_post_data.py:91-92 | as written: `Post URL` is selected as column `Post` named `URL`, and `post-url` is no column reference at all |
| Columns.TrailingWhitespaceUnquoted | extract_post_data.py:83-88 | a synonym made of a bare identifier followed by one tab, line feed, carriage return or form feed is renamed but written unquoted |
| Columns.TrailingWhitespaceMisread | extract_post_data.py:83-88 | as written: such a column is read as the column without its trailing whitespace, not as the column itself |
| Columns.TabbedDateKey | extract_post_data.py:83-85 | `Date\t` is `Date` followed by a tab and is looked up as `post_date` |
| Columns.SafeColumnFragment | extract_post_data.py:87-92 | corrected: every fragment starts with a double quote |
| Columns.SafeFragmentReadsColumn | extract_post_data.py:87-92 | corrected: for every column name, SQL reads the fragment as that column, renamed exactly when it is a synonym |
| Columns.SafeNormalizeColumns | extract_post_data.py:81-92 | corrected loop: one fragment per column, in column order, each read by SQL as its own column under its normalised name |
| Columns.SafeSelectList | extract_post_data.py:94 | corrected select list: "" for no columns and the safe fragment itself for one column; longer lists start with the first safe fragment and end with the last |
| Columns.SafeSelectListAppend | extract_post_data.py:94 | corrected select list: each further column adds `, ` and its own quoted fragment at the end, so with the empty and one-column cases the list is fixed |
| SelectSql.ReadQuotedEscape | extract_post_data.py:87 | reading a quoted identifier undoes the quoting, whatever characters the name holds |
| SelectSql.SpaceMeansAlias | extract_post_data.py:92 | two identifiers separated by a space read as a column and its alias |
| SelectSql.HyphenIsNoColumn | extract_post_data.py:92 | an identifier followed by a hyphen is not a column reference |
| SelectSql.SpaceEndsName | extract_post_data.py:88 | an unquoted name, a whitespace character, `AS` and an alias read as that name under the alias: the whitespace ends the name |
| Extract.NumericId | extract_post_data.py:110 | the numeric id is NULL exactly when `post_id` is NULL; otherwise it is the longest all-digit prefix of `post_id` |
| Extract.Field | extract_post_data.py:140-141 | `str(row.get(name, "") or "")` is "" for a NULL or missing field and the text itself otherwise |
| Extract.BlogText | extract_post_data.py:126-136 | the body is "" unless the id is non-empty and a key of the index; it is "" when reading raises and otherwise the cleaned page text; it never has three newlines in a row or outer whitespace |
| Extract.CombinedText | extract_post_data.py:140-144 | the embedding input has no outer whitespace, sits inside `title + " " + subtitle + " " + body` between whitespace only, and is "" exactly when all three are whitespace only |
| Extract.CombinedTextOfCleanParts | extract_post_data.py:143 | three non-empty texts without outer whitespace are embedded exactly as `title + " " + subtitle + " " + body` |
| Extract.CombinedTextOfBodyOnly | extract_post_data.py:140-143 | a row without title and subtitle embeds its clean body unchanged |
| Extract.ExtractRows | extract_post_data.py:125-144 | one post per row, in row order |
| Extract.ExtractPost | extract_post_data.py:125-155 | a post carries its row's id, title, subtitle and date fields, the body found through its numeric id, and the combined text of title, subtitle and body |
| Extract.ExtractPosts | extract_post_data.py:119-155 | one post per filtered row, in row order, each built from its row with the index of the files |
| Extract.PostTextFromFirstFile | extract_post_data.py:119-136 | a post whose id starts with the digits `d` gets its body from the first file, in traversal order, whose name holds the run `d` |
| Extract.PostWithoutFileHasNoText | extract_post_data.py:126-144 | a post with a NULL id, or whose leading digits occur in no file name, gets an empty body and embeds its title and subtitle only |
| Chat.Classify | chat.py:38-45 | a line quits exactly when its stripped, lower-cased form is `quit`, `exit` or `q`; it is skipped exactly when it is whitespace only; otherwise the question is the stripped line, non-empty and without outer whitespace |
| Chat.ClassifyStable | chat.py:38-45 | classifying the question again gives the same question |
| Chat.ContextPart | chat.py:61 | the part is `Title: `, the title, `\nContent: `, and the first `min(1000, len(body))` characters of the body |
| Chat.ShortBodyKeptWhole | chat.py:61 | a body of at most 1000 characters ends its context part in full |
| Chat.ContextParts | chat.py:56-62 | one context part per retrieved row, in retrieval order |
| Chat.Context | chat.py:64 | the context is "" when nothing was retrieved and the row's part alone for one row; for more rows it starts with the first row's part and ends with the last row's |
| Chat.ContextAppend | chat.py:64 | each further row adds the delimiter and its own part at the end of the context |
| Chat.ContextEmptyIff | chat.py:64 | the context is empty exactly when nothing was retrieved |
| Chat.Prompt | chat.py:66 | the prompt is the system prompt, `\n\nContext:\n`, the context, `\n\nQuestion: `, the question and `\n\nAnswer:`, each label at its stated offset and the whole as long as its pieces together |
| Chat.PromptRoundTrip | chat.py:66 | the context and the question can be read back from the prompt |
| Chat.PromptInjective | chat.py:66 | prompts whose contexts have the same length are equal only for the same context and question |
| Chat.SourceLines | chat.py:74-75 | the printed sources are the first `min(3, n)` retrieved rows, numbered from 1 in retrieval order |
| Chat.SourceLine | chat.py:75 | the source line `  {i}. {title} (post_id: {id})` holds two spaces, the digit, `. `, the title, ` (post_id: `, the id and `)` in that order |
| Chat.FewSourcesAllShown | chat.py:74-75 | at most three retrieved rows are all listed |
| Chat.Respond | chat.py:40-75 | a quit stops the loop, a blank line continues it, and a question is answered from the prompt built from the first five retrieved rows, with at most three sources |
| Chat.Turn | chat.py:38-75 | one pass stops exactly on a quit word and continues exactly on a blank line; otherwise its prompt is built from the stripped line and the context of its first five hits, and its answer is the model's reply to that prompt |
| Chat.NoServiceCallWithoutQuestion | chat.py:38-51 | for a quit word or a blank line the outcome does not depend on retrieval or on the model |
| Chat.AnswerSources | chat.py:51-75 | the sources printed after an answer are the first retrieved rows, at most three, numbered from 1 |
| Chat.Run | chat.py:36-45 | every classified line is handled in turn, and only the last one handled can be a quit |
| Chat.RunWithoutQuit | chat.py:36-45 | without a quit every line is handled |
| Chat.RunEndsAtFirstQuit | chat.py:40-42 | the loop ends with the first quit, and the lines after it are never read |
| Chat.Session | chat.py:36-45 | the session handles the typed lines in turn, up to and including the first quit word |
| Chat.SessionEndsAtFirstQuit | chat.py:40-42 | the session handles exactly the lines up to the first quit word |
| Chat.SessionWithoutQuit | chat.py:36-45 | a session without a quit word handles every line |

## Left out

- File listing (`iter_html_files`, `rglob` over `*.html` and `*.htm`) is left out because it is I/O. The index is built from a given sequence of files in traversal order.
- File reading and HTML parsing are left out. This covers the UTF-8 strict-then-replace decoding, the removal of script, style and noscript tags, and the choice of `article`, `main` or `body` (extract_post_data.py:29-36, 42-47). These are I/O and a foreign library. They are the parameter `extract`, which returns the visible text, or None when reading raises.
- DuckDB is left out because it is an external engine. This covers loading the CSV with type detection, `DESCRIBE`, the published filter with SQL NULL semantics (extract_post_data.py:96-104), and `COPY … (FORMAT lance)`. The rows given to `Extract.ExtractPosts` are the rows that pass the filter, with text fields.
- SelectSql is a small reader of DuckDB's select-item syntax, not DuckDB's parser. Identifier case-insensitivity, keywords other than `AS`, and non-ASCII identifier characters are left out.
- Embeddings, the float32 vectors, vector search and the language-model call are left out because they are external models and floating point (extract_post_data.py:123, 146-150; chat.py:22-29, 49-51, 68-69). The vectors are not part of `Extract.Post`, and the chat takes search and model as functions. Nothing is printed.
- Text.Lower: lower-cases ASCII letters only. This is exact for comparing against the synonym keys and the quit words. The only non-ASCII character that Python lower-cases to ASCII is KELVIN SIGN, which gives `k`, and no key or quit word holds a `k`.
- HtmlIndex.DigitRuns: `\d` is ASCII `0`-`9`, whereas Python's `re` also matches other Unicode decimal digits. DuckDB's `regexp_extract` uses ASCII `\d`, so `Extract.NumericId` is exact.
- Extract.Field: only text values are modelled. `str()` of a typed value (an integer id, a date, a boolean), and the falsiness of `0` or `False` under `or ""`, are left out.
- Extract.BlogText: a `post_id` that DuckDB typed as a number is not modelled. The `numeric_id` column always exists, because the view at extract_post_data.py:106-112 adds it; it is NULL exactly when `post_id` is NULL, which `Extract.NumericId` states.
- Chat.Hit: the `'Unknown'` and `''` defaults of `row.get` are left out. The stored table always has these columns, and the extractor never stores NULL in them.
- Chat.Session: the loop ends when the typed lines run out. In Python, `input()` at end of input raises `EOFError`, the catch-all handler prints it, and the loop asks again forever. The catch-all handler is left out, and so is that behaviour.
- The API-key prompt, `KeyboardInterrupt`, the catch-all exception printing and the traceback (chat.py:14-16, 78-84) are left out because they are process and console plumbing.
- `inspect_lance.py` is not part of this model: it is a read-only diagnostic made of SQL and float formatting.

## Findings

| source | as written | input that shows it | evidently intended | confidence | as-written member | corrected member |
|---|---|---|---|---|---|---|
| extract_post_data.py:91-92 | a column whose name is not in `col_map` is put into the `CREATE VIEW` select list as it is, unquoted | a CSV column `Post URL` is read as column `Post` with alias `URL`, so the view fails or reads the wrong column; `post-url` is read as a subtraction, not a column | every column name written as a double-quoted identifier, with `"` doubled, so that each fragment reads its own column | medium, not executed | Columns.UnquotedPassThrough | Columns.SafeFragmentReadsColumn |
| extract_post_data.py:83-88 | the lookup key is stripped of every whitespace character, but a renamed column is quoted only when it holds a space or a hyphen | a CSV column `Date\t` (with a trailing tab) is written `Date\t AS post_date`, which SQL reads as column `Date`, not `Date\t` | every renamed column written as a double-quoted identifier | low, not executed | Columns.TrailingWhitespaceMisread | Columns.SafeFragmentReadsColumn |
