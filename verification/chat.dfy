/**
  One pass of the chat loop: the input line is stripped and classified, a
  question retrieves at most five posts, their titles and bodies become the
  context of a fixed-shape prompt, and the first three retrieved posts are
  listed as sources. Retrieval (embedding plus vector search) and the
  language model are parameters.
 */
module Chat {
  import opened Text

  /** What the loop does with one input line. */
  datatype Command = Quit | Skip | Ask(question: string)

  /** The words that end the session, compared after stripping and lower-casing. */
  const QuitWords: seq<string> := ["quit", "exit", "q"]

  /** The input line stripped, lower-cased and checked against the quit words, then for emptiness. */
  function Classify(line: string): (c: Command)
    ensures c == Quit <==> Lower(Strip(line)) in QuitWords
    ensures c == Skip <==> AllSpace(line)
    ensures c.Ask? ==> c.question != [] && NoOuterSpace(c.question)
    ensures c.Ask? ==> exists i :: StrippedAt(line, c.question, i)
  {
    var question := Strip(line);
    StripEmptyIff(line);
    if Lower(question) in QuitWords then Quit
    else if question == [] then Skip
    else Ask(question)
  }

  /** A question asked again, as it was classified, is the same question. */
  lemma ClassifyStable(line: string)
    requires Classify(line).Ask?
    ensures Classify(Classify(line).question) == Classify(line)
  {
    var q := Classify(line).question;
    StripIdempotent(line);
    StripEmptyIff(q);
  }

  /** A retrieved row: the fields of the stored post that the chat reads. */
  datatype Hit = Hit(title: string, postId: string, blogText: string)

  /** The number of retrieved rows (`limit(5)`). */
  const SearchLimit: nat := 5

  /** The number of body characters a context part keeps (`content[:1000]`). */
  const ContentLimit: nat := 1000

  /** The number of sources printed (`sources[:3]`). */
  const ShownSources: nat := 3

  const ContextPrefix: string := "Title: "
  const ContentLabel: string := "\nContent: "

  /** The context part of one retrieved row: its title and the start of its body. */
  function ContextPart(h: Hit): (r: string)
    ensures |r| == |ContextPrefix| + |h.title| + |ContentLabel| + Min(ContentLimit, |h.blogText|)
    ensures r[..|ContextPrefix|] == ContextPrefix
    ensures r[|ContextPrefix|..|ContextPrefix| + |h.title|] == h.title
    ensures r[|ContextPrefix| + |h.title|..|ContextPrefix| + |h.title| + |ContentLabel|] == ContentLabel
    ensures r[|ContextPrefix| + |h.title| + |ContentLabel|..] == h.blogText[..Min(ContentLimit, |h.blogText|)]
  {
    ContextPrefix + h.title + ContentLabel + Take(h.blogText, ContentLimit)
  }

  /** A body of at most 1000 characters is in its context part in full. */
  lemma ShortBodyKeptWhole(h: Hit)
    requires |h.blogText| <= ContentLimit
    ensures ContextPart(h)[|ContextPart(h)| - |h.blogText|..] == h.blogText
  {
  }

  const Delimiter: string := "\n\n---\n\n"

  function ContextParts(hits: seq<Hit>): (parts: seq<string>)
    ensures |parts| == |hits|
    ensures forall k :: 0 <= k < |hits| ==> parts[k] == ContextPart(hits[k])
    decreases |hits|
  {
    if |hits| == 0 then [] else [ContextPart(hits[0])] + ContextParts(hits[1..])
  }

  /**
    The context: the parts of the retrieved rows, in retrieval order, joined
    by the delimiter. One row gives its part alone; more rows give a text
    that starts with the first row's part and ends with the last row's.
   */
  function Context(hits: seq<Hit>): (r: string)
    ensures hits == [] ==> r == ""
    ensures |hits| == 1 ==> r == ContextPart(hits[0])
    ensures |hits| > 0 ==> |ContextPart(hits[0])| <= |r| && r[..|ContextPart(hits[0])|] == ContextPart(hits[0])
    ensures |hits| > 0 ==> var last := ContextPart(hits[|hits| - 1]);
      |last| <= |r| && r[|r| - |last|..] == last
  {
    Join(ContextParts(hits), Delimiter)
  }

  /** Every further row adds the delimiter and its own part at the end of the context. */
  lemma ContextAppend(hits: seq<Hit>, h: Hit)
    requires |hits| > 0
    ensures Context(hits + [h]) == Context(hits) + Delimiter + ContextPart(h)
  {
    assert ContextParts(hits + [h]) == ContextParts(hits) + [ContextPart(h)];
    JoinAppend(ContextParts(hits), ContextPart(h), Delimiter);
  }

  /** The context is empty exactly when nothing was retrieved. */
  lemma ContextEmptyIff(hits: seq<Hit>)
    ensures Context(hits) == "" <==> hits == []
  {
    if |hits| > 0 {
      assert |ContextPart(hits[0])| > 0;
    }
  }

  const SystemPrompt: string :=
    "Use the following pieces of context from blog posts to answer the question. \n"
    + "If you don't know the answer based on the context, say that you don't know. Don't make up an answer."

  const ContextLabel: string := "\n\nContext:\n"
  const QuestionLabel: string := "\n\nQuestion: "
  const AnswerLabel: string := "\n\nAnswer:"

  /** Where the context starts in a prompt. */
  function ContextStart(): nat {
    |SystemPrompt| + |ContextLabel|
  }

  /**
    The prompt sent to the language model: the system prompt, the context
    label, the context, the question label, the question and the answer
    label, each at its own offset.
   */
  function Prompt(context: string, question: string): (p: string)
    ensures |p| == ContextStart() + |context| + |QuestionLabel| + |question| + |AnswerLabel|
    ensures p[..|SystemPrompt|] == SystemPrompt
    ensures p[|SystemPrompt|..ContextStart()] == ContextLabel
    ensures p[ContextStart() + |context|..ContextStart() + |context| + |QuestionLabel|] == QuestionLabel
    ensures p[|p| - |AnswerLabel|..] == AnswerLabel
  {
    SystemPrompt + ContextLabel + context + QuestionLabel + question + AnswerLabel
  }

  /** The context of a prompt whose context is `n` characters long. */
  function PromptContext(p: string, n: nat): string
    requires ContextStart() + n <= |p|
  {
    p[ContextStart()..ContextStart() + n]
  }

  /** The question of a prompt whose context is `n` characters long. */
  function PromptQuestion(p: string, n: nat): string
    requires ContextStart() + n + |QuestionLabel| + |AnswerLabel| <= |p|
  {
    p[ContextStart() + n + |QuestionLabel|..|p| - |AnswerLabel|]
  }

  /** Context and question can be read back from the prompt: the prompt loses nothing. */
  lemma PromptRoundTrip(context: string, question: string)
    ensures PromptContext(Prompt(context, question), |context|) == context
    ensures PromptQuestion(Prompt(context, question), |context|) == question
  {
    var p := Prompt(context, question);
    assert p == (SystemPrompt + ContextLabel) + context + (QuestionLabel + question + AnswerLabel);
    assert PromptQuestion(p, |context|) == p[ContextStart() + |context| + |QuestionLabel|..|p| - |AnswerLabel|];
  }

  /** Prompts with contexts of the same length are equal only for the same context and question. */
  lemma PromptInjective(c1: string, q1: string, c2: string, q2: string)
    requires |c1| == |c2| && Prompt(c1, q1) == Prompt(c2, q2)
    ensures c1 == c2 && q1 == q2
  {
    PromptRoundTrip(c1, q1);
    PromptRoundTrip(c2, q2);
  }

  const IdLabel: string := " (post_id: "

  /** A one-digit decimal numeral. */
  function Digit(n: nat): (r: string)
    requires n < 10
    ensures |r| == 1 && IsDigit(r[0]) && r[0] as int - '0' as int == n
  {
    [('0' as int + n) as char]
  }

  /** The line printed for the `n`-th source (`n` counted from 1): its number, title and post id. */
  function SourceLine(n: nat, h: Hit): (r: string)
    requires n < 10
    ensures |r| == 5 + |h.title| + |IdLabel| + |h.postId| + 1
    ensures r[..2] == "  " && r[2] as int - '0' as int == n && r[3..5] == ". "
    ensures r[5..5 + |h.title|] == h.title
    ensures r[5 + |h.title|..5 + |h.title| + |IdLabel|] == IdLabel
    ensures r[|r| - 1 - |h.postId|..|r| - 1] == h.postId && r[|r| - 1] == ')'
  {
    "  " + Digit(n) + ". " + h.title + IdLabel + h.postId + ")"
  }

  /** The source lines printed after an answer: the first three retrieved rows, numbered from 1. */
  function SourceLines(hits: seq<Hit>): (lines: seq<string>)
    ensures |lines| == Min(ShownSources, |hits|)
    ensures forall k :: 0 <= k < |lines| ==> lines[k] == SourceLine(k + 1, hits[k])
  {
    var shown := Take(hits, ShownSources);
    seq(|shown|, k requires 0 <= k < |shown| => SourceLine(k + 1, shown[k]))
  }

  /** Every retrieved row is listed when there are at most three of them. */
  lemma FewSourcesAllShown(hits: seq<Hit>, k: int)
    requires |hits| <= ShownSources && 0 <= k < |hits|
    ensures SourceLines(hits)[k] == SourceLine(k + 1, hits[k])
    ensures |SourceLines(hits)| == |hits|
  {
  }

  /** What one pass of the loop does. */
  datatype Outcome =
    | Stop
    | Continue
    | Answered(prompt: string, answer: string, sources: seq<string>)

  /**
    What the loop does with a classified line. `search` stands for embedding
    the question and searching the table; `llm` for the model call and
    reading its reply.
   */
  function Respond(c: Command, search: string -> seq<Hit>, llm: string -> string): (o: Outcome)
    ensures o == Stop <==> c == Quit
    ensures o == Continue <==> c == Skip
    ensures o.Answered? ==> (
      && c.Ask?
      && o.prompt == Prompt(Context(Take(search(c.question), SearchLimit)), c.question)
      && o.answer == llm(o.prompt)
      && |o.sources| <= ShownSources)
  {
    match c
    case Quit => Stop
    case Skip => Continue
    case Ask(question) =>
      var hits := Take(search(question), SearchLimit);
      var prompt := Prompt(Context(hits), question);
      Answered(prompt, llm(prompt), SourceLines(hits))
  }

  /** One pass of the loop over an input line. */
  function Turn(line: string, search: string -> seq<Hit>, llm: string -> string): (o: Outcome)
    ensures o == Stop <==> Lower(Strip(line)) in QuitWords
    ensures o == Continue <==> AllSpace(line)
    ensures o.Answered? ==> o.prompt == Prompt(Context(Take(search(Strip(line)), SearchLimit)), Strip(line))
    ensures o.Answered? ==> o.answer == llm(o.prompt)
  {
    Respond(Classify(line), search, llm)
  }

  /**
    A quit word or a blank line calls neither retrieval nor the model: the
    outcome is the same whatever they would return.
   */
  lemma NoServiceCallWithoutQuestion(line: string, s1: string -> seq<Hit>, l1: string -> string,
                                     s2: string -> seq<Hit>, l2: string -> string)
    requires !Classify(line).Ask?
    ensures Turn(line, s1, l1) == Turn(line, s2, l2)
  {
  }

  /** The sources printed after an answer are the first retrieved rows, at most three of them. */
  lemma AnswerSources(line: string, search: string -> seq<Hit>, llm: string -> string)
    requires Classify(line).Ask?
    ensures Turn(line, search, llm).Answered?
    ensures var hits := Take(search(Classify(line).question), SearchLimit);
      |Turn(line, search, llm).sources| == Min(ShownSources, |hits|)
      && forall k :: 0 <= k < |Turn(line, search, llm).sources| ==>
           Turn(line, search, llm).sources[k] == SourceLine(k + 1, hits[k])
  {
  }

  /** The loop over classified lines: each is handled in turn, up to and including the first quit. */
  function Run(cmds: seq<Command>, search: string -> seq<Hit>, llm: string -> string): (os: seq<Outcome>)
    ensures |os| <= |cmds|
    ensures forall k :: 0 <= k < |os| ==> os[k] == Respond(cmds[k], search, llm)
    ensures forall k :: 0 <= k < |os| - 1 ==> os[k] != Stop
    ensures |os| < |cmds| ==> |os| > 0 && os[|os| - 1] == Stop
    decreases |cmds|
  {
    if |cmds| == 0 then []
    else
      var o := Respond(cmds[0], search, llm);
      if o == Stop then [o]
      else
        var rest := Run(cmds[1..], search, llm);
        var os := [o] + rest;
        assert forall k :: 0 <= k < |os| ==> os[k] == Respond(cmds[k], search, llm) by {
          forall k | 1 <= k < |os| ensures os[k] == Respond(cmds[k], search, llm) {
            assert os[k] == rest[k - 1] && cmds[k] == cmds[1..][k - 1];
          }
        }
        assert forall k :: 0 <= k < |os| - 1 ==> os[k] != Stop by {
          forall k | 1 <= k < |os| - 1 ensures os[k] != Stop {
            assert os[k] == rest[k - 1];
          }
        }
        os
  }

  /** Without a quit the loop handles every line. */
  lemma RunWithoutQuit(cmds: seq<Command>, search: string -> seq<Hit>, llm: string -> string)
    requires forall k :: 0 <= k < |cmds| ==> cmds[k] != Quit
    ensures |Run(cmds, search, llm)| == |cmds|
  {
  }

  /** The loop ends with the first quit: the lines after it are never read. */
  lemma RunEndsAtFirstQuit(cmds: seq<Command>, search: string -> seq<Hit>, llm: string -> string, q: nat)
    requires q < |cmds| && cmds[q] == Quit
    requires forall k :: 0 <= k < q ==> cmds[k] != Quit
    ensures |Run(cmds, search, llm)| == q + 1
  {
  }

  /** The input lines classified one by one. */
  function Classified(lines: seq<string>): (cmds: seq<Command>)
    ensures |cmds| == |lines|
    ensures forall k :: 0 <= k < |lines| ==> cmds[k] == Classify(lines[k])
  {
    seq(|lines|, k requires 0 <= k < |lines| => Classify(lines[k]))
  }

  /**
    The chat session over the lines typed at the prompt: every line is
    handled in turn, and the first quit word is the last line handled.
   */
  function Session(lines: seq<string>, search: string -> seq<Hit>, llm: string -> string): (os: seq<Outcome>)
    ensures |os| <= |lines|
    ensures forall k :: 0 <= k < |os| ==> os[k] == Turn(lines[k], search, llm)
    ensures forall k :: 0 <= k < |os| - 1 ==> os[k] != Stop
    ensures |os| < |lines| ==> |os| > 0 && os[|os| - 1] == Stop
  {
    Run(Classified(lines), search, llm)
  }

  /** The session ends at the first quit word, and handles every line when there is none. */
  lemma SessionEndsAtFirstQuit(lines: seq<string>, search: string -> seq<Hit>, llm: string -> string, q: nat)
    requires q < |lines| && Classify(lines[q]) == Quit
    requires forall k :: 0 <= k < q ==> Classify(lines[k]) != Quit
    ensures |Session(lines, search, llm)| == q + 1
  {
    RunEndsAtFirstQuit(Classified(lines), search, llm, q);
  }

  lemma SessionWithoutQuit(lines: seq<string>, search: string -> seq<Hit>, llm: string -> string)
    requires forall k :: 0 <= k < |lines| ==> Classify(lines[k]) != Quit
    ensures |Session(lines, search, llm)| == |lines|
  {
    RunWithoutQuit(Classified(lines), search, llm);
  }
}
