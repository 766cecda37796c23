/** `build_prompt` of `prompt_builder.py`: renders the retrieved documents
    and the question into the single prompt given to the language model. */
module PromptBuilder {
  import opened Common
  import opened Text

  /** The instruction the prompt opens with. */
  const Instructions: string :=
    "Answer the following question using only the provided context. "
    + "Keep your answer concise and factual. Cite sources if possible."

  /** The most characters of a document's text a context line shows. */
  const ExcerptLimit: nat := 300

  /** `s[:n]`. */
  function Truncate(s: string, n: nat): string
  {
    if |s| <= n then s else s[..n]
  }

  /** `s.replace('\n', ' ')`. */
  function ReplaceNewlines(s: string): (r: string)
    ensures |r| == |s|
    ensures forall k :: 0 <= k < |s| ==> r[k] == if s[k] == '\n' then ' ' else s[k]
    decreases |s|
  {
    if s == [] then [] else (if s[0] == '\n' then " " else [s[0]]) + ReplaceNewlines(s[1..])
  }

  /** `doc.page_content.strip()[:300].replace('\n', ' ')`. */
  function Excerpt(content: string): string
  {
    ReplaceNewlines(Truncate(Strip(content), ExcerptLimit))
  }

  /** A metadata value as an f-string renders it. */
  function Render(v: MetaValue): string
  {
    match v
    case Text(t) => t
    case Int(n) => IntToString(n)
  }

  /** `doc.metadata.get('filename', '')`, rendered. */
  function SourceName(metadata: map<string, MetaValue>): string
  {
    if "filename" in metadata then Render(metadata["filename"]) else ""
  }

  /** The context line of one document. */
  function ContextLine(doc: Document): string
  {
    "- " + Excerpt(doc.pageContent) + " (Source: " + SourceName(doc.metadata) + ")"
  }

  /** One context line per retrieved pair, in order; the score is not used. */
  function ContextLines(docs: seq<(Document, Score)>): seq<string>
  {
    seq(|docs|, i requires 0 <= i < |docs| => ContextLine(docs[i].0))
  }

  /** The context block: the context lines joined with newlines. */
  function Context(docs: seq<(Document, Score)>): string
  {
    JoinLines(ContextLines(docs))
  }

  /** The prompt: the instruction, a blank line, the context under
      "Context:", a blank line, the question, and the answer cue. */
  function BuildPrompt(query: string, docs: seq<(Document, Score)>): (p: string)
    ensures |p| >= 7 && p[|p| - 7..] == "Answer:"
    ensures Instructions + "\n\nContext:\n" <= p
  {
    Instructions + "\n\n" + "Context:\n" + Context(docs) + "\n\n" + "Question: " + query + "\n" + "Answer:"
  }

  /** The excerpt is the first `min(300, |stripped|)` characters of the
      stripped text with each newline turned into a space, so it is at most
      300 characters long and holds no newline. */
  lemma ExcerptShape(content: string)
    ensures var e := Excerpt(content);
      var t := Strip(content);
      && |e| <= ExcerptLimit
      && |e| == (if |t| <= ExcerptLimit then |t| else ExcerptLimit)
      && '\n' !in e
      && forall k :: 0 <= k < |e| ==> e[k] == if t[k] == '\n' then ' ' else t[k]
  {
    StripShape(content);
  }

  lemma NoNewlineConcat(a: string, b: string)
    requires '\n' !in a && '\n' !in b
    ensures '\n' !in a + b
  {
    forall k | 0 <= k < |a + b| ensures (a + b)[k] != '\n' {
      if k >= |a| { assert (a + b)[k] == b[k - |a|]; }
    }
  }

  /** A context line holds no newline unless its source name does. */
  lemma ContextLineSingle(doc: Document)
    requires '\n' !in SourceName(doc.metadata)
    ensures '\n' !in ContextLine(doc)
  {
    ExcerptShape(doc.pageContent);
    var e := Excerpt(doc.pageContent);
    var src := SourceName(doc.metadata);
    NoNewlineConcat("- ", e);
    NoNewlineConcat("- " + e, " (Source: ");
    NoNewlineConcat("- " + e + " (Source: ", src);
    NoNewlineConcat("- " + e + " (Source: " + src, ")");
  }

  /** When no source name holds a newline, splitting a non-empty context
      block at newlines gives back exactly one line per document, in order. */
  lemma ContextRoundTrip(docs: seq<(Document, Score)>)
    requires |docs| >= 1
    requires forall i :: 0 <= i < |docs| ==> '\n' !in SourceName(docs[i].0.metadata)
    ensures SplitLines(Context(docs)) == ContextLines(docs)
  {
    var lines := ContextLines(docs);
    forall i | 0 <= i < |lines| ensures '\n' !in lines[i] {
      ContextLineSingle(docs[i].0);
    }
    SplitJoinLines(lines);
  }

  /** A single line followed by a newline contributes exactly itself. */
  lemma ConsLine(h: string, x: string)
    requires '\n' !in h
    ensures SplitLines(h + "\n" + x) == [h] + SplitLines(x)
  {
    SplitLinesAppend(h, x);
    SplitLinesSingle(h);
  }

  /** The lines of `q` followed by `tail`, after the text `c` and a blank line. */
  lemma FrameTail(c: string, q: string, tail: string)
    requires '\n' !in q && '\n' !in tail
    ensures SplitLines(c + "\n" + ("" + "\n" + (q + "\n" + tail))) == SplitLines(c) + ["", q, tail]
  {
    var r5 := q + "\n" + tail;
    ConsLine(q, tail);
    SplitLinesSingle(tail);
    ConsLine("", r5);
    SplitLinesAppend(c, "" + "\n" + r5);
  }

  /** The lines of `i`, a blank line and the single line `head` before `x`. */
  lemma FrameHead(i: string, head: string, x: string)
    requires '\n' !in head
    ensures SplitLines(i + "\n" + ("" + "\n" + (head + "\n" + x))) == SplitLines(i) + ["", head] + SplitLines(x)
  {
    ConsLine(head, x);
    ConsLine("", head + "\n" + x);
    SplitLinesAppend(i, "" + "\n" + (head + "\n" + x));
  }

  /** The lines of `i`, a blank line, `head`, the text `c`, a blank line,
      `q` and `tail`, when `head`, `q` and `tail` are single lines. */
  lemma FrameLines(i: string, head: string, c: string, q: string, tail: string)
    requires '\n' !in head && '\n' !in q && '\n' !in tail
    ensures SplitLines(i + "\n" + ("" + "\n" + (head + "\n" + (c + "\n" + ("" + "\n" + (q + "\n" + tail))))))
            == SplitLines(i) + ["", head] + SplitLines(c) + ["", q, tail]
  {
    var r3 := c + "\n" + ("" + "\n" + (q + "\n" + tail));
    FrameTail(c, q, tail);
    FrameHead(i, head, r3);
  }

  lemma FrameAssoc(i: string, c: string, query: string)
    ensures i + "\n\n" + "Context:\n" + c + "\n\n" + "Question: " + query + "\n" + "Answer:"
            == i + "\n" + ("" + "\n" + ("Context:" + "\n" + (c + "\n" + ("" + "\n" + (("Question: " + query) + "\n" + "Answer:")))))
  {
    assert "\n\n" == "\n" + "" + "\n";
    assert "Context:\n" == "Context:" + "\n";
  }

  /** Line by line, the prompt is the lines of the instruction, a blank
      line, "Context:", the lines of the context block, a blank line, the
      question and the answer cue (for a question without newlines). */
  lemma PromptLayout(query: string, docs: seq<(Document, Score)>)
    requires '\n' !in query
    ensures SplitLines(BuildPrompt(query, docs))
            == SplitLines(Instructions) + ["", "Context:"] + SplitLines(Context(docs)) + ["", "Question: " + query, "Answer:"]
  {
    NoNewlineConcat("Question: ", query);
    FrameAssoc(Instructions, Context(docs), query);
    FrameLines(Instructions, "Context:", Context(docs), "Question: " + query, "Answer:");
  }

  /** The prompt does not depend on the scores of the retrieved pairs. */
  lemma ScoresIgnored(query: string, docs: seq<(Document, Score)>, others: seq<(Document, Score)>)
    requires |docs| == |others|
    requires forall i :: 0 <= i < |docs| ==> docs[i].0 == others[i].0
    ensures BuildPrompt(query, docs) == BuildPrompt(query, others)
  {
    assert ContextLines(docs) == ContextLines(others);
  }
}
