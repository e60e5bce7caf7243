/**
 * The text handling of the chat engine (`ChatEngine`): the rewrite of a question
 * with the last thing the user asked, the numbered context handed to the language
 * model, the sources shown beside the answer and the history text. The retriever and
 * the language model themselves are not modelled.
 */
module Engine {
  import opened Common
  import opened Text
  import opened Json
  import opened TextUtils
  import opened Documents

  /** A chat message: who wrote it (`"user"` or `"assistant"`) and what it says. */
  datatype Message = Message(role: string, content: string)

  /** A source shown with an answer: the document's title and url (whatever values
      its metadata holds) and the beginning of its text. */
  datatype Source = Source(title: Json, url: Json, snippet: string)

  // ---------------------------------------------------------------------------
  // rewrite

  /** The content of the most recent message written by the user, `""` when there is
      none. */
  function LastUser(history: seq<Message>): string {
    if history == [] then ""
    else if history[|history| - 1].role == "user" then history[|history| - 1].content
    else LastUser(history[..|history| - 1])
  }

  /** What `rewrite(question, history)` returns. */
  function Rewritten(question: string, history: seq<Message>): string {
    if history == [] then question
    else
      var last := LastUser(history);
      if last != "" then last + " 관련: " + question else question
  }

  /** `rewrite`: scans the history from the end for the first user message. */
  method Rewrite(question: string, history: seq<Message>) returns (r: string)
    ensures r == Rewritten(question, history)
  {
    if history == [] {
      return question;
    }
    var lastUser := "";
    var i := |history|;
    assert history[..i] == history;
    while i > 0
      invariant 0 <= i <= |history|
      invariant lastUser == "" && LastUser(history) == LastUser(history[..i])
    {
      i := i - 1;
      assert history[..i + 1][..i] == history[..i];
      if history[i].role == "user" {
        lastUser := history[i].content;
        break;
      }
    }
    assert i == 0 ==> history[..i] == [];
    r := if lastUser != "" then lastUser + " 관련: " + question else question;
  }

  /** The message `LastUser` picks: when some message is the user's, it is the
      content of the last such message; otherwise it is empty. */
  lemma {:induction false} LastUserIsLast(history: seq<Message>)
    ensures forall k ::
      (0 <= k < |history| && history[k].role == "user" && forall j :: k < j < |history| ==> history[j].role != "user")
      ==> LastUser(history) == history[k].content
    ensures (forall k :: 0 <= k < |history| ==> history[k].role != "user") ==> LastUser(history) == ""
  {
    if history != [] {
      var n := |history| - 1;
      var front := history[..n];
      LastUserIsLast(front);
      assert forall k :: 0 <= k < n ==> front[k] == history[k];
    }
  }

  /** The rewrite keeps the question as it is when the history is empty, has no user
      message or its last user message is empty; otherwise it prefixes the question
      with that message and " 관련: ". Either way the question ends the result. */
  lemma RewrittenCases(question: string, history: seq<Message>)
    ensures (forall k :: 0 <= k < |history| ==> history[k].role != "user") ==> Rewritten(question, history) == question
    ensures forall k ::
      (0 <= k < |history| && history[k].role == "user" && forall j :: k < j < |history| ==> history[j].role != "user")
      ==> Rewritten(question, history) ==
          (if history[k].content == "" then question else history[k].content + " 관련: " + question)
    ensures exists p :: Rewritten(question, history) == p + question
  {
    LastUserIsLast(history);
    if history != [] && LastUser(history) != "" {
      var p := LastUser(history) + " 관련: ";
      assert Rewritten(question, history) == p + question;
    } else {
      assert Rewritten(question, history) == [] + question;
    }
  }

  // ---------------------------------------------------------------------------
  // _format_context

  /** The longest snippet of a context block. */
  const ContextSnippetLength := 500

  /** The longest snippet of a source. */
  const SourceSnippetLength := 200

  /** `s[:n]` */
  function Prefix(s: string, n: nat): (r: string)
    ensures |r| == if |s| < n then |s| else n
    ensures r <= s
  {
    if |s| < n then s else s[..n]
  }

  /** `d.metadata.get(key, "")` */
  function MetaOr(d: Document, key: string): Json {
    GetOr(d.metadata, key, JStr(""))
  }

  /** `d.page_content[:500].replace("\n", " ")` */
  function Snippet(d: Document): string {
    Replace(Prefix(d.pageContent, ContextSnippetLength), "\n", " ")
  }

  /** The first line of block number `i`: `f"[{i}] {title} | {url}"`. */
  function Header(i: nat, d: Document): string {
    "[" + NatToString(i) + "] " + Str(MetaOr(d, "title")) + " | " + Str(MetaOr(d, "url"))
  }

  /** Block number `i`: the header, then the snippet on the next line. */
  function Block(i: nat, d: Document): string {
    Header(i, d) + "\n" + Snippet(d)
  }

  /** The blocks of the documents, numbered from 1. */
  function Blocks(docs: seq<Document>): (r: seq<string>)
    ensures |r| == |docs|
  {
    seq(|docs|, k requires 0 <= k < |docs| => Block(k + 1, docs[k]))
  }

  /** What `_format_context(docs)` returns: the blocks separated by a blank line. */
  function Context(docs: seq<Document>): string {
    Join("\n\n", Blocks(docs))
  }

  /** `_format_context`: appends one block per document, then joins them. */
  method FormatContext(docs: seq<Document>) returns (r: string)
    ensures r == Context(docs)
  {
    var parts: seq<string> := [];
    var i := 0;
    while i < |docs|
      invariant 0 <= i <= |docs|
      invariant parts == Blocks(docs[..i])
    {
      parts := parts + [Block(i + 1, docs[i])];
      i := i + 1;
    }
    assert docs[..i] == docs;
    r := Join("\n\n", parts);
  }

  /** The snippet is the first 500 characters of the text (all of it when shorter) with
      each newline turned into a space, so it has no newline. */
  lemma SnippetProperties(d: Document)
    ensures |Snippet(d)| == if |d.pageContent| < 500 then |d.pageContent| else 500
    ensures forall k :: 0 <= k < |Snippet(d)| ==>
      Snippet(d)[k] == if d.pageContent[k] == '\n' then ' ' else d.pageContent[k]
    ensures '\n' !in Snippet(d)
  {
    ReplaceChar(Prefix(d.pageContent, ContextSnippetLength), '\n', ' ');
  }

  /** Each block is two lines, the numbered header and the snippet, when the title
      and url put no newline of their own into the header (a value that is not a
      string never does: its `str` has no control character). */
  lemma BlockLines(i: nat, d: Document)
    requires MetaOr(d, "title").JStr? ==> '\n' !in MetaOr(d, "title").s
    requires MetaOr(d, "url").JStr? ==> '\n' !in MetaOr(d, "url").s
    ensures Split(Block(i, d), '\n') == [Header(i, d), Snippet(d)]
  {
    SnippetProperties(d);
    var title := Str(MetaOr(d, "title"));
    var url := Str(MetaOr(d, "url"));
    if !MetaOr(d, "title").JStr? {
      ReprNoControl(MetaOr(d, "title"));
      NoNewline(title);
    }
    if !MetaOr(d, "url").JStr? {
      ReprNoControl(MetaOr(d, "url"));
      NoNewline(url);
    }
    NatToStringNoControl(i);
    NoNewline(NatToString(i));
    var h := Header(i, d);
    NotInAppend("[", NatToString(i), '\n');
    NotInAppend("[" + NatToString(i), "] ", '\n');
    NotInAppend("[" + NatToString(i) + "] ", title, '\n');
    NotInAppend("[" + NatToString(i) + "] " + title, " | ", '\n');
    NotInAppend("[" + NatToString(i) + "] " + title + " | ", url, '\n');
    SplitJoin([h, Snippet(d)], '\n');
    assert Join("\n", [h, Snippet(d)]) == h + "\n" + Snippet(d) by {
      assert [h, Snippet(d)][1..] == [Snippet(d)];
    }
  }

  /** Adding a document adds its block, numbered one past the others, after a blank
      line (or as the whole context when it is the first). */
  lemma ContextSnoc(docs: seq<Document>, d: Document)
    ensures Context(docs + [d]) ==
      if docs == [] then Block(1, d) else Context(docs) + "\n\n" + Block(|docs| + 1, d)
  {
    var bs := Blocks(docs);
    assert Blocks(docs + [d]) == bs + [Block(|docs| + 1, d)];
    JoinSnoc("\n\n", bs, Block(|docs| + 1, d));
  }

  /** Joining with one more part at the end. */
  lemma {:induction false} JoinSnoc(sep: string, parts: seq<string>, x: string)
    ensures Join(sep, parts + [x]) == if parts == [] then x else Join(sep, parts) + sep + x
  {
    if |parts| == 1 {
      assert (parts + [x])[1..] == [x];
    } else if |parts| > 1 {
      JoinSnoc(sep, parts[1..], x);
      assert (parts + [x])[1..] == parts[1..] + [x];
      AppendAssoc(parts[0] + sep, Join(sep, parts[1..]) + sep, x);
      AppendAssoc(parts[0] + sep, Join(sep, parts[1..]), sep);
    }
  }

  // ---------------------------------------------------------------------------
  // _docs_to_sources

  /** The source for one document. */
  function SourceOf(d: Document): Source {
    Source(MetaOr(d, "title"), MetaOr(d, "url"), Prefix(d.pageContent, SourceSnippetLength))
  }

  /** `_docs_to_sources`: one source per document, in order. */
  method DocsToSources(docs: seq<Document>) returns (out: seq<Source>)
    ensures |out| == |docs|
    ensures forall k :: 0 <= k < |docs| ==> out[k] == SourceOf(docs[k])
  {
    out := [];
    var i := 0;
    while i < |docs|
      invariant 0 <= i <= |docs| && |out| == i
      invariant forall k :: 0 <= k < i ==> out[k] == SourceOf(docs[k])
    {
      out := out + [SourceOf(docs[i])];
      i := i + 1;
    }
  }

  /** A source carries its document's title and url, and the first 200 characters of
      its text, newlines included: with each newline made a space, it is the start of
      the same document's context snippet. */
  lemma SourceSnippet(d: Document)
    ensures SourceOf(d).title == MetaOr(d, "title") && SourceOf(d).url == MetaOr(d, "url")
    ensures SourceOf(d).snippet <= d.pageContent
    ensures |SourceOf(d).snippet| == if |d.pageContent| < 200 then |d.pageContent| else 200
    ensures Replace(SourceOf(d).snippet, "\n", " ") <= Snippet(d)
  {
    var s := SourceOf(d).snippet;
    SnippetProperties(d);
    ReplaceChar(s, '\n', ' ');
  }

  // ---------------------------------------------------------------------------
  // The history text in `ask`

  /** `history[-8:]` */
  function Recent(history: seq<Message>): seq<Message> {
    if |history| <= 8 then history else history[|history| - 8..]
  }

  /** `f"{m['role']}: {m['content']}"` */
  function Line(m: Message): string {
    m.role + ": " + m.content
  }

  /** The history text passed to the chain: the recent messages, one line each. */
  function HistoryText(history: seq<Message>): string {
    Join("\n", Map(Line, Recent(history)))
  }

  /** Only the last eight messages (all of them when there are fewer) are used, in
      order, and the text has one `role: content` line per message when no role or
      content holds a newline. */
  lemma HistoryTextLines(history: seq<Message>)
    ensures |Recent(history)| == if |history| < 8 then |history| else 8
    ensures exists older :: history == older + Recent(history)
    ensures history != [] && (forall k :: 0 <= k < |history| ==> '\n' !in history[k].role && '\n' !in history[k].content) ==>
      Split(HistoryText(history), '\n') == Map(Line, Recent(history))
  {
    var recent := Recent(history);
    var older := history[..|history| - |recent|];
    assert history == older + recent;
    if history != [] && (forall k :: 0 <= k < |history| ==> '\n' !in history[k].role && '\n' !in history[k].content) {
      var lines := Map(Line, recent);
      forall k | 0 <= k < |lines| ensures '\n' !in lines[k] {
        var m := recent[k];
        assert m == history[|older| + k];
        NotInAppend(m.role, ": ", '\n');
        NotInAppend(m.role + ": ", m.content, '\n');
      }
      SplitJoin(lines, '\n');
    }
  }
}
