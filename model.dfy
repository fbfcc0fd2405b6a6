/** Prompt assembly for the completion model: the system message, and one user
    message built from the session's markdown context, its code snippets and
    the code around the cursor; plus the parts of a completion call that do
    not touch the network. */
module Model {
  import opened Wrappers
  import opened Text
  import opened Snapshot

  /** A chat message in the OpenAI request and response format. */
  datatype Message = Message(role: string, content: string)

  /** The request body (the `f32` temperature, always zero, is not modelled). */
  datatype Request = Request(
    model: string,
    messages: seq<Message>,
    maxTokens: uint64,
    stream: bool,
    thinkingType: string)

  datatype Choice = Choice(message: Message)
  datatype Response = Response(choices: seq<Choice>)

  // The longer texts are written in short pieces.
  const SystemPrompt: string := "You are an AI code completion assistant. "
    + "Generate code that naturally continues "
    + "from the given prefix. Return ONLY the "
    + "completion code without explanations, "
    + "markdown formatting, or code fences."
  const MarkdownIntro: string := "Here is some context you might need:\n\n"
  const MarkdownEnd: string := "\n\n---\n\n"
  const SnippetsIntro: string := "Here are some code snippets " + "that you will need:\n\n"
  const SnippetsEnd: string := "---\n\n"
  const DescriptionTag: string := "  Description: "
  const BeforeCursor: string := "Code before cursor:\n```\n"
  const CursorMark: string := "\n```\n\n<CURSOR>\n\n"
  const AfterCursor: string := "Code after cursor:\n```\n"
  const AfterEnd: string := "\n```\n\n"
  const Closing: string := "Generate ONLY the code that should be "
    + "inserted at <CURSOR>. Do not include "
    + "any explanations or markdown formatting."

  /** The markdown preamble: present only for non-empty markdown context. */
  function MarkdownSection(markdown: string): string
  {
    if markdown == "" then "" else MarkdownIntro + markdown + MarkdownEnd
  }

  /** The lines naming snippet number `n`: its URI, line range and language. */
  function SnippetHeader(n: nat, c: CodeContext): string
  {
    "Snippet " + Decimal(n) + ":\n  URI: " + c.uri + "\n  Lines: " + Decimal(c.startLine)
      + "-" + Decimal(c.endLine) + "\n  Language: " + c.languageId + "\n"
  }

  /** The description line, written only when there is a description. */
  function DescriptionLine(description: Option<string>): string
  {
    match description
    case None => ""
    case Some(d) => DescriptionTag + d + "\n"
  }

  /** The snippet's code in a fence. */
  function SnippetCode(code: string): string
  {
    "  Code:\n```\n" + code + "\n```\n\n"
  }

  function SnippetBlock(n: nat, c: CodeContext): string
  {
    SnippetHeader(n, c) + DescriptionLine(c.description) + SnippetCode(c.code)
  }

  /** The blocks of `snippets`, in order, numbered from 1. */
  function SnippetList(snippets: seq<CodeContext>): string
  {
    if snippets == [] then ""
    else SnippetList(snippets[..|snippets| - 1]) + SnippetBlock(|snippets|, snippets[|snippets| - 1])
  }

  /** The snippet section: present only when there are snippets. */
  function SnippetSection(snippets: seq<CodeContext>): string
  {
    if snippets == [] then "" else SnippetsIntro + SnippetList(snippets) + SnippetsEnd
  }

  function LanguageLine(language: string): string
  {
    "Complete the following " + language + " code. The cursor is at <CURSOR>.\n\n"
  }

  /** The instruction naming the language, then the code before the cursor
      between its two markers. */
  function CursorSection(language: string, prefix: string): string
  {
    LanguageLine(language) + BeforeCursor + prefix + CursorMark
  }

  /** The code after the cursor: left out when it is only white space. */
  function SuffixSection(suffix: string): string
  {
    if Trim(suffix) == "" then "" else AfterCursor + suffix + AfterEnd
  }

  /** The content of the user message `build_messages` assembles. */
  function UserPrompt(snapshot: ContextSnapshot, prefix: string, suffix: string, language: string): string
  {
    MarkdownSection(snapshot.markdownContext) + SnippetSection(snapshot.codeSnippets)
      + CursorSection(language, prefix) + SuffixSection(suffix) + Closing
  }

  /** `build_messages`: the fixed system prompt, then the user message, grown
      piece by piece. */
  method BuildMessages(snapshot: ContextSnapshot, prefix: string, suffix: string, language: string)
    returns (messages: seq<Message>)
    ensures messages == [Message("system", SystemPrompt), Message("user", UserPrompt(snapshot, prefix, suffix, language))]
  {
    messages := [];
    messages := messages + [Message("system", SystemPrompt)];
    var contextMsg := "";
    if snapshot.markdownContext != "" {
      contextMsg := contextMsg + MarkdownIntro;
      contextMsg := contextMsg + snapshot.markdownContext;
      contextMsg := contextMsg + MarkdownEnd;
      Append3("", MarkdownIntro, snapshot.markdownContext, MarkdownEnd);
    }
    ghost var mdSection := contextMsg;
    assert mdSection == MarkdownSection(snapshot.markdownContext);
    var snippets := snapshot.codeSnippets;
    if snippets != [] {
      contextMsg := contextMsg + SnippetsIntro;
      for idx := 0 to |snippets|
        invariant contextMsg == mdSection + SnippetsIntro + SnippetList(snippets[..idx])
      {
        ghost var before := contextMsg;
        var snippet := snippets[idx];
        contextMsg := contextMsg + SnippetHeader(idx + 1, snippet);
        if snippet.description.Some? {
          contextMsg := contextMsg + DescriptionTag + snippet.description.value + "\n";
          Append3(before + SnippetHeader(idx + 1, snippet), DescriptionTag, snippet.description.value, "\n");
        }
        assert contextMsg == before + SnippetHeader(idx + 1, snippet) + DescriptionLine(snippet.description);
        contextMsg := contextMsg + SnippetCode(snippet.code);
        Append3(before, SnippetHeader(idx + 1, snippet), DescriptionLine(snippet.description), SnippetCode(snippet.code));
        SnippetListStep(snippets, idx);
        Append2(mdSection + SnippetsIntro, SnippetList(snippets[..idx]), SnippetBlock(idx + 1, snippet));
      }
      assert snippets[..|snippets|] == snippets;
      contextMsg := contextMsg + SnippetsEnd;
      Append3(mdSection, SnippetsIntro, SnippetList(snippets), SnippetsEnd);
    }
    ghost var sections := contextMsg;
    assert sections == mdSection + SnippetSection(snippets);
    contextMsg := contextMsg + LanguageLine(language);
    contextMsg := contextMsg + BeforeCursor;
    contextMsg := contextMsg + prefix;
    contextMsg := contextMsg + CursorMark;
    Append4(sections, LanguageLine(language), BeforeCursor, prefix, CursorMark);
    ghost var upToCursor := contextMsg;
    if Trim(suffix) != "" {
      contextMsg := contextMsg + AfterCursor;
      contextMsg := contextMsg + suffix;
      contextMsg := contextMsg + AfterEnd;
      Append3(upToCursor, AfterCursor, suffix, AfterEnd);
    }
    assert contextMsg == upToCursor + SuffixSection(suffix);
    contextMsg := contextMsg + Closing;
    PromptAssembled(contextMsg, mdSection, sections, upToCursor, snapshot, prefix, suffix, language);
    messages := messages + [Message("user", contextMsg)];
  }

  /** The stages of `BuildMessages` add up to the user message. */
  lemma PromptAssembled(c: string, md: string, sections: string, upToCursor: string,
                        snapshot: ContextSnapshot, prefix: string, suffix: string, language: string)
    requires md == MarkdownSection(snapshot.markdownContext)
    requires sections == md + SnippetSection(snapshot.codeSnippets)
    requires upToCursor == sections + (LanguageLine(language) + BeforeCursor + prefix + CursorMark)
    requires c == upToCursor + SuffixSection(suffix) + Closing
    ensures c == UserPrompt(snapshot, prefix, suffix, language)
  {
  }

  lemma SnippetListStep(snippets: seq<CodeContext>, i: nat)
    requires i < |snippets|
    ensures SnippetList(snippets[..i + 1]) == SnippetList(snippets[..i]) + SnippetBlock(i + 1, snippets[i])
  {
    assert snippets[..i + 1][..i] == snippets[..i];
  }

  /** The request `complete` sends: the model name, the two messages, the
      snapshot's token limit, no streaming and thinking disabled. */
  method PrepareRequest(modelName: string, snapshot: ContextSnapshot, prefix: string, suffix: string, language: string)
    returns (request: Request)
    ensures request.model == modelName
    ensures request.messages == [Message("system", SystemPrompt), Message("user", UserPrompt(snapshot, prefix, suffix, language))]
    ensures request.maxTokens == snapshot.limits.maxTokens
    ensures !request.stream && request.thinkingType == "disabled"
  {
    var messages := BuildMessages(snapshot, prefix, suffix, language);
    request := Request(modelName, messages, snapshot.limits.maxTokens, false, "disabled");
  }

  /** The completion `complete` returns from a successful response: the first
      choice's content, or empty text when there is no choice. */
  function FirstChoiceContent(response: Response): (completion: string)
    ensures response.choices == [] ==> completion == ""
    ensures response.choices != [] ==> completion == response.choices[0].message.content
  {
    if response.choices == [] then "" else response.choices[0].message.content
  }

  /** What occurs in `s` still occurs, shifted, once text is put before it. */
  lemma ExtendLeft(a: string, s: string, t: string, at: nat)
    requires OccursAt(s, t, at)
    ensures OccursAt(a + s, t, |a| + at)
  {
    assert (a + s)[|a| + at..|a| + at + |t|] == s[at..at + |t|];
  }

  /** What occurs in `s` still occurs once text is put after it. */
  lemma ExtendRight(s: string, b: string, t: string, at: nat)
    requires OccursAt(s, t, at)
    ensures OccursAt(s + b, t, at)
  {
    assert (s + b)[at..at + |t|] == s[at..at + |t|];
  }

  lemma AtStart(t: string, b: string)
    ensures OccursAt(t + b, t, 0)
  {
    assert (t + b)[..|t|] == t;
  }

  /** A text whose character at `at + k` differs from `t[k]` has no `t` at `at`. */
  lemma Mismatch(s: string, t: string, at: nat, k: nat)
    requires k < |t| && at + k < |s| && s[at + k] != t[k]
    ensures !OccursAt(s, t, at)
  {
    if at + |t| <= |s| {
      assert s[at..at + |t|][k] == s[at + k];
    }
  }

  /** The user message as its five parts, nested to the right. */
  lemma PromptParts(snapshot: ContextSnapshot, prefix: string, suffix: string, language: string)
    ensures UserPrompt(snapshot, prefix, suffix, language) ==
      MarkdownSection(snapshot.markdownContext) + (SnippetSection(snapshot.codeSnippets)
        + (CursorSection(language, prefix) + (SuffixSection(suffix) + Closing)))
  {
    Nest5(MarkdownSection(snapshot.markdownContext), SnippetSection(snapshot.codeSnippets),
      CursorSection(language, prefix), SuffixSection(suffix), Closing);
  }

  /** The language line opens the cursor section, so a text that starts with
      that section starts with 'C'. */
  lemma CursorSectionFirst(language: string, prefix: string, rest: string)
    ensures var t := CursorSection(language, prefix) + rest; |t| > 0 && t[0] == 'C'
  {
    var t := CursorSection(language, prefix) + rest;
    assert t[0] == LanguageLine(language)[0];
  }

  /** The markdown preamble opens the user message exactly when the markdown
      context is non-empty, and then carries that context verbatim. */
  lemma MarkdownPreambleIff(snapshot: ContextSnapshot, prefix: string, suffix: string, language: string)
    ensures var p := UserPrompt(snapshot, prefix, suffix, language);
      OccursAt(p, MarkdownIntro, 0) <==> snapshot.markdownContext != ""
    ensures snapshot.markdownContext != "" ==>
      OccursAt(UserPrompt(snapshot, prefix, suffix, language), MarkdownIntro + snapshot.markdownContext + MarkdownEnd, 0)
  {
    var md := snapshot.markdownContext;
    PromptParts(snapshot, prefix, suffix, language);
    var rest := SnippetSection(snapshot.codeSnippets) + (CursorSection(language, prefix) + (SuffixSection(suffix) + Closing));
    if md != "" {
      PreamblePresent(md, rest);
    } else if snapshot.codeSnippets != [] {
      assert "" + rest == rest;
      PreambleAbsentBeforeSnippets(snapshot.codeSnippets, CursorSection(language, prefix) + (SuffixSection(suffix) + Closing));
    } else {
      var tail := CursorSection(language, prefix) + (SuffixSection(suffix) + Closing);
      assert "" + ("" + tail) == tail;
      CursorSectionFirst(language, prefix, SuffixSection(suffix) + Closing);
      Mismatch(tail, MarkdownIntro, 0, 0);
    }
  }

  lemma PreamblePresent(md: string, rest: string)
    requires md != ""
    ensures OccursAt(MarkdownSection(md) + rest, MarkdownIntro, 0)
    ensures OccursAt(MarkdownSection(md) + rest, MarkdownIntro + md + MarkdownEnd, 0)
  {
    AtStart(MarkdownIntro + md + MarkdownEnd, rest);
    AtStart(MarkdownIntro, md + MarkdownEnd + rest);
    assert MarkdownIntro + (md + MarkdownEnd + rest) == MarkdownSection(md) + rest;
  }

  lemma PreambleAbsentBeforeSnippets(snippets: seq<CodeContext>, rest: string)
    requires snippets != []
    ensures !OccursAt(SnippetSection(snippets) + rest, MarkdownIntro, 0)
  {
    var t := SnippetSection(snippets) + rest;
    assert t[5] == SnippetsIntro[5];
    Mismatch(t, MarkdownIntro, 0, 5);
  }

  /** `SnippetList` grows at the end: the blocks of the first `j` snippets
      begin the list of all of them. */
  lemma {:induction false} SnippetListPrefix(snippets: seq<CodeContext>, j: nat)
    requires j <= |snippets|
    ensures OccursAt(SnippetList(snippets), SnippetList(snippets[..j]), 0)
    decreases |snippets|
  {
    if j == |snippets| {
      assert snippets[..j] == snippets;
      AtStart(SnippetList(snippets), "");
      assert SnippetList(snippets) + "" == SnippetList(snippets);
    } else {
      var init := snippets[..|snippets| - 1];
      SnippetListPrefix(init, j);
      assert init[..j] == snippets[..j];
      ExtendRight(SnippetList(init), SnippetBlock(|snippets|, snippets[|snippets| - 1]), SnippetList(snippets[..j]), 0);
    }
  }

  /** Snippet `i` is written as block number `i + 1`, just after the blocks of
      the snippets before it, so the blocks keep the list's order. */
  lemma SnippetInList(snippets: seq<CodeContext>, i: nat)
    requires i < |snippets|
    ensures OccursAt(SnippetList(snippets), SnippetBlock(i + 1, snippets[i]), |SnippetList(snippets[..i])|)
    ensures |SnippetList(snippets[..i])| < |SnippetList(snippets[..i + 1])|
  {
    SnippetListStep(snippets, i);
    SnippetListPrefix(snippets, i + 1);
    InGrown(SnippetList(snippets), SnippetList(snippets[..i]), SnippetBlock(i + 1, snippets[i]));
    BlockNonEmpty(i + 1, snippets[i]);
  }

  lemma BlockNonEmpty(n: nat, c: CodeContext)
    ensures |SnippetBlock(n, c)| > 0
  {
    assert |SnippetCode(c.code)| > 0;
  }

  /** When `before + block` begins `all`, `block` occurs in `all` after `before`. */
  lemma InGrown(all: string, before: string, block: string)
    requires OccursAt(all, before + block, 0)
    ensures OccursAt(all, block, |before|)
  {
    assert all[|before|..|before| + |block|] == (before + block)[|before|..];
  }

  /** The snippet section follows the markdown preamble exactly when there
      are snippets. */
  lemma SnippetSectionIff(snapshot: ContextSnapshot, prefix: string, suffix: string, language: string)
    ensures var p := UserPrompt(snapshot, prefix, suffix, language);
      var m := |MarkdownSection(snapshot.markdownContext)|;
      OccursAt(p, SnippetsIntro, m) <==> snapshot.codeSnippets != []
  {
    var ss := snapshot.codeSnippets;
    var mdSection := MarkdownSection(snapshot.markdownContext);
    var tail := SuffixSection(suffix) + Closing;
    PromptParts(snapshot, prefix, suffix, language);
    if ss != [] {
      var list := SnippetList(ss);
      IntroAfterHead(mdSection, SnippetsIntro, list, SnippetsEnd, CursorSection(language, prefix) + tail);
    } else {
      CursorSectionFirst(language, prefix, tail);
      assert SnippetsIntro[0] == 'H';
      IntroAbsent(mdSection, SnippetSection(ss), CursorSection(language, prefix) + tail, SnippetsIntro);
    }
  }

  lemma IntroAfterHead(m: string, intro: string, list: string, end: string, rest: string)
    ensures OccursAt(m + ((intro + list + end) + rest), intro, |m|)
  {
    assert m + ((intro + list + end) + rest) == m + intro + (list + end + rest);
    OccursBetween(m, intro, list + end + rest);
  }

  lemma IntroAbsent(m: string, empty: string, rest: string, t: string)
    requires empty == "" && |rest| > 0 && |t| > 0 && rest[0] != t[0]
    ensures !OccursAt(m + (empty + rest), t, |m|)
  {
    assert empty + rest == rest;
    ExtendMismatch(m, rest, t, 0);
  }

  /** A text that differs from `t` at position `k`, put after `a`, has no `t`
      just after `a`. */
  lemma ExtendMismatch(a: string, rest: string, t: string, k: nat)
    requires k < |rest| && k < |t| && rest[k] != t[k]
    ensures !OccursAt(a + rest, t, |a|)
  {
    Mismatch(a + rest, t, |a|, k);
  }

  /** The snippet section holds every snippet's block, numbered from 1, in
      the order of the list. */
  lemma SnippetBlocksInPrompt(snapshot: ContextSnapshot, prefix: string, suffix: string, language: string, i: nat)
    requires i < |snapshot.codeSnippets|
    ensures OccursAt(UserPrompt(snapshot, prefix, suffix, language), SnippetBlock(i + 1, snapshot.codeSnippets[i]),
      |MarkdownSection(snapshot.markdownContext)| + |SnippetsIntro| + |SnippetList(snapshot.codeSnippets[..i])|)
  {
    assert UserPrompt(snapshot, prefix, suffix, language) == MarkdownSection(snapshot.markdownContext)
      + (SnippetSection(snapshot.codeSnippets) + (CursorSection(language, prefix) + (SuffixSection(suffix) + Closing))) by {
      PromptParts(snapshot, prefix, suffix, language);
    }
    assert OccursAt(SnippetList(snapshot.codeSnippets), SnippetBlock(i + 1, snapshot.codeSnippets[i]),
      |SnippetList(snapshot.codeSnippets[..i])|) by {
      SnippetInList(snapshot.codeSnippets, i);
    }
    BlockInSection(UserPrompt(snapshot, prefix, suffix, language), MarkdownSection(snapshot.markdownContext),
      SnippetSection(snapshot.codeSnippets), SnippetsIntro, SnippetList(snapshot.codeSnippets), SnippetsEnd,
      CursorSection(language, prefix) + (SuffixSection(suffix) + Closing),
      SnippetBlock(i + 1, snapshot.codeSnippets[i]), |SnippetList(snapshot.codeSnippets[..i])|);
  }

  lemma BlockInSection(p: string, m: string, section: string, intro: string, list: string, end: string, rest: string,
                       block: string, at: nat)
    requires p == m + (section + rest) && section == intro + list + end
    requires OccursAt(list, block, at)
    ensures forall off :: off == |m| + |intro| + at ==> OccursAt(p, block, off)
  {
    assert m + ((intro + list + end) + rest) == (m + intro) + list + (end + rest);
    assert (m + intro + list + (end + rest))[|m| + |intro| + at..|m| + |intro| + at + |block|]
      == list[at..at + |block|];
  }

  /** In a snippet block the description line comes right after the header
      exactly when the snippet has a description, and then holds it verbatim. */
  lemma DescriptionLineIff(n: nat, c: CodeContext)
    ensures OccursAt(SnippetBlock(n, c), DescriptionTag, |SnippetHeader(n, c)|) <==> c.description.Some?
    ensures c.description.Some? ==>
      OccursAt(SnippetBlock(n, c), DescriptionTag + c.description.value + "\n", |SnippetHeader(n, c)|)
  {
    var header := SnippetHeader(n, c);
    var code := SnippetCode(c.code);
    match c.description
    case None =>
      assert code[2] == 'C' && DescriptionTag[2] == 'D';
      BlockAbsent(header, DescriptionLine(c.description), code, DescriptionTag, 2);
    case Some(d) =>
      BlockAfterHead(header, DescriptionTag, d, "\n", code);
  }

  /** The code before the cursor always appears verbatim between its two
      markers, right after the language line. */
  lemma PrefixBetweenMarkers(snapshot: ContextSnapshot, prefix: string, suffix: string, language: string)
    ensures OccursAt(UserPrompt(snapshot, prefix, suffix, language), BeforeCursor + prefix + CursorMark,
      |MarkdownSection(snapshot.markdownContext)| + |SnippetSection(snapshot.codeSnippets)| + |LanguageLine(language)|)
  {
    MarkedInPrompt(MarkdownSection(snapshot.markdownContext), SnippetSection(snapshot.codeSnippets),
      LanguageLine(language), BeforeCursor, prefix, CursorMark, SuffixSection(suffix), Closing);
  }

  lemma MarkedInPrompt(m: string, s: string, l: string, b: string, x: string, c: string, f: string, cl: string)
    ensures forall at :: at == |m| + |s| + |l| ==> OccursAt(m + s + (l + b + x + c) + f + cl, b + x + c, at)
  {
    var whole := m + s + (l + b + x + c) + f + cl;
    assert whole == (m + s + l) + (b + x + c) + (f + cl);
    OccursBetween(m + s + l, b + x + c, f + cl);
  }

  /** `t` occurs in `a + t + b` just after `a`. */
  lemma OccursBetween(a: string, t: string, b: string)
    ensures OccursAt(a + t + b, t, |a|)
  {
    assert (a + t + b)[|a|..|a| + |t|] == t;
  }

  /** The "Code after cursor" block follows the cursor section exactly when
      the code after the cursor has a character that is not white space, and
      then holds that code verbatim. */
  lemma SuffixBlockIff(snapshot: ContextSnapshot, prefix: string, suffix: string, language: string)
    ensures var p := UserPrompt(snapshot, prefix, suffix, language);
      var at := |MarkdownSection(snapshot.markdownContext)| + |SnippetSection(snapshot.codeSnippets)| + |CursorSection(language, prefix)|;
      (OccursAt(p, AfterCursor, at) <==> !AllWhitespace(suffix))
      && (!AllWhitespace(suffix) ==> OccursAt(p, AfterCursor + suffix + AfterEnd, at))
  {
    TrimEmptyIff(suffix);
    var head := MarkdownSection(snapshot.markdownContext) + SnippetSection(snapshot.codeSnippets) + CursorSection(language, prefix);
    if Trim(suffix) != "" {
      BlockAfterHead(head, AfterCursor, suffix, AfterEnd, Closing);
    } else {
      assert Closing[0] == 'G' && AfterCursor[0] == 'C';
      BlockAbsent(head, SuffixSection(suffix), Closing, AfterCursor, 0);
    }
  }

  lemma BlockAbsent(head: string, empty: string, rest: string, t: string, k: nat)
    requires empty == "" && k < |rest| && k < |t| && rest[k] != t[k]
    ensures forall at :: at == |head| ==> !OccursAt(head + empty + rest, t, at)
  {
    assert head + empty + rest == head + rest;
    ExtendMismatch(head, rest, t, k);
  }

  lemma BlockAfterHead(head: string, a: string, x: string, e: string, cl: string)
    ensures forall at :: at == |head| ==> OccursAt(head + (a + x + e) + cl, a + x + e, at)
    ensures forall at :: at == |head| ==> OccursAt(head + (a + x + e) + cl, a, at)
  {
    OccursBetween(head, a + x + e, cl);
    assert head + (a + x + e) + cl == head + a + (x + e + cl);
    OccursBetween(head, a, x + e + cl);
  }

  /** The user message always ends with the closing instruction. */
  lemma EndsWithClosing(snapshot: ContextSnapshot, prefix: string, suffix: string, language: string)
    ensures EndsWith(UserPrompt(snapshot, prefix, suffix, language), Closing)
  {
    var head := MarkdownSection(snapshot.markdownContext) + SnippetSection(snapshot.codeSnippets)
      + CursorSection(language, prefix) + SuffixSection(suffix);
    var p := UserPrompt(snapshot, prefix, suffix, language);
    assert p == head + Closing;
    assert p[|p| - |Closing|..] == Closing;
  }

  /** For the placeholder session the user message has neither a markdown
      preamble nor a snippet section: it opens with the language line. */
  lemma DefaultSnapshotPrompt(prefix: string, suffix: string, language: string)
    ensures var p := UserPrompt(DefaultSnapshot(), prefix, suffix, language);
      OccursAt(p, LanguageLine(language), 0) && !OccursAt(p, MarkdownIntro, 0)
  {
    var snapshot := DefaultSnapshot();
    MarkdownPreambleIff(snapshot, prefix, suffix, language);
    assert MarkdownSection(snapshot.markdownContext) == "" && SnippetSection(snapshot.codeSnippets) == "";
    LineFirst(LanguageLine(language), BeforeCursor, prefix, CursorMark, SuffixSection(suffix), Closing);
  }

  lemma LineFirst(l: string, b: string, x: string, c: string, f: string, cl: string)
    ensures OccursAt("" + "" + (l + b + x + c) + f + cl, l, 0)
  {
    assert "" + "" + (l + b + x + c) + f + cl == l + (b + x + c + f + cl);
    AtStart(l, b + x + c + f + cl);
  }

  // Sequence-algebra steps (associativity, slicing) written out as lemmas
  // because the verifier does not find them unaided in large contexts. They
  // state nothing about the program.
  lemma Append2(s: string, a: string, b: string)
    ensures s + a + b == s + (a + b)
  {
  }

  lemma Append3(s: string, a: string, b: string, c: string)
    ensures s + a + b + c == s + (a + b + c)
  {
  }

  lemma Append4(s: string, a: string, b: string, c: string, d: string)
    ensures s + a + b + c + d == s + (a + b + c + d)
  {
  }

  lemma Nest5(m: string, s: string, c: string, f: string, cl: string)
    ensures m + s + c + f + cl == m + (s + (c + (f + cl)))
  {
  }
}
