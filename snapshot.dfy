/** The in-memory session state shared by the loader, the watcher and the
    prompt builder.

    The snapshot record here is the union of the fields the three of them use:
    the loader fills `chatMessages` and one snippet list (which it calls the
    code contexts), the watcher patches `markdownCache` and `fileCache`, and the
    prompt builder reads `markdownContext` and the snippet list (which it calls
    the code snippets). One list, `codeSnippets`, stands for both names. */
module Snapshot {
  import opened Wrappers

  type uint32 = n: int | 0 <= n < 0x1_0000_0000
  type uint64 = n: int | 0 <= n < 0x1_0000_0000_0000_0000

  /** One chat message, as `{role, content}` in `chat.json`. */
  datatype ChatMessage = ChatMessage(role: string, content: string)

  /** A code snippet from another file: lines `startLine` (0-indexed) up to but
      not including `endLine` of the file at `uri`, with the extracted `code`. */
  datatype CodeContext = CodeContext(
    uri: string,
    startLine: uint32,
    endLine: uint32,
    languageId: string,
    code: string,
    description: Option<string>,
    lastModified: string)

  /** Token limits for model completion (`max_tokens` is a 64-bit `usize`). */
  datatype Limits = Limits(maxTokens: uint64)

  datatype ContextSnapshot = ContextSnapshot(
    sessionId: string,
    version: uint64,
    limits: Limits,
    chatMessages: seq<ChatMessage>,
    markdownContext: string,
    codeSnippets: seq<CodeContext>,
    markdownCache: map<string, string>,
    fileCache: map<string, string>)

  /** `Limits::default()`. */
  function DefaultLimits(): (l: Limits)
    ensures l.maxTokens == 1600
  {
    Limits(1600)
  }

  /** `ContextSnapshot::default()`: the placeholder session used before a real
      one is loaded. */
  function DefaultSnapshot(): (s: ContextSnapshot)
    ensures s.sessionId == "default" && s.version == 0
    ensures s.limits == DefaultLimits()
    ensures s.markdownContext == "" && s.codeSnippets == []
  {
    ContextSnapshot("default", 0, DefaultLimits(), [], "", [], map[], map[])
  }
}
