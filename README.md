# snek core, modelled in Dafny

snek is a Language Server Protocol server that asks a chat-completion model to
complete code. Completion context comes from a session directory under
`.snek/`:

- `active.json` names the active session;
- each session directory holds `session.json`, `chat.json` and `context.json`;
- markdown files live under `context/`.

This project models the sequential core of the server and proves what it
promises:

- `wrappers.dfy`: `Option`, `Result` and `Min`.
- `text.dfy`: the Rust string operations the core relies on, with their
  exact semantics:
  - `str::lines`: split on `\n`, strip one trailing `\r`, no empty last
    line after a final newline;
  - `join`;
  - `trim`;
  - decimal formatting of integers.
- `paths.dfy`: paths as component lists, and `join`, `file_name`, `parent`,
  `extension` and `starts_with`. The file system is a well-formed map from
  paths to files and directories, with `read_to_string`, `write` and
  `create_dir_all`.
- `snapshot.dfy`: the session snapshot and its `Default` values.
  - The record is the union of the fields that the loader, the watcher and
    the prompt builder use.
  - One snippet list stands for both `code_contexts` (as the loader calls
    it) and `code_snippets` (as the prompt builder calls it).
  - `snapshot.rs` declares only `markdown_context` and `code_snippets`.
    The code of the other modules is followed here.
- `session_io.rs` → `session_io.dfy`:
  - resolving the active session;
  - loading a snapshot;
  - re-extracting a snippet's lines from its file;
  - finding or creating the workspace root;
  - writing a default session, then proving that it loads back.
- `document_store.rs` → `document_store.dfy`: the single-document store as a
  class, and the cursor-offset computation of `get_context`.
- `model.rs` → `model.dfy`: `build_messages` as an imperative string
  builder, proved equal to a functional specification of the prompt; the
  request fields; the first-choice selection of `complete`.
- `watcher.rs` → `watcher.dfy`: the watch loop as a class.
  - `OnEvent` classifies each changed path into pending work.
  - `Flush` carries out the pending work in the loop's fixed order:
    snippet reload, then markdown cache, then file cache.
  - The start-up watch set, the reload's diff of the watched files, and the
    two cache updaters are modelled too.

JSON encoding and decoding, `file://` URI conversion, the clock and the
session-id generator are parameters:

- a `Codecs` record of functions;
- a non-empty `Timestamp`;
- a `SessionId` that is one path component.

The set of paths registered with the operating system's watcher is the ghost
field `watches`. Every published snapshot is kept in order in the ghost field
`published`. A loop over a hash set is modelled with a ghost sequence
(`order`) that lists the set's members once each. Lemmas show that the
outcome for each cache key does not depend on that order.

## Model

| member | source | states |
|---|---|---|
| Text.Lines | src/session_io.rs:195 | `str::lines`: the text yields no lines exactly when it is empty, and no line holds a newline. |
| Text.UnlinesOfLines | src/session_io.rs:195 | For text without carriage returns, the lines `str::lines` yields, each followed by a newline, give back the text (plus a final newline when the text lacked one): no character is lost or invented. |
| Text.Join | src/session_io.rs:204 | `join`: the parts in order with one separator between neighbours, so the result is as long as the parts plus one separator fewer than there are parts, and it opens with the first part. |
| Text.JoinedLinesInText | src/session_io.rs:203-204 | For text without carriage returns, lines `a..b` joined with `"\n"` are exactly the text from the start of line `a` up to the newline that ends line `b-1`. |
| Text.LineInText | src/document_store.rs:79-84 | For text without carriage returns, line `k` sits in the text at the sum of `(len+1)` over the earlier lines, and a newline precedes it when `k > 0`. |
| Text.Trim | src/model.rs:193 | `trim`: strips leading and trailing white space, where white space is the Unicode White_Space set. Its property is stated by Text.TrimEmptyIff. |
| Text.TrimEmptyIff | src/model.rs:193 | `trim` gives the empty string exactly when every character is whitespace. |
| Text.Decimal | src/model.rs:168-175 | A number is formatted as a non-empty run of decimal digits, with no leading zero unless the number is 0. |
| Text.DecimalRoundTrip | src/model.rs:168-175 | Reading the formatted digits back gives the number. |
| Paths.JoinPath | src/session_io.rs:139 | Joining an absolute path gives that path. Otherwise the result extends the base with the relative path's components. |
| Paths.FileName | src/watcher.rs:105 | The file name exists exactly when the path has a last component other than `..`, and it is that component. |
| Paths.Parent | src/watcher.rs:106 | The parent exists exactly when the path has components; joining the last component back onto it gives the path. |
| Paths.LastDot | src/watcher.rs:126 | The position of the last `.` in a file name, or none when there is no dot. |
| Paths.ExtensionMd | src/watcher.rs:126 | The extension is `md` exactly when the file name ends in `.md` with at least one character before it. |
| Paths.Extension | src/watcher.rs:126 | `Path::extension`: there is an extension exactly when the file name exists and has a `.` after its first character; the extension is then the text after the last such `.`, and holds no `.`. With no file name, no dot, or only a leading dot, there is none. |
| Paths.ChildStartsWith | src/watcher.rs:127 | A path joined onto a base starts with the base, and its parent is the base. |
| Paths.Read | src/session_io.rs:135 | A read succeeds exactly when the path is a file, and it returns the file's contents. |
| Paths.CreateDirAll | src/session_io.rs:68 | Fails exactly when a non-directory stands on the way. On success the directory exists, every existing entry is kept, and only directories along the path are added. |
| Paths.Write | src/session_io.rs:93-96 | A write succeeds exactly when the parent is a directory and the target is not one. Reading the target back gives the content, and every other entry is unchanged. |
| Snapshot.DefaultLimits | src/snapshot.rs:35-39 | `Limits::default()` allows 1600 tokens. |
| Snapshot.DefaultSnapshot | src/snapshot.rs:56-66 | The default snapshot has session id `default`, version 0, the default limits, no markdown context and no snippets. |
| SessionIo.ResolveActiveSession | src/session_io.rs:133-140 | Fails with a read error exactly when `active.json` does not read, and succeeds exactly when it reads and parses. The result is the root joined with the recorded `path`. |
| SessionIo.ResolveReadsOnlyActive | src/session_io.rs:133-140 | The result depends on `active.json` alone; in particular, whether the session directory exists is not checked. |
| SessionIo.LoadChat | src/session_io.rs:151-161 | Fails exactly when `chat.json` exists but does not read or parse. Otherwise it gives the file's messages, or none when the file is absent. |
| SessionIo.LoadContexts | src/session_io.rs:163-173 | The same for `context.json` and its code contexts. |
| SessionIo.LoadSnapshot | src/session_io.rs:143-182 | Succeeds exactly when `session.json` reads and parses and both optional files are absent or well-formed. The id, version and limits come from `session.json`, and messages and contexts keep file order. The markdown context and both caches are empty. |
| SessionIo.UpdateContextFromFile | src/session_io.rs:185-208 | Fails when the file is unavailable. Fails with `StartLineBeyondEnd` exactly when `start_line >= n`. Succeeds exactly when `start_line < n` and `start_line <= end_line`. On failure the context is unchanged. On success only `code`, which becomes lines `[start, min(end, n))` joined by `"\n"`, and the non-empty `last_modified` change. |
| SessionIo.ExtractedCodeIsFileSlice | src/session_io.rs:195-204 | For a file without carriage returns, the extracted code is the contiguous slice of the file text covering those lines, or empty when the range is empty. |
| SessionIo.InitializeDefaultSession | src/session_io.rs:79-130 | Succeeds exactly when the session directory can be created and all four files written. It then leaves the four default files in place. Whatever the outcome, nothing is changed except directories on the way to the session and the four targets. |
| SessionIo.WriteProgress | src/session_io.rs:93-127 | Each of the four writes in turn either fails, in which case initialisation cannot succeed, or adds its file and keeps the earlier ones. |
| SessionIo.RootSurvivesInit | src/session_io.rs:79-130 | Initialisation leaves the `.snek` root a directory. |
| SessionIo.DefaultSessionLoadsBack | src/session_io.rs:85-127 | After the default session is written, resolving gives `root/sessions/<id>`. Loading that directory gives id `<id>`, version 0, 1600 tokens, no messages and no contexts. |
| SessionIo.FindWorkspaceRoot | src/session_io.rs:53-74 | When some ancestor of the current directory has a `.snek` directory, returns the nearest one and changes nothing. Otherwise it creates `cwd/.snek` with a default session, succeeding exactly when that can be done. Then every entry except the four default files keeps its node, and the only new entries besides those files are directories on the way to the session directory. When `cwd/.snek` cannot be created, nothing changes. |
| SessionIo.SearchSnekDir | src/session_io.rs:57-73 | The upward walk finds a `.snek` directory exactly when some ancestor of the current directory (itself included) has one, and then it is the nearest such one. |
| SessionIo.CreateWorkspace | src/session_io.rs:66-70 | Creating `cwd/.snek` and a default session in it succeeds exactly when the directory can be created and the session written, and then returns `cwd/.snek`. Whatever the outcome, only the four default files and directories on the way to the session directory change. When the directory cannot be created, nothing changes. |
| SessionIo.WorkspaceFramed | src/session_io.rs:68-69 | Creating the root and then initialising a session in it changes no more than initialising alone would, because the directories on the way to the root are on the way to the session directory. |
| Documents.DocumentStore.constructor | src/document_store.rs:27-29 | A new store holds no document. |
| Documents.DocumentStore.DidOpen | src/document_store.rs:32-39 | The opened document replaces whatever was stored. |
| Documents.DocumentStore.DidChange | src/document_store.rs:42-48 | Replaces the text only when the stored URI matches; the URI and language never change, and any other call changes nothing. |
| Documents.DocumentStore.DidClose | src/document_store.rs:51-57 | Empties the slot exactly when the stored URI matches; otherwise nothing changes. |
| Documents.CursorOffset | src/document_store.rs:79-92 | The cursor offset `get_context` computes never exceeds the text's length. For a cursor on an existing line it is at least the start of that line, capped at the text's length, and at most that start plus `character`. The exact value is stated by Documents.CursorWithinLine and Documents.CursorClamped. |
| Documents.DocumentStore.GetContext | src/document_store.rs:65-99 | Returns nothing exactly when no document or a different one is stored, and never changes the store. Otherwise prefix followed by suffix is the text, the prefix ends at the cursor offset, and the language is the stored one. |
| Documents.CursorClamped | src/document_store.rs:79-88 | For text without carriage returns, a `character` past the end of an existing line is clamped to the line's length: the offset is the line's start plus its length, and the text before it ends with the whole line. |
| Documents.CursorWithinLine | src/document_store.rs:79-92 | For a cursor inside a line, the offset is the line's start plus `character`. The text before it ends with the line's first `character` characters, preceded by a newline on later lines. |
| Documents.CursorPastLastLine | src/document_store.rs:82-92 | For text without carriage returns, a line at or past the last one puts the whole text before the cursor. |
| Documents.CursorExample | tests/document_store_test.rs:77-91 | Line 1, character 0 of `"abc\ndef\nghi"` is offset 4. |
| Documents.CrLfDrift | src/document_store.rs:79-84 | With a `\r\n` line ending the offset counts one character per line break and falls before the newline. |
| Model.UserPrompt | src/model.rs:151-199 | The user message: the markdown preamble, the snippet section, the language line with the code before the cursor, the code after the cursor when it is not blank, then the closing sentence. Its properties are stated by the `Model` lemmas below. |
| Model.BuildMessages | src/model.rs:136-207 | Exactly two messages: the fixed system prompt, then the user message the prompt specification describes. |
| Model.PrepareRequest | src/model.rs:79-92 | The request names the model, carries those messages and the snapshot's `max_tokens`, does not stream, and disables thinking. |
| Model.FirstChoiceContent | src/model.rs:123-127 | The completion is the first choice's content, or empty when there are no choices. |
| Model.MarkdownPreambleIff | src/model.rs:154-161 | The prompt opens with the markdown preamble exactly when the markdown context is non-empty. It then holds the context verbatim between the preamble and the separator. |
| Model.SnippetSectionIff | src/model.rs:164-182 | The snippet section follows exactly when there are snippets. |
| Model.SnippetListPrefix | src/model.rs:167-180 | The blocks of the first `j` snippets open the snippet list, so snippets appear in list order. |
| Model.SnippetInList | src/model.rs:167-180 | Snippet `i` appears as block number `i+1` right after the blocks of the snippets before it. |
| Model.SnippetBlocksInPrompt | src/model.rs:164-182 | Every snippet's numbered block, with URI, line range, language and code, occurs in the prompt at its place in the section. |
| Model.DescriptionLineIff | src/model.rs:176-178 | A snippet block has a `Description:` line after its header exactly when the snippet has a description, and the line carries it verbatim. |
| Model.PrefixBetweenMarkers | src/model.rs:189-191 | The prefix appears verbatim between "Code before cursor:" with its opening fence and the `<CURSOR>` marker. |
| Model.SuffixBlockIff | src/model.rs:193-197 | The "Code after cursor" block follows the cursor section exactly when the suffix has a non-whitespace character, and it then holds the suffix verbatim. |
| Model.EndsWithClosing | src/model.rs:199 | The user message always ends with the fixed "Generate ONLY the code..." sentence. |
| Model.DefaultSnapshotPrompt | src/model.rs:154-188 | With the default snapshot the prompt opens directly with the language line, with no markdown preamble. |
| Watcher.Classify | src/watcher.rs:105-135 | The class of a changed path is the first of the event loop's four tests that matches: `active.json` under the root, a `code_snippets.json`, a `.md` file under `context/`, then a watched file. Its properties are stated by the lemmas Watcher.ActiveJsonIsOnlyReported, Watcher.ReloadIff, Watcher.MarkdownIff and Watcher.CodeIff. |
| Watcher.UriPathsMembers | src/watcher.rs:182-190 | A path is among the new files exactly when some snippet's URI converts to it. |
| Watcher.FirstSnippetFor | src/watcher.rs:258-273 | Finds the first snippet from a position whose URI converts to the path: no earlier one does. It finds none exactly when no later snippet does. |
| Watcher.EntryOf | src/watcher.rs:256-276 | A changed path has a file-cache key exactly when some snippet refers to it. The key is a URI that converts to the path. |
| Watcher.SessionWatcher.Start | src/watcher.rs:25-83 | Fails exactly when resolving the active session fails, with its error. Otherwise the loop starts idle. It watches the existing code files of the current snippets. It registers `active.json`, `code_snippets.json` and `context/` when they exist, plus those code files. |
| Watcher.SessionWatcher.OnEvent | src/watcher.rs:102-136 | An event only adds to the pending work. The reload flag is set when some path is classified as `code_snippets.json`. The markdown and code sets gain exactly the paths classified for them, without duplicates. The watcher's invariant is kept. |
| Watcher.SessionWatcher.Schedule | src/watcher.rs:104-135 | One path adds exactly the work of its first-matching class, and a session switch adds none. |
| Watcher.SessionWatcher.ReloadCodeSnippets | src/watcher.rs:169-214 | On a load failure nothing changes. On success the watched files become exactly the new snippets' paths. Files no longer named are unregistered, and newly named files that exist are registered. The new snapshot is published. |
| Watcher.SessionWatcher.UpdateMarkdownCache | src/watcher.rs:217-245 | Patches a copy of the markdown cache once per changed path, in an order that lists each changed path once. Every other snapshot field is kept, and the copy is published. |
| Watcher.SessionWatcher.UpdateCodeCache | src/watcher.rs:248-280 | Patches a copy of the file cache once per changed path through its first snippet. The snippet list and other fields are kept, and the copy is published even when nothing changed. |
| Watcher.SessionWatcher.Flush | src/watcher.rs:138-163 | A pending reload runs first. Its flag is cleared and pending code work is dropped whether or not it succeeds. Markdown work is then applied to the resulting snapshot, then any remaining code work. Afterwards nothing is pending. The registered watches change only through the reload's diff. One snapshot is published per step taken, earlier publications are kept, and the last one published is the new snapshot. When two steps run, the first publication is the reloaded snapshot, or the snapshot with only its markdown cache patched. |
| Watcher.SessionWatcher.ApplyCacheUpdates | src/watcher.rs:154-162 | Pending markdown updates are applied and cleared, then pending code updates, each step only when it has work and each publishing once. Earlier publications are kept, and the last one published is the new snapshot. When both steps run, the first publication is the old snapshot with only its markdown cache patched. Every snapshot field but the two caches is kept. |
| Watcher.SessionWatcher.PendingCodeHasEntry | src/watcher.rs:132-135 | While the watcher's invariant holds, every pending code path has a file-cache key to update: some snippet of the current snapshot names it. |
| Watcher.ActiveJsonIsOnlyReported | src/watcher.rs:105-119 | A change to the root's `active.json` is classified as a session switch and schedules no work. |
| Watcher.ReloadIff | src/watcher.rs:121-124 | A path schedules a reload exactly when its file name is `code_snippets.json`, in whatever directory. |
| Watcher.MarkdownIff | src/watcher.rs:126-130 | A path is markdown work exactly when it is a `.md` file under the session's `context` directory. |
| Watcher.CodeIff | src/watcher.rs:132-135 | Only watched files are code work, and every watched file that is not a session file is. |
| Watcher.OfKindSound | src/watcher.rs:126-135 | An event's markdown paths are `.md` files under `context/`, and its code paths are watched. |
| Watcher.MarkdownFold | src/watcher.rs:225-242 | The markdown cache after the loop visits the changed paths in a given order. Each step sets, removes or keeps the entry named after the file. Its properties are stated by Watcher.MarkdownFoldOf and Watcher.MarkdownFoldElsewhere. |
| Watcher.MarkdownFoldOf | src/watcher.rs:225-242 | The entry named after a changed file is that file's content when the file exists and reads, absent when the file is gone, and unchanged when the file does not read. This holds in any visiting order. |
| Watcher.MarkdownFoldElsewhere | src/watcher.rs:225-242 | An entry named after no changed file keeps its value. |
| Watcher.CodeFold | src/watcher.rs:256-277 | The file cache after the loop visits the changed paths in a given order, each step going through the path's first snippet. Its properties are stated by Watcher.CodeFoldOf and Watcher.CodeFoldElsewhere. |
| Watcher.CodeFoldOf | src/watcher.rs:256-277 | The entry of a changed file's first snippet follows that file alone, in the same three cases, in any visiting order. |
| Watcher.CodeFoldElsewhere | src/watcher.rs:256-277 | An entry that is the key of no changed file keeps its value. |

## Left out

- The operating-system watcher (`notify`), the event channel, `tokio::select!`
  and the 200 ms debounce timer. Events are calls to `OnEvent`; the timer's
  expiry is a call to `Flush`.
- `ArcSwap` and `RwLock`. Publishing a snapshot is a field assignment, and the
  document store is single-threaded.
- serde JSON decoding and encoding, `Url::parse` / `to_file_path`, `chrono` and
  `uuid`. These are parameters: `Codecs`, `Timestamp` and `SessionId`. Every
  URI failure in `update_context_from_file` is one `InvalidUri` error.
- The HTTP exchange in `complete`: request sending, status handling and
  response decoding. The `f32` temperature is not modelled either; the request
  keeps only its integral and textual fields.
- The LSP transport (`src/lsp/`, `src/main.rs`), including the `trim_start` of
  the returned completion.
- UTF-8: text is one `char` per byte, so the panic of slicing off a character
  boundary in `get_context` is not modelled.
- Text.Trim: because text is one `char` per byte, a multi-byte white-space
  character (U+00A0 as bytes C2 A0, U+3000 as E3 80 80) is not white space
  here, while the bytes 0x85 and 0xA0 are, even as UTF-8 continuation bytes.
  A suffix made only of multi-byte white space therefore gets a "Code after
  cursor" block in the model, where Rust's `trim` leaves it out.
- `eprintln!` logging. A session switch in the event loop only logs, and is
  modelled as adding no work.
- Watcher.SessionWatcher.Start: every `watch` call is assumed to succeed, so a
  failing watch neither fails start-up nor keeps a file out of
  `watched_files`. A failure to create the OS watcher is not modelled.
- Watcher.SessionWatcher.ReloadCodeSnippets: every `watch` and `unwatch` call is
  assumed to succeed.
- SessionIo.LoadSnapshot: as written, the loader fills neither caches nor the
  markdown context. A reload therefore publishes empty caches, although the
  comment at src/watcher.rs:178 says the loaded snapshot repopulates them. The
  model follows the code.
- Watcher.MarkdownFoldOf: the markdown cache is keyed by file name only. When
  two changed paths share a file name, the winner depends on the hash-set
  order, so the lemma requires the name to be unique among the changed paths.
- Paths.CreateDirAll: a failed `create_dir_all` is modelled as creating
  nothing. The real call may leave some of the directories it made before
  failing.
- SessionIo.UpdateContextFromFile: `lines[start..end]` with `end < start`
  panics in Rust; here it is the error `SliceOutOfOrder`.
- Documents.CursorWithinLine: stated for text without carriage returns. With
  `\r\n` endings the offset counts one character per line break and drifts, as
  Documents.CrLfDrift shows.
- Documents.DocumentStore.GetContext: a line longer than 2^32 - 1 characters
  has its length truncated to 32 bits as in the source. The lemmas assume
  shorter lines.
- The file system is a well-formed map: every entry's parent is a directory.
  Path normalisation such as `.` components is not modelled, and permissions
  are reduced to "reads or does not read".
- Paths.Write: a write never fails for lack of permission. A read-only file,
  such as a read-only `active.json`, is overwritten, where `fs::write` fails.
  SessionIo.InitializeDefaultSession therefore succeeds in some cases where
  the source fails.
- SessionIo.FindWorkspaceRoot: the current directory is a parameter, so the
  failure of `std::env::current_dir()` is not modelled.
