/** Reading and writing the session files under the `.snek/` directory:
    `active.json` names the active session directory, which holds
    `session.json` (id, version, limits), an optional `chat.json` and an
    optional `context.json`.

    JSON encoding and decoding, file-URI conversion, the clock and the session
    id generator are outside the model: they are given as parameters. */
module SessionIo {
  import opened Wrappers
  import opened Text
  import opened Paths
  import opened Snapshot

  datatype ActiveJson = ActiveJson(schema: uint32, id: string, path: string)

  datatype SessionJson = SessionJson(
    schema: uint32, id: string, name: string, version: uint64, limits: Limits, updatedAt: string)

  datatype ChatJson = ChatJson(schema: uint32, messages: seq<ChatMessage>)

  datatype ContextJson = ContextJson(schema: uint32, contexts: seq<CodeContext>)

  /** JSON decoding (`None` when the text does not decode) and encoding of the
      four session files, and the conversion of a `file://` URI to a path
      (`None` when the URI does not parse or is not a file URI). */
  datatype Codecs = Codecs(
    parseActive: string -> Option<ActiveJson>,
    parseSession: string -> Option<SessionJson>,
    parseChat: string -> Option<ChatJson>,
    parseContext: string -> Option<ContextJson>,
    showActive: ActiveJson -> string,
    showSession: SessionJson -> string,
    showChat: ChatJson -> string,
    showContext: ContextJson -> string,
    fileOfUri: string -> Option<Path>)

  /** Decoding what was encoded gives back the same record. */
  ghost predicate RoundTrips(c: Codecs)
  {
    && (forall a :: c.parseActive(c.showActive(a)) == Some(a))
    && (forall s :: c.parseSession(c.showSession(s)) == Some(s))
    && (forall m :: c.parseChat(c.showChat(m)) == Some(m))
    && (forall x :: c.parseContext(c.showContext(x)) == Some(x))
  }

  /** An RFC 3339 timestamp from the clock: never empty. */
  type Timestamp = s: string | |s| > 0 witness "1970-01-01T00:00:00+00:00"

  /** A freshly generated session id (a hyphenated UUID): one path component. */
  type SessionId = s: string | IsComponent(s) witness "0"

  datatype Error =
    | ReadFailed(path: Path)
    | ParseFailed(path: Path)
    | InvalidUri(uri: string)
    | StartLineBeyondEnd(start: nat, length: nat)
    | SliceOutOfOrder(start: nat, end: nat)
    | CreateDirFailed(path: Path)
    | WriteFailed(path: Path)

  function Need<T>(o: Option<T>, e: Error): (r: Result<T, Error>)
    ensures r.Success? <==> o.Some?
  {
    if o.Some? then Success(o.value) else Failure(e)
  }

  /** `resolve_active_session`: the root joined with the `path` recorded in
      `active.json`. */
  function ResolveActiveSession(fs: FileSystem, codecs: Codecs, root: Path): (r: Result<Path, Error>)
    ensures var active := Child(root, "active.json");
      && (Read(fs, active).None? <==> r == Failure(ReadFailed(active)))
      && (r.Success? <==> Read(fs, active).Some? && codecs.parseActive(Read(fs, active).value).Some?)
      && (r.Success? ==>
            r.value == JoinPath(root, ParsePath(codecs.parseActive(Read(fs, active).value).value.path)))
  {
    var active := Child(root, "active.json");
    var content :- Need(Read(fs, active), ReadFailed(active));
    var record :- Need(codecs.parseActive(content), ParseFailed(active));
    Success(JoinPath(root, ParsePath(record.path)))
  }

  /** The resolved session directory depends on `active.json` alone: in
      particular it is not checked to exist. */
  lemma ResolveReadsOnlyActive(fs1: FileSystem, fs2: FileSystem, codecs: Codecs, root: Path)
    requires Read(fs1, Child(root, "active.json")) == Read(fs2, Child(root, "active.json"))
    ensures ResolveActiveSession(fs1, codecs, root) == ResolveActiveSession(fs2, codecs, root)
  {
  }

  /** An optional session file is fine when it is absent, or present, readable
      and decodable. */
  predicate OptionalOk<T>(fs: FileSystem, p: Path, parse: string -> Option<T>)
  {
    !Exists(fs, p) || (Read(fs, p).Some? && parse(Read(fs, p).value).Some?)
  }

  /** The messages of `chat.json`, or none when the file is absent. */
  function LoadChat(fs: FileSystem, codecs: Codecs, dir: Path): (r: Result<seq<ChatMessage>, Error>)
    ensures var p := Child(dir, "chat.json");
      && (r.Success? <==> OptionalOk(fs, p, codecs.parseChat))
      && (r.Success? && !Exists(fs, p) ==> r.value == [])
      && (r.Success? && Exists(fs, p) ==> r.value == codecs.parseChat(Read(fs, p).value).value.messages)
  {
    var p := Child(dir, "chat.json");
    if !Exists(fs, p) then Success([])
    else
      var content :- Need(Read(fs, p), ReadFailed(p));
      var chat :- Need(codecs.parseChat(content), ParseFailed(p));
      Success(chat.messages)
  }

  /** The contexts of `context.json`, or none when the file is absent. */
  function LoadContexts(fs: FileSystem, codecs: Codecs, dir: Path): (r: Result<seq<CodeContext>, Error>)
    ensures var p := Child(dir, "context.json");
      && (r.Success? <==> OptionalOk(fs, p, codecs.parseContext))
      && (r.Success? && !Exists(fs, p) ==> r.value == [])
      && (r.Success? && Exists(fs, p) ==> r.value == codecs.parseContext(Read(fs, p).value).value.contexts)
  {
    var p := Child(dir, "context.json");
    if !Exists(fs, p) then Success([])
    else
      var content :- Need(Read(fs, p), ReadFailed(p));
      var context :- Need(codecs.parseContext(content), ParseFailed(p));
      Success(context.contexts)
  }

  /** `session.json` is present, readable and decodable. */
  predicate SessionOk(fs: FileSystem, codecs: Codecs, dir: Path)
  {
    var p := Child(dir, "session.json");
    Read(fs, p).Some? && codecs.parseSession(Read(fs, p).value).Some?
  }

  /** `load_snapshot`: the session's identity and limits from `session.json`,
      its messages and code contexts in file order; no markdown and empty
      caches. */
  function LoadSnapshot(fs: FileSystem, codecs: Codecs, dir: Path): (r: Result<ContextSnapshot, Error>)
    ensures r.Success? <==>
      SessionOk(fs, codecs, dir)
      && OptionalOk(fs, Child(dir, "chat.json"), codecs.parseChat)
      && OptionalOk(fs, Child(dir, "context.json"), codecs.parseContext)
    ensures r.Success? ==>
      var session := codecs.parseSession(Read(fs, Child(dir, "session.json")).value).value;
      && r.value.sessionId == session.id
      && r.value.version == session.version
      && r.value.limits == session.limits
      && r.value.chatMessages == LoadChat(fs, codecs, dir).value
      && r.value.codeSnippets == LoadContexts(fs, codecs, dir).value
      && r.value.markdownContext == ""
      && r.value.markdownCache == map[] && r.value.fileCache == map[]
  {
    var p := Child(dir, "session.json");
    var content :- Need(Read(fs, p), ReadFailed(p));
    var session :- Need(codecs.parseSession(content), ParseFailed(p));
    var messages :- LoadChat(fs, codecs, dir);
    var contexts :- LoadContexts(fs, codecs, dir);
    Success(ContextSnapshot(session.id, session.version, session.limits, messages, "", contexts, map[], map[]))
  }

  /** The text of the file a URI names, when the URI converts and the file reads. */
  function FileText(fs: FileSystem, codecs: Codecs, uri: string): Option<string>
  {
    match codecs.fileOfUri(uri)
    case None => None
    case Some(p) => Read(fs, p)
  }

  /** `update_context_from_file`: re-extracts a snippet's code from its file,
      lines `startLine` up to `min(endLine, line count)` joined with newlines,
      and stamps it with `now`. On any failure the context is left exactly as
      it was. A range whose clipped end lies before its start makes the slice
      panic in the source; here it is the error `SliceOutOfOrder`. */
  method UpdateContextFromFile(fs: FileSystem, codecs: Codecs, ctx: CodeContext, now: Timestamp)
    returns (updated: CodeContext, r: Result<(), Error>)
    ensures r.Failure? ==> updated == ctx
    ensures FileText(fs, codecs, ctx.uri).None? ==> r.Failure?
    ensures FileText(fs, codecs, ctx.uri).Some? ==>
      var n := |Lines(FileText(fs, codecs, ctx.uri).value)|;
      && (r == Failure(StartLineBeyondEnd(ctx.startLine, n)) <==> ctx.startLine >= n)
      && (r.Success? <==> ctx.startLine < n && ctx.startLine <= ctx.endLine)
    ensures r.Success? ==>
      var lines := Lines(FileText(fs, codecs, ctx.uri).value);
      updated == ctx.(code := Join(lines[ctx.startLine..Min(ctx.endLine, |lines|)], "\n"),
                      lastModified := now)
  {
    var path := codecs.fileOfUri(ctx.uri);
    if path.None? {
      return ctx, Failure(InvalidUri(ctx.uri));
    }
    var content := Read(fs, path.value);
    if content.None? {
      return ctx, Failure(ReadFailed(path.value));
    }
    var lines := Lines(content.value);
    var start := ctx.startLine as nat;
    var end := Min(ctx.endLine, |lines|);
    if start >= |lines| {
      return ctx, Failure(StartLineBeyondEnd(start, |lines|));
    }
    if end < start {
      return ctx, Failure(SliceOutOfOrder(start, end));
    }
    updated := ctx.(code := Join(lines[start..end], "\n"), lastModified := now);
    r := Success(());
  }

  /** For a file without carriage returns, the extracted code is exactly the
      stretch of the file from the start of line `start` to the end of line
      `end - 1` (clipped to the file), without its final newline; it is empty
      when the clipped range is. */
  lemma ExtractedCodeIsFileSlice(text: string, start: nat, end: nat)
    requires '\r' !in text
    requires start < |Lines(text)| && start <= end
    ensures var lines := Lines(text);
      var stop := Min(end, |lines|);
      && (start == stop ==> Join(lines[start..stop], "\n") == "")
      && (start < stop ==>
            LineStart(lines, start) < LineStart(lines, stop) <= |text| + 1 &&
            Join(lines[start..stop], "\n") == text[LineStart(lines, start)..LineStart(lines, stop) - 1])
  {
    var stop := Min(end, |Lines(text)|);
    if start < stop {
      JoinedLinesInText(text, start, stop);
    }
  }

  /** The directory of session `id` under the root. */
  function SessionDir(root: Path, id: string): Path
  {
    Child(Child(root, "sessions"), id)
  }

  function DefaultSessionJson(id: string, now: Timestamp): SessionJson
  {
    SessionJson(1, id, "default", 0, DefaultLimits(), now)
  }

  function DefaultActiveJson(id: string): ActiveJson
  {
    ActiveJson(1, id, "sessions/" + id)
  }

  /** The four files `initialize_default_session` writes, in the order it
      writes them. */
  function DefaultFile(root: Path, id: string, i: nat): Path
    requires i < 4
  {
    if i == 0 then Child(SessionDir(root, id), "session.json")
    else if i == 1 then Child(SessionDir(root, id), "chat.json")
    else if i == 2 then Child(SessionDir(root, id), "context.json")
    else Child(root, "active.json")
  }

  /** What `initialize_default_session` writes into its `i`-th file. */
  function DefaultContent(codecs: Codecs, id: string, now: Timestamp, i: nat): string
    requires i < 4
  {
    if i == 0 then codecs.showSession(DefaultSessionJson(id, now))
    else if i == 1 then codecs.showChat(ChatJson(1, []))
    else if i == 2 then codecs.showContext(ContextJson(1, []))
    else codecs.showActive(DefaultActiveJson(id))
  }

  predicate IsDefaultTarget(root: Path, id: string, q: Path)
  {
    exists i :: 0 <= i < 4 && q == DefaultFile(root, id, i)
  }

  /** The default session files hold what `initialize_default_session` writes. */
  predicate DefaultSessionWritten(fs: FileSystem, codecs: Codecs, root: Path, id: string, now: Timestamp)
  {
    forall i :: 0 <= i < 4 ==> Read(fs, DefaultFile(root, id, i)) == Some(DefaultContent(codecs, id, now, i))
  }

  /** Nothing is in the way of the default session: no non-directory on the
      way to its directory and no directory where one of its files goes. */
  predicate InitCanSucceed(fs: FileSystem, root: Path, id: string)
  {
    !Blocked(fs, SessionDir(root, id)) &&
    forall i :: 0 <= i < 4 ==> !(DefaultFile(root, id, i) in fs && fs[DefaultFile(root, id, i)].Dir?)
  }

  /** Going from `fs` to `fs'` kept every entry other than the four files, and
      added, besides them, only directories on the way to the session
      directory. */
  ghost predicate InitFramed(fs: map<Path, Node>, fs': map<Path, Node>, root: Path, id: string)
  {
    && (forall q :: q in fs && !IsDefaultTarget(root, id, q) ==> q in fs' && fs'[q] == fs[q])
    && (forall q :: q in fs' && q !in fs && !IsDefaultTarget(root, id, q) ==>
          fs'[q] == Dir && StartsWith(SessionDir(root, id), q))
  }

  /** `initialize_default_session`: creates `sessions/<id>` under the root,
      writes `session.json` (version 0, 1600 tokens), an empty `chat.json`, an
      empty `context.json` and finally `active.json` pointing at the new
      session. It fails when a non-directory is in the way of the session
      directory or one of the four files is a directory; files written before
      a failing step stay written. */
  method InitializeDefaultSession(fs: FileSystem, codecs: Codecs, root: Path, id: SessionId, now: Timestamp)
    returns (fs': FileSystem, r: Result<(), Error>)
    ensures r.Success? <==> InitCanSucceed(fs, root, id)
    ensures r.Success? ==> DefaultSessionWritten(fs', codecs, root, id, now)
    ensures InitFramed(fs, fs', root, id)
  {
    var dir := SessionDir(root, id);
    var created := CreateDirAll(fs, dir);
    if created.None? {
      return fs, Failure(CreateDirFailed(dir));
    }
    fs' := created.value;
    CreatedProgress(fs, fs', codecs, root, id, now);
    var w := Write(fs', DefaultFile(root, id, 0), DefaultContent(codecs, id, now, 0));
    WriteProgress(fs, fs', codecs, root, id, now, 0);
    if w.None? {
      return fs', Failure(WriteFailed(DefaultFile(root, id, 0)));
    }
    fs' := w.value;
    w := Write(fs', DefaultFile(root, id, 1), DefaultContent(codecs, id, now, 1));
    WriteProgress(fs, fs', codecs, root, id, now, 1);
    if w.None? {
      return fs', Failure(WriteFailed(DefaultFile(root, id, 1)));
    }
    fs' := w.value;
    w := Write(fs', DefaultFile(root, id, 2), DefaultContent(codecs, id, now, 2));
    WriteProgress(fs, fs', codecs, root, id, now, 2);
    if w.None? {
      return fs', Failure(WriteFailed(DefaultFile(root, id, 2)));
    }
    fs' := w.value;
    w := Write(fs', DefaultFile(root, id, 3), DefaultContent(codecs, id, now, 3));
    WriteProgress(fs, fs', codecs, root, id, now, 3);
    if w.None? {
      return fs', Failure(WriteFailed(DefaultFile(root, id, 3)));
    }
    fs' := w.value;
    ProgressDone(fs, fs', codecs, root, id, now);
    r := Success(());
  }

  /** After the session directory is created and the first `n` files are
      written: those files hold their content and were not directories, the
      session directory and the root exist, the frame holds, and each of the
      four files is a directory exactly when it was one before. */
  ghost predicate Progress(fs: FileSystem, fs': FileSystem, codecs: Codecs, root: Path, id: string, now: Timestamp, n: nat)
    requires n <= 4
  {
    && !Blocked(fs, SessionDir(root, id))
    && IsDir(fs', SessionDir(root, id)) && IsDir(fs', root)
    && InitFramed(fs, fs', root, id)
    && (forall i :: 0 <= i < 4 ==>
          (DefaultFile(root, id, i) in fs' && fs'[DefaultFile(root, id, i)].Dir? <==>
           DefaultFile(root, id, i) in fs && fs[DefaultFile(root, id, i)].Dir?))
    && (forall i :: 0 <= i < n ==>
          Read(fs', DefaultFile(root, id, i)) == Some(DefaultContent(codecs, id, now, i)) &&
          !(DefaultFile(root, id, i) in fs && fs[DefaultFile(root, id, i)].Dir?))
  }

  lemma CreatedProgress(fs: FileSystem, fs': FileSystem, codecs: Codecs, root: Path, id: string, now: Timestamp)
    requires CreateDirAll(fs, SessionDir(root, id)) == Some(fs')
    ensures Progress(fs, fs', codecs, root, id, now, 0)
  {
    TargetsUnaffected(fs, fs', root, id);
    RootIsDir(fs', root, id);
  }

  lemma ProgressDone(fs: FileSystem, fs': FileSystem, codecs: Codecs, root: Path, id: string, now: Timestamp)
    requires Progress(fs, fs', codecs, root, id, now, 4)
    ensures InitCanSucceed(fs, root, id)
    ensures DefaultSessionWritten(fs', codecs, root, id, now)
    ensures InitFramed(fs, fs', root, id)
  {
  }

  /** Write number `n` of `initialize_default_session`: it fails only when the
      file is a directory, which it was from the start; otherwise progress
      reaches `n + 1`. */
  lemma WriteProgress(fs: FileSystem, fs': FileSystem, codecs: Codecs, root: Path, id: string, now: Timestamp, n: nat)
    requires n < 4 && Progress(fs, fs', codecs, root, id, now, n)
    ensures Write(fs', DefaultFile(root, id, n), DefaultContent(codecs, id, now, n)).None? ==>
      !InitCanSucceed(fs, root, id) && InitFramed(fs, fs', root, id)
    ensures Write(fs', DefaultFile(root, id, n), DefaultContent(codecs, id, now, n)).Some? ==>
      Progress(fs, Write(fs', DefaultFile(root, id, n), DefaultContent(codecs, id, now, n)).value, codecs, root, id, now, n + 1)
  {
    var t := DefaultFile(root, id, n);
    var content := DefaultContent(codecs, id, now, n);
    TargetShape(root, id, n);
    if Write(fs', t, content).Some? {
      var fs'' := Write(fs', t, content).value;
      assert fs'' == fs'[t := File(content)];
      WriteKeepsFrame(fs, fs', root, id, t, content);
      forall i | 0 <= i < 4
        ensures DefaultFile(root, id, i) in fs'' && fs''[DefaultFile(root, id, i)].Dir? <==>
                DefaultFile(root, id, i) in fs && fs[DefaultFile(root, id, i)].Dir?
      {
      }
      forall i | 0 <= i < n + 1
        ensures Read(fs'', DefaultFile(root, id, i)) == Some(DefaultContent(codecs, id, now, i))
      {
        if i < n {
          DefaultFilesDistinct(root, id, i, n);
        }
      }
    }
  }

  lemma DefaultFilesDistinct(root: Path, id: string, i: nat, j: nat)
    requires i < j < 4
    ensures DefaultFile(root, id, i) != DefaultFile(root, id, j)
  {
    if j == 3 {
      assert |DefaultFile(root, id, i).parts| != |DefaultFile(root, id, j).parts|;
    } else {
      var k := |root.parts| + 2;
      assert DefaultFile(root, id, i).parts[k] != DefaultFile(root, id, j).parts[k];
    }
  }

  lemma WriteKeepsFrame(fs: map<Path, Node>, fs': map<Path, Node>, root: Path, id: string, t: Path, content: string)
    requires InitFramed(fs, fs', root, id) && IsDefaultTarget(root, id, t)
    ensures InitFramed(fs, fs'[t := File(content)], root, id)
  {
  }

  /** Each of the four files sits directly in the session directory or the
      root, and is neither of them. */
  lemma TargetShape(root: Path, id: string, i: nat)
    requires i < 4
    ensures var t := DefaultFile(root, id, i);
      && t.parts != []
      && (Parent(t).value == SessionDir(root, id) || Parent(t).value == root)
      && t != SessionDir(root, id) && t != root
  {
    var t := DefaultFile(root, id, i);
    assert |t.parts| > |root.parts| && |t.parts| != |SessionDir(root, id).parts|;
  }

  /** None of the four files lies on the way to the session directory. */
  lemma TargetNotOnTheWay(root: Path, id: string, i: nat)
    requires i < 4
    ensures !StartsWith(SessionDir(root, id), DefaultFile(root, id, i))
  {
    var dir := SessionDir(root, id);
    var q := DefaultFile(root, id, i);
    if i == 3 {
      assert dir.parts[|root.parts|] != q.parts[|root.parts|];
    } else {
      assert |q.parts| > |dir.parts|;
    }
  }

  /** Creating the session directory adds only directories on the way to it,
      none of which is one of the four files. */
  lemma TargetsUnaffected(fs: FileSystem, fs': FileSystem, root: Path, id: string)
    requires Preserves(fs, fs') && OnlyDirsTo(fs, fs', SessionDir(root, id))
    ensures forall i :: 0 <= i < 4 ==> (DefaultFile(root, id, i) in fs' <==> DefaultFile(root, id, i) in fs)
    ensures InitFramed(fs, fs', root, id)
  {
    forall i | 0 <= i < 4
      ensures DefaultFile(root, id, i) in fs' <==> DefaultFile(root, id, i) in fs
    {
      TargetNotOnTheWay(root, id, i);
    }
  }

  /** Once the session directory exists, so does the root. */
  lemma RootIsDir(fs: FileSystem, root: Path, id: string)
    requires IsDir(fs, SessionDir(root, id))
    ensures IsDir(fs, root)
  {
    var dir := SessionDir(root, id);
    if root.parts != [] {
      assert Ancestor(dir, |root.parts|) == root;
    }
  }

  /** The `.snek` directory of an ancestor of `cwd`. */
  function SnekDirAt(cwd: Path, k: nat): Path
    requires k <= |cwd.parts|
  {
    Child(Ancestor(cwd, k), ".snek")
  }

  /** `d` is the `.snek` directory of the nearest ancestor of `cwd` that has one. */
  predicate NearestSnekDir(fs: map<Path, Node>, cwd: Path, d: Path)
  {
    exists k :: 0 <= k <= |cwd.parts| && d == SnekDirAt(cwd, k) && IsDir(fs, d) &&
      forall j :: k < j <= |cwd.parts| ==> !IsDir(fs, SnekDirAt(cwd, j))
  }

  predicate HasSnekAncestor(fs: map<Path, Node>, cwd: Path)
  {
    exists k :: 0 <= k <= |cwd.parts| && IsDir(fs, SnekDirAt(cwd, k))
  }

  /** `find_workspace_root`: the `.snek` directory of the nearest ancestor of
      `cwd` that has one; when there is none, creates `cwd/.snek` and a
      default session in it. */
  method FindWorkspaceRoot(fs: FileSystem, codecs: Codecs, cwd: Path, id: SessionId, now: Timestamp)
    returns (fs': FileSystem, r: Result<Path, Error>)
    ensures HasSnekAncestor(fs, cwd) ==> fs' == fs && r.Success? && NearestSnekDir(fs, cwd, r.value)
    ensures !HasSnekAncestor(fs, cwd) && r.Success? ==>
      r.value == Child(cwd, ".snek") && IsDir(fs', r.value) &&
      DefaultSessionWritten(fs', codecs, r.value, id, now)
    ensures !HasSnekAncestor(fs, cwd) ==>
      (r.Success? <==> CreateDirAll(fs, Child(cwd, ".snek")).Some? &&
                       InitCanSucceed(CreateDirAll(fs, Child(cwd, ".snek")).value, Child(cwd, ".snek"), id))
    ensures !HasSnekAncestor(fs, cwd) && CreateDirAll(fs, Child(cwd, ".snek")).None? ==> fs' == fs
    ensures !HasSnekAncestor(fs, cwd) ==> InitFramed(fs, fs', Child(cwd, ".snek"), id)
  {
    var found := SearchSnekDir(fs, cwd);
    if found.Some? {
      return fs, Success(found.value);
    }
    fs', r := CreateWorkspace(fs, codecs, cwd, id, now);
  }

  /** The loop of `find_workspace_root`: walks from `cwd` up to the root and
      stops at the first `.snek` directory. */
  method SearchSnekDir(fs: map<Path, Node>, cwd: Path) returns (found: Option<Path>)
    ensures found.Some? <==> HasSnekAncestor(fs, cwd)
    ensures found.Some? ==> NearestSnekDir(fs, cwd, found.value)
  {
    var path := cwd;
    ghost var k: nat := |cwd.parts|;
    while true
      invariant k <= |cwd.parts| && path == Ancestor(cwd, k) && |path.parts| == k
      invariant forall j :: k < j <= |cwd.parts| ==> !IsDir(fs, SnekDirAt(cwd, j))
      decreases k
    {
      var snek := Child(path, ".snek");
      if Exists(fs, snek) && IsDir(fs, snek) {
        assert snek == SnekDirAt(cwd, k);
        return Some(snek);
      }
      if k > 0 {
        AncestorParent(cwd, k);
      }
      match Parent(path)
      case None =>
        break;
      case Some(up) =>
        path := up;
        k := k - 1;
    }
    assert forall j :: 0 <= j <= |cwd.parts| ==> !IsDir(fs, SnekDirAt(cwd, j));
    return None;
  }

  /** The fallback of `find_workspace_root`: creates `cwd/.snek` and a default
      session in it. */
  method CreateWorkspace(fs: FileSystem, codecs: Codecs, cwd: Path, id: SessionId, now: Timestamp)
    returns (fs': FileSystem, r: Result<Path, Error>)
    ensures r.Success? ==>
      r.value == Child(cwd, ".snek") && IsDir(fs', r.value) &&
      DefaultSessionWritten(fs', codecs, r.value, id, now)
    ensures r.Success? <==> CreateDirAll(fs, Child(cwd, ".snek")).Some? &&
                            InitCanSucceed(CreateDirAll(fs, Child(cwd, ".snek")).value, Child(cwd, ".snek"), id)
    ensures CreateDirAll(fs, Child(cwd, ".snek")).None? ==> fs' == fs
    ensures InitFramed(fs, fs', Child(cwd, ".snek"), id)
  {
    var snek := Child(cwd, ".snek");
    var created := CreateDirAll(fs, snek);
    if created.None? {
      return fs, Failure(CreateDirFailed(snek));
    }
    var init;
    fs', init := InitializeDefaultSession(created.value, codecs, snek, id, now);
    WorkspaceFramed(fs, created.value, fs', snek, id);
    if init.Failure? {
      return fs', Failure(init.error);
    }
    RootSurvivesInit(created.value, fs', snek, id);
    r := Success(snek);
  }

  /** Creating the root and then initialising the session in it keeps the
      same frame as initialising alone: the directories on the way to the root
      are also on the way to the session directory. */
  lemma WorkspaceFramed(fs: map<Path, Node>, mid: map<Path, Node>, fs': map<Path, Node>, root: Path, id: string)
    requires Preserves(fs, mid) && OnlyDirsTo(fs, mid, root) && InitFramed(mid, fs', root, id)
    ensures InitFramed(fs, fs', root, id)
  {
    forall q | q in fs' && q !in fs && !IsDefaultTarget(root, id, q)
      ensures fs'[q] == Dir && StartsWith(SessionDir(root, id), q)
    {
      if q in mid {
        assert SessionDir(root, id).parts[..|q.parts|] == root.parts[..|q.parts|];
      }
    }
  }

  lemma RootSurvivesInit(fs: FileSystem, fs': FileSystem, root: Path, id: string)
    requires root.parts != [] && IsDir(fs, root) && InitFramed(fs, fs', root, id)
    ensures IsDir(fs', root)
  {
    forall i | 0 <= i < 4 ensures root != DefaultFile(root, id, i) {
      assert |root.parts| < |DefaultFile(root, id, i).parts|;
    }
  }

  /** Writing the default session and then loading it back gives the session
      `<id>` under `sessions/`, at version 0 with 1600 tokens, no messages and
      no code contexts. */
  lemma DefaultSessionLoadsBack(fs: FileSystem, codecs: Codecs, root: Path, id: SessionId, now: Timestamp)
    requires RoundTrips(codecs)
    requires DefaultSessionWritten(fs, codecs, root, id, now)
    ensures ResolveActiveSession(fs, codecs, root) == Success(SessionDir(root, id))
    ensures LoadSnapshot(fs, codecs, SessionDir(root, id)) ==
      Success(ContextSnapshot(id, 0, DefaultLimits(), [], "", [], map[], map[]))
  {
    assert Read(fs, DefaultFile(root, id, 0)) == Some(DefaultContent(codecs, id, now, 0));
    assert Read(fs, DefaultFile(root, id, 1)) == Some(DefaultContent(codecs, id, now, 1));
    assert Read(fs, DefaultFile(root, id, 2)) == Some(DefaultContent(codecs, id, now, 2));
    assert Read(fs, DefaultFile(root, id, 3)) == Some(DefaultContent(codecs, id, now, 3));
    ParseTwoComponents("sessions", id);
    assert "sessions" + "/" + id == "sessions/" + id;
    assert codecs.parseActive(codecs.showActive(DefaultActiveJson(id))) == Some(DefaultActiveJson(id));
    assert JoinPath(root, Path(false, ["sessions", id])) == SessionDir(root, id);
    var dir := SessionDir(root, id);
    assert codecs.parseSession(codecs.showSession(DefaultSessionJson(id, now))) == Some(DefaultSessionJson(id, now));
    assert codecs.parseChat(codecs.showChat(ChatJson(1, []))) == Some(ChatJson(1, []));
    assert codecs.parseContext(codecs.showContext(ContextJson(1, []))) == Some(ContextJson(1, []));
    assert LoadChat(fs, codecs, dir) == Success([]);
    assert LoadContexts(fs, codecs, dir) == Success([]);
    assert SessionOk(fs, codecs, dir);
    var loaded := LoadSnapshot(fs, codecs, dir);
    assert loaded.Success?;
    assert codecs.parseSession(Read(fs, Child(dir, "session.json")).value).value == DefaultSessionJson(id, now);
    assert loaded.value == ContextSnapshot(id, 0, DefaultLimits(), [], "", [], map[], map[]);
  }
}
