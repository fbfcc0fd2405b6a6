/** The watcher that keeps the published session snapshot in step with the
    files of the session: each file-change event is classified into pending
    work, and when the debounce period expires the pending work is carried out
    in a fixed order.

    The event channel, the timer and the operating system's watch registry are
    outside the model: events arrive as calls to `OnEvent`, the expiry of the
    debounce period is a call to `Flush`, and the paths registered with the
    operating system are the ghost set `watches`. */
module Watcher {
  import opened Wrappers
  import opened Text
  import opened Paths
  import opened Snapshot
  import opened SessionIo

  /** What a changed path means to the event loop. */
  datatype EventKind = SessionSwitched | SnippetsChanged | MarkdownChanged | CodeChanged | Unrelated

  /** The event loop's classification of a changed path: the first of its four
      tests that matches. */
  function Classify(p: Path, snekRoot: Path, sessionDir: Path, watched: set<Path>): EventKind
  {
    if FileName(p) == Some("active.json") && Parent(p) == Some(snekRoot) then SessionSwitched
    else if FileName(p) == Some("code_snippets.json") then SnippetsChanged
    else if Extension(p) == Some("md") && StartsWith(p, Child(sessionDir, "context")) then MarkdownChanged
    else if p in watched then CodeChanged
    else Unrelated
  }

  /** The paths of an event that are classified as `kind`. */
  function OfKind(paths: seq<Path>, kind: EventKind, snekRoot: Path, sessionDir: Path, watched: set<Path>): set<Path>
  {
    set p | p in paths && Classify(p, snekRoot, sessionDir, watched) == kind
  }

  /** The path a snippet's URI converts to, if it converts. */
  function UriPath(codecs: Codecs, c: CodeContext): set<Path>
  {
    match codecs.fileOfUri(c.uri)
    case None => {}
    case Some(p) => {p}
  }

  /** The paths the snippets' URIs convert to; URIs that do not convert are
      skipped. */
  function UriPaths(codecs: Codecs, snippets: seq<CodeContext>): set<Path>
  {
    if snippets == [] then {}
    else UriPaths(codecs, snippets[..|snippets| - 1]) + UriPath(codecs, snippets[|snippets| - 1])
  }

  /** The paths the loop registers at start-up besides the code files: the
      root's `active.json`, the session's `code_snippets.json` and its
      `context` directory, each when it exists. */
  function StartWatches(fs: FileSystem, snekRoot: Path, sessionDir: Path): set<Path>
  {
    var active := Child(snekRoot, "active.json");
    var snippets := Child(sessionDir, "code_snippets.json");
    var context := Child(sessionDir, "context");
    (if Exists(fs, active) then {active} else {})
      + (if Exists(fs, snippets) then {snippets} else {})
      + (if Exists(fs, context) then {context} else {})
  }

  /** `order` lists the members of `s`, each once: one order in which a loop
      over a hash set may visit them. */
  ghost predicate Enumerates(order: seq<Path>, s: set<Path>)
  {
    && (forall p :: p in order <==> p in s)
    && (forall i, j :: 0 <= i < j < |order| ==> order[i] != order[j])
  }

  /** `a` and `b` agree at key `k`: both lack it or both map it to the same value. */
  predicate SameAt(a: map<string, string>, b: map<string, string>, k: string)
  {
    (k in a <==> k in b) && (k in a ==> a[k] == b[k])
  }

  /** One iteration of `update_markdown_cache`: the entry named by the path's
      file name gets the file's content when the file exists and reads, is
      removed when the file does not exist, and is kept when it exists but
      does not read. */
  function MarkdownStep(fs: FileSystem, cache: map<string, string>, path: Path): map<string, string>
  {
    match FileName(path)
    case None => cache
    case Some(name) =>
      if Exists(fs, path) then
        match Read(fs, path)
        case Some(content) => cache[name := content]
        case None => cache
      else cache - {name}
  }

  /** The markdown cache after visiting the changed paths in `order`. */
  function MarkdownFold(fs: FileSystem, cache: map<string, string>, order: seq<Path>): map<string, string>
  {
    if order == [] then cache
    else MarkdownStep(fs, MarkdownFold(fs, cache, order[..|order| - 1]), order[|order| - 1])
  }

  /** The first snippet at or after `from` whose URI converts to `path`. */
  function FirstSnippetFor(codecs: Codecs, snippets: seq<CodeContext>, path: Path, from: nat): (r: Option<nat>)
    requires from <= |snippets|
    ensures r.Some? ==>
      && from <= r.value < |snippets|
      && codecs.fileOfUri(snippets[r.value].uri) == Some(path)
      && (forall j :: from <= j < r.value ==> codecs.fileOfUri(snippets[j].uri) != Some(path))
    ensures r.None? ==> forall j :: from <= j < |snippets| ==> codecs.fileOfUri(snippets[j].uri) != Some(path)
    decreases |snippets| - from
  {
    if from == |snippets| then None
    else if codecs.fileOfUri(snippets[from].uri) == Some(path) then Some(from)
    else FirstSnippetFor(codecs, snippets, path, from + 1)
  }

  /** The file-cache key a changed path updates: the URI of the first snippet
      that refers to it, if any. */
  function EntryOf(codecs: Codecs, snippets: seq<CodeContext>, path: Path): (r: Option<string>)
    ensures r.Some? ==> codecs.fileOfUri(r.value) == Some(path)
    ensures r.Some? <==> exists i :: 0 <= i < |snippets| && codecs.fileOfUri(snippets[i].uri) == Some(path)
  {
    match FirstSnippetFor(codecs, snippets, path, 0)
    case None => None
    case Some(i) => Some(snippets[i].uri)
  }

  /** One iteration of `update_code_cache`: the first snippet that refers to
      the path has its URI's entry set to the file's content when the file
      exists and reads, removed when the file does not exist, and kept when it
      exists but does not read; a path no snippet refers to changes nothing. */
  function CodeStep(fs: FileSystem, codecs: Codecs, snippets: seq<CodeContext>, cache: map<string, string>, path: Path)
    : map<string, string>
  {
    match EntryOf(codecs, snippets, path)
    case None => cache
    case Some(uri) =>
      if Exists(fs, path) then
        match Read(fs, path)
        case Some(content) => cache[uri := content]
        case None => cache
      else cache - {uri}
  }

  /** The file cache after visiting the changed paths in `order`. */
  function CodeFold(fs: FileSystem, codecs: Codecs, snippets: seq<CodeContext>, cache: map<string, string>, order: seq<Path>)
    : map<string, string>
  {
    if order == [] then cache
    else CodeStep(fs, codecs, snippets, CodeFold(fs, codecs, snippets, cache, order[..|order| - 1]), order[|order| - 1])
  }

  class SessionWatcher {
    const codecs: Codecs
    const snekRoot: Path
    const sessionDir: Path
    /** The published snapshot the completion handler reads. */
    var snapshot: ContextSnapshot
    /** Every snapshot stored so far, in order. */
    ghost var published: seq<ContextSnapshot>
    /** The code files whose changes refresh the file cache. */
    var watchedFiles: set<Path>
    /** The paths registered with the operating system's watcher. */
    ghost var watches: set<Path>
    var pendingReload: bool
    var pendingMarkdown: set<Path>
    var pendingCode: set<Path>

    /** Every watched code file is named by a snippet, every pending code path
        is watched and every pending markdown path is a `.md` file in the
        session's `context` directory. `Start` establishes it and `OnEvent` and
        `Flush` keep it; `PendingCodeHasEntry` draws its consequence for the
        file cache. */
    ghost predicate Valid()
      reads this
    {
      && watchedFiles <= UriPaths(codecs, snapshot.codeSnippets)
      && pendingCode <= watchedFiles
      && (forall p :: p in pendingMarkdown ==> Extension(p) == Some("md") && StartsWith(p, Child(sessionDir, "context")))
    }

    /** No work is pending. */
    predicate Idle()
      reads this
    {
      !pendingReload && pendingMarkdown == {} && pendingCode == {}
    }

    /** Under the invariant, the code cache update finds an entry for every
        pending code path: some snippet of the current snapshot names it. */
    lemma PendingCodeHasEntry(p: Path)
      requires Valid() && p in pendingCode
      ensures EntryOf(codecs, snapshot.codeSnippets, p).Some?
    {
      UriPathsMembers(codecs, snapshot.codeSnippets, p);
    }

    constructor (codecs: Codecs, snekRoot: Path, sessionDir: Path, snapshot: ContextSnapshot,
                 watchedFiles: set<Path>, ghost watches: set<Path>)
      ensures this.codecs == codecs && this.snekRoot == snekRoot && this.sessionDir == sessionDir
      ensures this.snapshot == snapshot && this.watchedFiles == watchedFiles && this.watches == watches
      ensures published == [] && Idle()
    {
      this.codecs := codecs;
      this.snekRoot := snekRoot;
      this.sessionDir := sessionDir;
      this.snapshot := snapshot;
      this.watchedFiles := watchedFiles;
      this.watches := watches;
      published := [];
      pendingReload := false;
      pendingMarkdown := {};
      pendingCode := {};
    }

    /** `SessionWatcher::start`: resolves the active session (failing as that
        does), then watches the code file of every snippet of the current
        snapshot whose URI converts and whose file exists. */
    static method Start(fs: FileSystem, codecs: Codecs, snekRoot: Path, current: ContextSnapshot)
      returns (r: Result<SessionWatcher, Error>)
      ensures var resolved := ResolveActiveSession(fs, codecs, snekRoot);
        && (r.Failure? <==> resolved.Failure?)
        && (r.Failure? ==> r.error == resolved.error)
        && (r.Success? ==>
              && fresh(r.value) && r.value.Valid() && r.value.Idle()
              && r.value.codecs == codecs && r.value.snekRoot == snekRoot
              && r.value.sessionDir == resolved.value
              && r.value.snapshot == current
              && r.value.watchedFiles == (set p | p in UriPaths(codecs, current.codeSnippets) && Exists(fs, p))
              && r.value.watches == StartWatches(fs, snekRoot, resolved.value) + r.value.watchedFiles)
    {
      var resolved := ResolveActiveSession(fs, codecs, snekRoot);
      if resolved.Failure? {
        return Failure(resolved.error);
      }
      var sessionDir := resolved.value;
      var snippets := current.codeSnippets;
      var watched: set<Path> := {};
      for i := 0 to |snippets|
        invariant watched == set p | p in UriPaths(codecs, snippets[..i]) && Exists(fs, p)
      {
        var path := codecs.fileOfUri(snippets[i].uri);
        if path.Some? && Exists(fs, path.value) {
          watched := watched + {path.value};
        }
        assert snippets[..i + 1][..i] == snippets[..i];
      }
      assert snippets[..|snippets|] == snippets;
      var w := new SessionWatcher(codecs, snekRoot, sessionDir, current, watched,
                                  StartWatches(fs, snekRoot, sessionDir) + watched);
      return Success(w);
    }

    /** The event branch of `watch_loop`: each path of the event is classified
        and only adds to the pending work; a switch of the active session is
        only reported. */
    method OnEvent(paths: seq<Path>)
      requires Valid()
      modifies this`pendingReload, this`pendingMarkdown, this`pendingCode
      ensures Valid()
      ensures pendingReload == (old(pendingReload) || OfKind(paths, SnippetsChanged, snekRoot, sessionDir, watchedFiles) != {})
      ensures pendingMarkdown == old(pendingMarkdown) + OfKind(paths, MarkdownChanged, snekRoot, sessionDir, watchedFiles)
      ensures pendingCode == old(pendingCode) + OfKind(paths, CodeChanged, snekRoot, sessionDir, watchedFiles)
    {
      for i := 0 to |paths|
        invariant pendingReload == (old(pendingReload) || OfKind(paths[..i], SnippetsChanged, snekRoot, sessionDir, watchedFiles) != {})
        invariant pendingMarkdown == old(pendingMarkdown) + OfKind(paths[..i], MarkdownChanged, snekRoot, sessionDir, watchedFiles)
        invariant pendingCode == old(pendingCode) + OfKind(paths[..i], CodeChanged, snekRoot, sessionDir, watchedFiles)
      {
        var path := paths[i];
        var kind := Classify(path, snekRoot, sessionDir, watchedFiles);
        ghost var markdownBefore, codeBefore := pendingMarkdown, pendingCode;
        TakeSnoc(paths, i);
        KindsSnoc(paths[..i], path, SnippetsChanged, snekRoot, sessionDir, watchedFiles);
        KindsSnoc(paths[..i], path, MarkdownChanged, snekRoot, sessionDir, watchedFiles);
        KindsSnoc(paths[..i], path, CodeChanged, snekRoot, sessionDir, watchedFiles);
        Schedule(path);
        UnionStep(old(pendingMarkdown), OfKind(paths[..i], MarkdownChanged, snekRoot, sessionDir, watchedFiles),
                  if kind == MarkdownChanged then {path} else {}, markdownBefore, pendingMarkdown,
                  OfKind(paths[..i + 1], MarkdownChanged, snekRoot, sessionDir, watchedFiles));
        UnionStep(old(pendingCode), OfKind(paths[..i], CodeChanged, snekRoot, sessionDir, watchedFiles),
                  if kind == CodeChanged then {path} else {}, codeBefore, pendingCode,
                  OfKind(paths[..i + 1], CodeChanged, snekRoot, sessionDir, watchedFiles));
      }
      assert paths[..|paths|] == paths;
      OfKindSound(paths, snekRoot, sessionDir, watchedFiles);
    }

    /** One path of an event: its kind decides which pending work it adds. */
    method Schedule(path: Path)
      modifies this`pendingReload, this`pendingMarkdown, this`pendingCode
      ensures var kind := Classify(path, snekRoot, sessionDir, watchedFiles);
        && pendingReload == (old(pendingReload) || kind == SnippetsChanged)
        && pendingMarkdown == old(pendingMarkdown) + (if kind == MarkdownChanged then {path} else {})
        && pendingCode == old(pendingCode) + (if kind == CodeChanged then {path} else {})
    {
      if FileName(path) == Some("active.json") && Parent(path) == Some(snekRoot) {
        // Only reported: the server has to be restarted for the new session.
      } else if FileName(path) == Some("code_snippets.json") {
        pendingReload := true;
      } else if Extension(path) == Some("md") && StartsWith(path, Child(sessionDir, "context")) {
        pendingMarkdown := pendingMarkdown + {path};
      } else if path in watchedFiles {
        pendingCode := pendingCode + {path};
      }
    }

    /** `reload_code_snippets`: reloads the session; on failure nothing
        changes. On success the watched code files become exactly the paths of
        the new snippets, files no longer named are unregistered, newly named
        files that exist are registered, and the new snapshot is published. */
    method ReloadCodeSnippets(fs: FileSystem) returns (r: Result<(), Error>)
      modifies this`snapshot, this`watchedFiles, this`watches, this`published
      ensures var loaded := LoadSnapshot(fs, codecs, sessionDir);
        && (r.Success? <==> loaded.Success?)
        && (loaded.Failure? ==>
              && r == Failure(loaded.error)
              && snapshot == old(snapshot) && watchedFiles == old(watchedFiles)
              && watches == old(watches) && published == old(published))
        && (loaded.Success? ==>
              && snapshot == loaded.value
              && watchedFiles == UriPaths(codecs, loaded.value.codeSnippets)
              && watches == (old(watches) - (old(watchedFiles) - watchedFiles))
                            + (set p | p in watchedFiles - old(watchedFiles) && Exists(fs, p))
              && published == old(published) + [snapshot])
    {
      var loaded := LoadSnapshot(fs, codecs, sessionDir);
      if loaded.Failure? {
        return Failure(loaded.error);
      }
      var newSnapshot := loaded.value;
      var newFiles := UriPaths(codecs, newSnapshot.codeSnippets);
      // Unregister the files no longer named, then register the newly named
      // files that exist.
      watches := watches - (watchedFiles - newFiles);
      watches := watches + (set p | p in newFiles - watchedFiles && Exists(fs, p));
      watchedFiles := newFiles;
      snapshot := newSnapshot;
      published := published + [newSnapshot];
      r := Success(());
    }

    /** `update_markdown_cache`: patches a copy of the snapshot's markdown
        cache for every changed path, in the order the set yields them, and
        publishes the copy. */
    method UpdateMarkdownCache(fs: FileSystem, changed: set<Path>) returns (ghost order: seq<Path>)
      modifies this`snapshot, this`published
      ensures Enumerates(order, changed)
      ensures snapshot == old(snapshot).(markdownCache := MarkdownFold(fs, old(snapshot).markdownCache, order))
      ensures published == old(published) + [snapshot]
    {
      var newSnapshot := snapshot;
      var remaining := changed;
      order := [];
      while remaining != {}
        invariant forall p :: p in changed <==> p in order || p in remaining
        invariant forall p :: p in order ==> p !in remaining
        invariant forall i, j :: 0 <= i < j < |order| ==> order[i] != order[j]
        invariant newSnapshot == snapshot.(markdownCache := MarkdownFold(fs, snapshot.markdownCache, order))
        decreases |remaining|
      {
        var path :| path in remaining;
        var cache := newSnapshot.markdownCache;
        match FileName(path) {
          case None =>
          case Some(filename) =>
            if Exists(fs, path) {
              var content := Read(fs, path);
              if content.Some? {
                cache := cache[filename := content.value];
              }
            } else {
              cache := cache - {filename};
            }
        }
        newSnapshot := newSnapshot.(markdownCache := cache);
        assert (order + [path])[..|order|] == order;
        remaining := remaining - {path};
        order := order + [path];
      }
      snapshot := newSnapshot;
      published := published + [newSnapshot];
    }

    /** `update_code_cache`: for every changed path, in the order the set
        yields them, the first snippet that refers to it has its file-cache
        entry patched on a copy of the snapshot; the copy is published even
        when nothing changed. */
    method UpdateCodeCache(fs: FileSystem, changed: set<Path>) returns (ghost order: seq<Path>)
      modifies this`snapshot, this`published
      ensures Enumerates(order, changed)
      ensures snapshot == old(snapshot).(fileCache :=
        CodeFold(fs, codecs, old(snapshot).codeSnippets, old(snapshot).fileCache, order))
      ensures published == old(published) + [snapshot]
    {
      var current := snapshot;
      var snippets := current.codeSnippets;
      var newSnapshot := snapshot;
      var remaining := changed;
      order := [];
      while remaining != {}
        invariant forall p :: p in changed <==> p in order || p in remaining
        invariant forall p :: p in order ==> p !in remaining
        invariant forall i, j :: 0 <= i < j < |order| ==> order[i] != order[j]
        invariant newSnapshot == current.(fileCache := CodeFold(fs, codecs, snippets, current.fileCache, order))
        decreases |remaining|
      {
        var path :| path in remaining;
        var cache := newSnapshot.fileCache;
        var i := 0;
        while i < |snippets|
          invariant 0 <= i <= |snippets|
          invariant FirstSnippetFor(codecs, snippets, path, 0) == FirstSnippetFor(codecs, snippets, path, i)
          invariant cache == newSnapshot.fileCache
        {
          var snippet := snippets[i];
          if codecs.fileOfUri(snippet.uri) == Some(path) {
            if Exists(fs, path) {
              var content := Read(fs, path);
              if content.Some? {
                cache := cache[snippet.uri := content.value];
              }
            } else {
              cache := cache - {snippet.uri};
            }
            break;
          }
          i := i + 1;
        }
        assert cache == CodeStep(fs, codecs, snippets, newSnapshot.fileCache, path);
        newSnapshot := newSnapshot.(fileCache := cache);
        assert (order + [path])[..|order|] == order;
        remaining := remaining - {path};
        order := order + [path];
      }
      snapshot := newSnapshot;
      published := published + [newSnapshot];
    }

    /** The debounce branch of `watch_loop`: a pending reload runs first and,
        whether it succeeds or not, clears its flag and discards the pending
        code updates; pending markdown updates are applied next, then any
        remaining code updates. Afterwards no work is pending. */
    method Flush(fs: FileSystem) returns (ghost markdownOrder: seq<Path>, ghost codeOrder: seq<Path>)
      requires Valid()
      modifies this`pendingReload, this`pendingMarkdown, this`pendingCode
      modifies this`snapshot, this`watchedFiles, this`watches, this`published
      ensures Valid() && Idle()
      ensures var loaded := LoadSnapshot(fs, codecs, sessionDir);
        var reloaded := old(pendingReload) && loaded.Success?;
        var base := if reloaded then loaded.value else old(snapshot);
        && watchedFiles == (if reloaded then UriPaths(codecs, loaded.value.codeSnippets) else old(watchedFiles))
        && snapshot.(markdownCache := base.markdownCache, fileCache := base.fileCache) == base
        && snapshot.markdownCache ==
             (if old(pendingMarkdown) == {} then base.markdownCache
              else MarkdownFold(fs, base.markdownCache, markdownOrder))
        && snapshot.fileCache ==
             (if old(pendingReload) || old(pendingCode) == {} then base.fileCache
              else CodeFold(fs, codecs, base.codeSnippets, base.fileCache, codeOrder))
        && Enumerates(markdownOrder, old(pendingMarkdown))
        && (!old(pendingReload) ==> Enumerates(codeOrder, old(pendingCode)))
        && watches == (if reloaded then (old(watches) - (old(watchedFiles) - watchedFiles))
                                        + (set p | p in watchedFiles - old(watchedFiles) && Exists(fs, p))
                       else old(watches))
        && |published| == |old(published)| + (if reloaded then 1 else 0)
             + (if old(pendingMarkdown) != {} then 1 else 0)
             + (if !old(pendingReload) && old(pendingCode) != {} then 1 else 0)
        && (reloaded && |published| > |old(published)| + 1 ==> published[|old(published)|] == base)
        && (!old(pendingReload) && old(pendingMarkdown) != {} && old(pendingCode) != {} ==>
              published[|old(published)|] == base.(markdownCache := snapshot.markdownCache))
      ensures published[..|old(published)|] == old(published)
      ensures |published| > |old(published)| ==> published[|published| - 1] == snapshot
    {
      if pendingReload {
        var _ := ReloadCodeSnippets(fs);
        pendingReload := false;
        pendingCode := {};
      }
      markdownOrder, codeOrder := ApplyCacheUpdates(fs);
    }

    /** The cache steps of the debounce branch: pending markdown updates, then
        pending code updates, each applied and cleared when there are any. */
    method ApplyCacheUpdates(fs: FileSystem) returns (ghost markdownOrder: seq<Path>, ghost codeOrder: seq<Path>)
      modifies this`pendingMarkdown, this`pendingCode, this`snapshot, this`published
      ensures pendingMarkdown == {} && pendingCode == {}
      ensures snapshot.(markdownCache := old(snapshot).markdownCache, fileCache := old(snapshot).fileCache) == old(snapshot)
      ensures snapshot.markdownCache ==
        (if old(pendingMarkdown) == {} then old(snapshot).markdownCache
         else MarkdownFold(fs, old(snapshot).markdownCache, markdownOrder))
      ensures snapshot.fileCache ==
        (if old(pendingCode) == {} then old(snapshot).fileCache
         else CodeFold(fs, codecs, old(snapshot).codeSnippets, old(snapshot).fileCache, codeOrder))
      ensures Enumerates(markdownOrder, old(pendingMarkdown)) && Enumerates(codeOrder, old(pendingCode))
      ensures |published| == |old(published)| + (if old(pendingMarkdown) != {} then 1 else 0)
        + (if old(pendingCode) != {} then 1 else 0)
      ensures old(pendingMarkdown) != {} && old(pendingCode) != {} ==>
        published[|old(published)|] == old(snapshot).(markdownCache := snapshot.markdownCache)
      ensures published[..|old(published)|] == old(published)
      ensures |published| > |old(published)| ==> published[|published| - 1] == snapshot
    {
      markdownOrder := [];
      codeOrder := [];
      if pendingMarkdown != {} {
        markdownOrder := UpdateMarkdownCache(fs, pendingMarkdown);
        pendingMarkdown := {};
      }
      if pendingCode != {} {
        codeOrder := UpdateCodeCache(fs, pendingCode);
        pendingCode := {};
      }
    }
  }

  /** Classifying one more path adds it to the paths of its kind. */
  lemma KindsSnoc(paths: seq<Path>, path: Path, kind: EventKind, snekRoot: Path, sessionDir: Path, watched: set<Path>)
    ensures OfKind(paths + [path], kind, snekRoot, sessionDir, watched) ==
      OfKind(paths, kind, snekRoot, sessionDir, watched)
        + (if Classify(path, snekRoot, sessionDir, watched) == kind then {path} else {})
  {
    assert forall p :: p in paths + [path] <==> p in paths || p == path;
  }

  /** Adding `step` to a set that is `start + done` gives `start` plus the
      grown `done`. */
  lemma UnionStep(start: set<Path>, done: set<Path>, step: set<Path>, before: set<Path>, after: set<Path>, grown: set<Path>)
    requires before == start + done && after == before + step && grown == done + step
    ensures after == start + grown
  {
  }

  /** A path is among the snippets' paths exactly when some snippet's URI
      converts to it. */
  lemma {:induction false} UriPathsMembers(codecs: Codecs, snippets: seq<CodeContext>, p: Path)
    ensures p in UriPaths(codecs, snippets) <==>
      exists i :: 0 <= i < |snippets| && codecs.fileOfUri(snippets[i].uri) == Some(p)
    decreases |snippets|
  {
    if snippets != [] {
      var n := |snippets| - 1;
      var init := snippets[..n];
      UriPathsMembers(codecs, init, p);
      if p in UriPaths(codecs, snippets) {
        if p in UriPaths(codecs, init) {
          var i :| 0 <= i < |init| && codecs.fileOfUri(init[i].uri) == Some(p);
          assert snippets[i] == init[i];
        } else {
          assert codecs.fileOfUri(snippets[n].uri) == Some(p);
        }
      }
      if exists i :: 0 <= i < |snippets| && codecs.fileOfUri(snippets[i].uri) == Some(p) {
        var i :| 0 <= i < |snippets| && codecs.fileOfUri(snippets[i].uri) == Some(p);
        if i < n {
          assert init[i] == snippets[i];
        }
      }
    }
  }

  /** A change to the root's `active.json` is only reported: it is classified
      as a session switch, so it adds no pending work. */
  lemma ActiveJsonIsOnlyReported(snekRoot: Path, sessionDir: Path, watched: set<Path>)
    ensures Classify(Child(snekRoot, "active.json"), snekRoot, sessionDir, watched) == SessionSwitched
    ensures forall kind :: kind != SessionSwitched ==>
      OfKind([Child(snekRoot, "active.json")], kind, snekRoot, sessionDir, watched) == {}
  {
    ChildStartsWith(snekRoot, "active.json");
  }

  /** Only a file named `code_snippets.json`, in whatever directory, schedules
      a reload. */
  lemma ReloadIff(p: Path, snekRoot: Path, sessionDir: Path, watched: set<Path>)
    ensures Classify(p, snekRoot, sessionDir, watched) == SnippetsChanged <==>
      FileName(p) == Some("code_snippets.json")
  {
  }

  /** A path is scheduled as markdown exactly when it is a `.md` file inside
      the session's `context` directory: neither `active.json` nor
      `code_snippets.json` ends in `.md`, so the earlier tests never take one. */
  lemma MarkdownIff(p: Path, snekRoot: Path, sessionDir: Path, watched: set<Path>)
    ensures Classify(p, snekRoot, sessionDir, watched) == MarkdownChanged <==>
      Extension(p) == Some("md") && StartsWith(p, Child(sessionDir, "context"))
  {
    ExtensionMd(p);
    if FileName(p) == Some("active.json") {
      assert "active.json"[|"active.json"| - 3] == 's';
      assert !EndsWith("active.json", ".md");
    }
    if FileName(p) == Some("code_snippets.json") {
      assert "code_snippets.json"[|"code_snippets.json"| - 3] == 's';
      assert !EndsWith("code_snippets.json", ".md");
    }
  }

  /** The paths an event schedules as markdown are `.md` files in the
      session's `context` directory, and those it schedules as code are
      watched. */
  lemma OfKindSound(paths: seq<Path>, snekRoot: Path, sessionDir: Path, watched: set<Path>)
    ensures forall p :: p in OfKind(paths, MarkdownChanged, snekRoot, sessionDir, watched) ==>
      Extension(p) == Some("md") && StartsWith(p, Child(sessionDir, "context"))
    ensures OfKind(paths, CodeChanged, snekRoot, sessionDir, watched) <= watched
  {
    forall p | p in OfKind(paths, MarkdownChanged, snekRoot, sessionDir, watched)
      ensures Extension(p) == Some("md") && StartsWith(p, Child(sessionDir, "context"))
    {
      MarkdownIff(p, snekRoot, sessionDir, watched);
    }
  }

  /** Only watched code files are scheduled as code, and every watched file
      that is not a session file is. */
  lemma CodeIff(p: Path, snekRoot: Path, sessionDir: Path, watched: set<Path>)
    ensures Classify(p, snekRoot, sessionDir, watched) == CodeChanged ==> p in watched
    ensures (p in watched && FileName(p) != Some("active.json") && FileName(p) != Some("code_snippets.json")
             && Extension(p) != Some("md")) ==> Classify(p, snekRoot, sessionDir, watched) == CodeChanged
  {
  }

  /** The entry `key` after handling the changed file `path`, relative to the
      entry before: the file's content when the file exists and reads, absent
      when the file does not exist, unchanged when it exists but does not read. */
  ghost predicate Patched(fs: FileSystem, path: Path, key: string, before: map<string, string>, after: map<string, string>)
  {
    && (Exists(fs, path) && Read(fs, path).Some? ==> key in after && after[key] == Read(fs, path).value)
    && (!Exists(fs, path) ==> key !in after)
    && (Exists(fs, path) && Read(fs, path).None? ==> SameAt(after, before, key))
  }

  lemma MarkdownStepAt(fs: FileSystem, a: map<string, string>, b: map<string, string>, path: Path, name: string)
    requires SameAt(a, b, name)
    ensures FileName(path) != Some(name) ==> SameAt(MarkdownStep(fs, a, path), b, name)
    ensures FileName(path) == Some(name) ==> Patched(fs, path, name, b, MarkdownStep(fs, a, path))
  {
  }

  /** An entry no changed path is named after keeps its value. */
  lemma {:induction false} MarkdownFoldElsewhere(fs: FileSystem, cache: map<string, string>, order: seq<Path>, name: string)
    requires forall p :: p in order ==> FileName(p) != Some(name)
    ensures SameAt(MarkdownFold(fs, cache, order), cache, name)
    decreases |order|
  {
    if order != [] {
      var init := order[..|order| - 1];
      MarkdownFoldElsewhere(fs, cache, init, name);
      MarkdownStepAt(fs, MarkdownFold(fs, cache, init), cache, order[|order| - 1], name);
    }
  }

  /** The entry of a changed path's file name is set from that file alone,
      whatever the order, as long as no other changed path has the same file
      name (the cache is keyed by file name only). */
  lemma {:induction false} MarkdownFoldOf(fs: FileSystem, cache: map<string, string>, order: seq<Path>, path: Path, name: string)
    requires path in order && FileName(path) == Some(name)
    requires forall q :: q in order && q != path ==> FileName(q) != Some(name)
    ensures Patched(fs, path, name, cache, MarkdownFold(fs, cache, order))
    decreases |order|
  {
    var init := order[..|order| - 1];
    var last := order[|order| - 1];
    assert forall q :: q in init ==> q in order;
    var before := MarkdownFold(fs, cache, init);
    if path in init {
      MarkdownFoldOf(fs, cache, init, path, name);
      MarkdownStepAt(fs, before, before, last, name);
    } else {
      assert last == path;
      MarkdownFoldElsewhere(fs, cache, init, name);
      MarkdownStepAt(fs, before, cache, last, name);
    }
  }

  lemma CodeStepAt(fs: FileSystem, codecs: Codecs, snippets: seq<CodeContext>,
                   a: map<string, string>, b: map<string, string>, path: Path, uri: string)
    requires SameAt(a, b, uri)
    ensures EntryOf(codecs, snippets, path) != Some(uri) ==> SameAt(CodeStep(fs, codecs, snippets, a, path), b, uri)
    ensures EntryOf(codecs, snippets, path) == Some(uri) ==> Patched(fs, path, uri, b, CodeStep(fs, codecs, snippets, a, path))
  {
  }

  /** An entry that is the key of no changed path keeps its value. */
  lemma {:induction false} CodeFoldElsewhere(fs: FileSystem, codecs: Codecs, snippets: seq<CodeContext>,
                                             cache: map<string, string>, order: seq<Path>, uri: string)
    requires forall p :: p in order ==> EntryOf(codecs, snippets, p) != Some(uri)
    ensures SameAt(CodeFold(fs, codecs, snippets, cache, order), cache, uri)
    decreases |order|
  {
    if order != [] {
      var init := order[..|order| - 1];
      CodeFoldElsewhere(fs, codecs, snippets, cache, init, uri);
      CodeStepAt(fs, codecs, snippets, CodeFold(fs, codecs, snippets, cache, init), cache, order[|order| - 1], uri);
    }
  }

  /** The entry of a changed path's first snippet is set from that file
      alone, whatever the order: distinct paths never share a key, because a
      key's URI converts to its path. */
  lemma {:induction false} CodeFoldOf(fs: FileSystem, codecs: Codecs, snippets: seq<CodeContext>,
                                      cache: map<string, string>, order: seq<Path>, path: Path, uri: string)
    requires path in order && EntryOf(codecs, snippets, path) == Some(uri)
    ensures Patched(fs, path, uri, cache, CodeFold(fs, codecs, snippets, cache, order))
    decreases |order|
  {
    var init := order[..|order| - 1];
    var last := order[|order| - 1];
    assert forall q :: q in init ==> q in order;
    var before := CodeFold(fs, codecs, snippets, cache, init);
    if path in init {
      CodeFoldOf(fs, codecs, snippets, cache, init, path, uri);
      CodeStepAt(fs, codecs, snippets, before, before, last, uri);
    } else {
      assert last == path;
      forall q | q in init
        ensures EntryOf(codecs, snippets, q) != Some(uri)
      {
        assert q != path;
      }
      CodeFoldElsewhere(fs, codecs, snippets, cache, init, uri);
      CodeStepAt(fs, codecs, snippets, before, cache, last, uri);
    }
  }
}
