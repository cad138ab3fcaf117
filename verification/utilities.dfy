/** `helpers/Utilities.cs`: the copy/move policy shared by `[io.folder.copy]` and
    `[io.folder.move]` (`folder/CopyFolder.cs`, `folder/MoveFolder.cs`, which only
    fix the `copy` flag and run it with `isFolder` set).

    Order of events: argument check, evaluation, path derivation (with a same-path
    guard), delete of an existing destination, then exactly one copy or move. */
module Utilities {
  import opened Strings
  import opened Results
  import opened Nodes
  import opened Services
  import opened RootResolver

  /** The helper names `[io.file.copy]` whatever slot called it. */
  const NoDestinationMessage: string := "No destination provided to [io.file.copy]"

  function SamePathMessage(slot: string): string {
    "You cannot [" + slot + "] a file using the same source and destination path"
  }

  /** A call without children is refused before anything is evaluated. */
  function SanityCheckArguments(input: Node): (r: Option<Error>)
    ensures r.Some? <==> input.children == []
    ensures r.Some? ==> r.value == Hyperlambda(NoDestinationMessage)
  {
    if input.children == [] then Some(Hyperlambda(NoDestinationMessage)) else None
  }

  datatype Paths = Paths(source: string, destination: string)

  function WithTrailingSlash(p: string): (r: string)
    ensures EndsWith(r, [Slash])
    ensures EndsWith(p, [Slash]) ==> r == p
    ensures !EndsWith(p, [Slash]) ==> r == p + [Slash]
  {
    if EndsWith(p, [Slash]) then p else p + [Slash]
  }

  /** Source and destination as given, before resolution. Folders get a trailing '/';
      a file destination ending in '/' names a folder and receives the source's file name. */
  function Derive(src: string, dest: string, isFolder: bool): (r: Paths)
    ensures isFolder ==> EndsWith(r.source, [Slash]) && EndsWith(r.destination, [Slash])
    ensures isFolder && EndsWith(src, [Slash]) ==> r.source == src
    ensures isFolder && EndsWith(dest, [Slash]) ==> r.destination == dest
    ensures !isFolder ==> r.source == src
    ensures !isFolder && EndsWith(dest, [Slash]) ==> r.destination == dest + FileName(src)
    ensures !isFolder && !EndsWith(dest, [Slash]) ==> r.destination == dest
  {
    if isFolder then Paths(WithTrailingSlash(src), WithTrailingSlash(dest))
    else if EndsWith(dest, [Slash]) then Paths(src, dest + FileName(src))
    else Paths(src, dest)
  }

  /** Folder mode is idempotent: deriving again from derived paths changes nothing. */
  lemma {:induction false} FolderDeriveIdempotent(src: string, dest: string)
    ensures var p := Derive(src, dest, true); Derive(p.source, p.destination, true) == p
  {
  }

  /** `GetCopyMovePathsPaths`: both paths resolved through `AbsolutePath`, refused when equal. */
  function GetCopyMovePaths(res: Resolver, input: Node, isFolder: bool): (r: Result<Paths>)
    ensures r.Ok? ==> r.value.source != r.value.destination
    ensures r.Ok? ==> StartsWith(r.value.source, res.DynamicFiles()) && StartsWith(r.value.destination, res.DynamicFiles())
    ensures r.Ok? ==> input.value.Text? && input.children != [] && input.children[0].value.Text?
    ensures input.value.Text? && input.children != [] && input.children[0].value.Text? ==>
      var p := Derive(input.value.text, input.children[0].value.text, isFolder);
      var source := res.AbsolutePath(p.source);
      var destination := res.AbsolutePath(p.destination);
      if source == destination then r == Fail(Hyperlambda(SamePathMessage(input.name)))
      else r == Ok(Paths(source, destination))
  {
    var src :- AsText(input.value);
    var first :- First(input.children);
    var dest :- AsText(first.value);
    var p := Derive(src, dest, isFolder);
    var source := res.AbsolutePath(p.source);
    var destination := res.AbsolutePath(p.destination);
    if source == destination then Fail(Hyperlambda(SamePathMessage(input.name)))
    else Ok(Paths(source, destination))
  }

  /** Spelling does not defeat the guard: "/a.txt" onto "a.txt" resolves to one path and is refused. */
  lemma {:induction false} SamePathGuardIgnoresLeadingSlash(res: Resolver, input: Node, lead: string, path: string)
    requires AllSeparators(lead) && !EndsWith(path, [Slash])
    requires input.value == Text(lead + path)
    requires input.children != [] && input.children[0].value == Text(path)
    ensures GetCopyMovePaths(res, input, false) == Fail(Hyperlambda(SamePathMessage(input.name)))
  {
    AbsoluteIgnoresLeadingSeparators(res, lead, path);
  }

  /** The steps after the paths are known: with `probe`, ask the service whether the destination
      exists and delete it if so; then copy or move. */
  function Transfer(w: World, kind: Kind, paths: Paths, copy: bool, probe: bool): (r: (World, Status))
    ensures r.0.trace == TransferTrace(w.trace, paths, copy, probe, probe && Holds(w.fs, kind, paths.destination))
  {
    var (w1, present) := ExistsEntry(w, kind, paths.destination);
    var w2 := if !probe then w else if present then DeleteEntry(w1, paths.destination) else w1;
    if copy then CopyEntry(w2, kind, paths.source, paths.destination)
    else MoveEntry(w2, kind, paths.source, paths.destination)
  }

  /** Trace of a successful derivation: the existence probe if one is made, a delete if the
      destination exists, and one copy or move with the derived paths. */
  function TransferTrace(t: seq<Call>, paths: Paths, copy: bool, probe: bool, deletes: bool): seq<Call> {
    t
    + (if probe then [Exists(paths.destination)] else [])
    + (if deletes then [Delete(paths.destination)] else [])
    + [if copy then Copy(paths.source, paths.destination) else Move(paths.source, paths.destination)]
  }

  /** The synchronous helper. */
  function CopyMoveHelper(w: World, res: Resolver, eval: Node -> Node, input: Node,
                          kind: Kind, copy: bool, isFolder: bool): (o: Outcome)
    ensures input.children == [] ==> o == Outcome(w, input, Failed(Hyperlambda(NoDestinationMessage)))
    ensures input.children != [] ==> o.node == eval(input)
    ensures input.children != [] ==> Evaluated(w, o, kind, GetCopyMovePaths(res, eval(input), isFolder), copy, true)
  {
    var check := SanityCheckArguments(input);
    if check.Some? then Outcome(w, input, Failed(check.value))
    else
      var n := eval(input);
      var paths := GetCopyMovePaths(res, n, isFolder);
      var w1 := w.Log(Eval);
      if paths.Fail? then Outcome(w1, n, Failed(paths.error))
      else
        var t := Transfer(w1, kind, paths.value, copy, true);
        Outcome(t.0, n, t.1)
  }

  /** What follows evaluation: on a derivation failure, nothing but the evaluation is recorded;
      otherwise the existence probe (when `probe`), the delete (when probed and the destination
      exists as an entry of `kind`), and one copy or move with the derived paths. */
  ghost predicate Evaluated(w: World, o: Outcome, kind: Kind, paths: Result<Paths>, copy: bool, probe: bool) {
    if paths.Fail? then o.world == w.Log(Eval) && o.status == Failed(paths.error)
    else o.world.trace == TransferTrace(w.trace + [Eval], paths.value, copy, probe, probe && Holds(w.fs, kind, paths.value.destination))
  }

  /** The asynchronous helper: identical, except that only for files does it ask whether the
      destination exists and delete it; for folders it goes straight to the copy or move. */
  function CopyMoveHelperAsync(w: World, res: Resolver, eval: Node -> Node, input: Node,
                               kind: Kind, copy: bool, isFolder: bool): (o: Outcome)
    ensures input.children == [] ==> o == Outcome(w, input, Failed(Hyperlambda(NoDestinationMessage)))
    ensures input.children != [] ==> o.node == eval(input)
    ensures input.children != [] ==> Evaluated(w, o, kind, GetCopyMovePaths(res, eval(input), isFolder), copy, !isFolder)
  {
    var check := SanityCheckArguments(input);
    if check.Some? then Outcome(w, input, Failed(check.value))
    else
      var n := eval(input);
      var paths := GetCopyMovePaths(res, n, isFolder);
      var w1 := w.Log(Eval);
      if paths.Fail? then Outcome(w1, n, Failed(paths.error))
      else
        var t := Transfer(w1, kind, paths.value, copy, !isFolder);
        Outcome(t.0, n, t.1)
  }

  /** `[io.folder.copy]`. */
  function CopyFolder(w: World, res: Resolver, eval: Node -> Node, input: Node): Outcome {
    CopyMoveHelper(w, res, eval, input, Folders, true, true)
  }

  /** `[io.folder.move]`. */
  function MoveFolder(w: World, res: Resolver, eval: Node -> Node, input: Node): Outcome {
    CopyMoveHelper(w, res, eval, input, Folders, false, true)
  }

  lemma {:induction false} TransferTraceCounts(t: seq<Call>, p: Paths, copy: bool, probe: bool, deletes: bool)
    ensures var u := TransferTrace(t, p, copy, probe, deletes);
      Transfers(u) == Transfers(t) + 1 && IsTransfer(u[|u| - 1])
  {
    var last := if copy then Copy(p.source, p.destination) else Move(p.source, p.destination);
    var t1 := if probe then t + [Exists(p.destination)] else t;
    if probe {
      TransfersSnoc(t, Exists(p.destination));
    }
    var t2 := if deletes then t1 + [Delete(p.destination)] else t1;
    if deletes {
      TransfersSnoc(t1, Delete(p.destination));
    }
    TransfersSnoc(t2, last);
    var probes: seq<Call> := if probe then [Exists(p.destination)] else [];
    var deletions: seq<Call> := if deletes then [Delete(p.destination)] else [];
    assert t1 == t + probes;
    assert t2 == t + probes + deletions;
    assert TransferTrace(t, p, copy, probe, deletes) == t2 + [last];
  }

  /** Exactly one copy or move is issued once the paths are known, and it is the last call;
      with a missing argument or a refused derivation, none is. */
  lemma {:induction false} ExactlyOneTransfer(w: World, res: Resolver, eval: Node -> Node, input: Node,
                                              kind: Kind, copy: bool, isFolder: bool)
    ensures var o := CopyMoveHelper(w, res, eval, input, kind, copy, isFolder);
      if input.children != [] && GetCopyMovePaths(res, eval(input), isFolder).Ok? then
        Transfers(o.world.trace) == Transfers(w.trace) + 1 && IsTransfer(o.world.trace[|o.world.trace| - 1])
      else
        Transfers(o.world.trace) == Transfers(w.trace)
  {
    var o := CopyMoveHelper(w, res, eval, input, kind, copy, isFolder);
    if input.children == [] {
    } else {
      var paths := GetCopyMovePaths(res, eval(input), isFolder);
      TransfersAppend(w.trace, [Eval]);
      TransfersNone([Eval]);
      if paths.Ok? {
        TransferTraceCounts(w.trace + [Eval], paths.value, copy, true, Holds(w.fs, kind, paths.value.destination));
      }
    }
  }

  lemma {:induction false} TransfersNone(t: seq<Call>)
    requires forall i :: 0 <= i < |t| ==> !IsTransfer(t[i])
    ensures Transfers(t) == 0
  {
    if t != [] {
      TransfersNone(t[..|t| - 1]);
    }
  }

  /** Once the paths are derived, the helper is the evaluation followed by the transfer. */
  lemma {:induction false} HelperResolved(w: World, res: Resolver, eval: Node -> Node, input: Node,
                                          kind: Kind, copy: bool, isFolder: bool)
    requires input.children != [] && GetCopyMovePaths(res, eval(input), isFolder).Ok?
    ensures var t := Transfer(w.Log(Eval), kind, GetCopyMovePaths(res, eval(input), isFolder).value, copy, true);
      CopyMoveHelper(w, res, eval, input, kind, copy, isFolder) == Outcome(t.0, eval(input), t.1)
  {
  }

  /** Copying a file that exists to a different path that holds no folder: both paths then hold
      the source's content, whether or not a file was at the destination before. */
  lemma {:induction false} CopyKeepsBoth(w: World, res: Resolver, eval: Node -> Node, input: Node)
    requires input.children != []
    requires GetCopyMovePaths(res, eval(input), false).Ok?
    requires var p := GetCopyMovePaths(res, eval(input), false).value;
      Holds(w.fs, Files, p.source) && FreeOrFile(w.fs, p.destination)
    ensures var p := GetCopyMovePaths(res, eval(input), false).value;
      var o := CopyMoveHelper(w, res, eval, input, Files, true, false);
      && o.status == Done
      && p.source in o.world.fs && p.destination in o.world.fs
      && o.world.fs[p.destination] == w.fs[p.source] && o.world.fs[p.source] == w.fs[p.source]
  {
    HelperResolved(w, res, eval, input, Files, true, false);
    CopyDistinct(w.Log(Eval), GetCopyMovePaths(res, eval(input), false).value);
  }

  /** Moving a file that exists to a path that holds no folder: the destination then holds its
      content and the source is gone. */
  lemma {:induction false} MoveReplaces(w: World, res: Resolver, eval: Node -> Node, input: Node)
    requires input.children != []
    requires GetCopyMovePaths(res, eval(input), false).Ok?
    requires var p := GetCopyMovePaths(res, eval(input), false).value;
      Holds(w.fs, Files, p.source) && FreeOrFile(w.fs, p.destination)
    ensures var p := GetCopyMovePaths(res, eval(input), false).value;
      var o := CopyMoveHelper(w, res, eval, input, Files, false, false);
      && o.status == Done
      && p.source !in o.world.fs && p.destination in o.world.fs
      && o.world.fs[p.destination] == w.fs[p.source]
  {
    HelperResolved(w, res, eval, input, Files, false, false);
    MoveDistinct(w.Log(Eval), GetCopyMovePaths(res, eval(input), false).value);
  }

  /** For files the two helpers agree. */
  lemma {:induction false} AsyncAgreesOnFiles(w: World, res: Resolver, eval: Node -> Node, input: Node, kind: Kind, copy: bool)
    ensures CopyMoveHelperAsync(w, res, eval, input, kind, copy, false) == CopyMoveHelper(w, res, eval, input, kind, copy, false)
  {
  }

  lemma {:induction false} MoveOntoExisting(w: World, p: Paths)
    requires p.source != p.destination && Holds(w.fs, Folders, p.source) && Holds(w.fs, Folders, p.destination)
    ensures Transfer(w, Folders, p, false, true).1 == Done
    ensures Transfer(w, Folders, p, false, false).1 == Failed(Conflict(p.destination))
  {
  }

  /** A file copy between two different paths, onto no folder, keeps the source and gives the
      destination its content. */
  lemma {:induction false} CopyDistinct(w: World, p: Paths)
    requires p.source != p.destination && Holds(w.fs, Files, p.source) && FreeOrFile(w.fs, p.destination)
    ensures var t := Transfer(w, Files, p, true, true);
      && t.1 == Done
      && p.source in t.0.fs && t.0.fs[p.source] == w.fs[p.source]
      && p.destination in t.0.fs && t.0.fs[p.destination] == w.fs[p.source]
  {
    var w1 := DeleteEntry(w.Log(Exists(p.destination)), p.destination);
    var w2 := if Holds(w.fs, Files, p.destination) then w1 else w.Log(Exists(p.destination));
    assert p.destination !in w2.fs && w2.fs[p.source] == w.fs[p.source];
  }

  /** A file move between two different paths, onto no folder, removes the source and gives the
      destination its content. */
  lemma {:induction false} MoveDistinct(w: World, p: Paths)
    requires p.source != p.destination && Holds(w.fs, Files, p.source) && FreeOrFile(w.fs, p.destination)
    ensures var t := Transfer(w, Files, p, false, true);
      && t.1 == Done
      && p.source !in t.0.fs
      && p.destination in t.0.fs && t.0.fs[p.destination] == w.fs[p.source]
  {
    var w1 := DeleteEntry(w.Log(Exists(p.destination)), p.destination);
    var w2 := if Holds(w.fs, Files, p.destination) then w1 else w.Log(Exists(p.destination));
    assert p.destination !in w2.fs && w2.fs[p.source] == w.fs[p.source];
  }

  /** For a folder move onto an existing folder the helpers part: the synchronous one deletes the
      destination and the move succeeds; the asynchronous one keeps it and the move is refused. */
  lemma {:induction false} AsyncFolderMoveDiverges(w: World, res: Resolver, eval: Node -> Node, input: Node)
    requires input.children != [] && GetCopyMovePaths(res, eval(input), true).Ok?
    requires var p := GetCopyMovePaths(res, eval(input), true).value;
      Holds(w.fs, Folders, p.source) && Holds(w.fs, Folders, p.destination)
    ensures MoveFolder(w, res, eval, input).status == Done
    ensures CopyMoveHelperAsync(w, res, eval, input, Folders, false, true).status
      == Failed(Conflict(GetCopyMovePaths(res, eval(input), true).value.destination))
  {
    MoveOntoExisting(w.Log(Eval), GetCopyMovePaths(res, eval(input), true).value);
  }

  /** The file service sees no folder: a folder destination is neither probed positive nor
      deleted, and the copy or move is refused; a folder source is not found. */
  lemma {:induction false} FileServiceSkipsFolders(w: World, p: Paths, copy: bool)
    requires p.source != p.destination
    ensures p.destination in w.fs && w.fs[p.destination].Folder? && Holds(w.fs, Files, p.source) ==>
      var t := Transfer(w, Files, p, copy, true);
      t.0.fs == w.fs && t.1 == Failed(Conflict(p.destination))
    ensures p.source in w.fs && w.fs[p.source].Folder? ==>
      var t := Transfer(w, Files, p, copy, true);
      t.1 == Failed(NotFound(p.source)) && p.source in t.0.fs && t.0.fs[p.source] == w.fs[p.source]
  {
    var w1 := w.Log(Exists(p.destination));
    var w2 := if Holds(w.fs, Files, p.destination) then DeleteEntry(w1, p.destination) else w1;
    assert p.source in w.fs ==> p.source in w2.fs && w2.fs[p.source] == w.fs[p.source];
  }

  /** For folders the asynchronous helper goes from evaluation straight to the copy or move:
      no existence probe and no delete. */
  lemma {:induction false} AsyncFolderSkipsProbe(w: World, res: Resolver, eval: Node -> Node, input: Node, copy: bool)
    requires input.children != [] && GetCopyMovePaths(res, eval(input), true).Ok?
    ensures var p := GetCopyMovePaths(res, eval(input), true).value;
      CopyMoveHelperAsync(w, res, eval, input, Folders, copy, true).world.trace
        == w.trace + [Eval, if copy then Copy(p.source, p.destination) else Move(p.source, p.destination)]
  {
    var paths := GetCopyMovePaths(res, eval(input), true);
    var o := CopyMoveHelperAsync(w, res, eval, input, Folders, copy, true);
    assert Evaluated(w, o, Folders, paths, copy, false);
    assert o.world.trace == TransferTrace(w.trace + [Eval], paths.value, copy, false, false);
    TraceWithoutProbe(w.trace + [Eval], paths.value, copy);
  }

  lemma TraceWithoutProbe(t: seq<Call>, p: Paths, copy: bool)
    ensures TransferTrace(t, p, copy, false, false)
      == t + [if copy then Copy(p.source, p.destination) else Move(p.source, p.destination)]
  {
    assert t + [] + [] == t;
  }

  /** A copy changes no path but its destination, whatever the kind and whether or not it probes. */
  lemma {:induction false} CopyKeepsOthers(w: World, kind: Kind, p: Paths, probe: bool, q: string)
    requires q != p.destination && q in w.fs
    ensures var t := Transfer(w, kind, p, true, probe); q in t.0.fs && t.0.fs[q] == w.fs[q]
  {
    var w1 := w.Log(Exists(p.destination));
    var w2 := if !probe then w else if Holds(w.fs, kind, p.destination) then DeleteEntry(w1, p.destination) else w1;
    assert q in w2.fs && w2.fs[q] == w.fs[q];
  }
}
