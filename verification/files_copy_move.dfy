/** The older `[io.files.copy]` and `[io.files.move]` slots (`files/CopyFile.cs`,
    `files/MoveFile.cs`).

    They join paths with `PathResolver.CombinePaths` on `RootFolder`, delete an
    existing destination, and copy or move; unlike `helpers/Utilities.cs` they
    have no same-path guard. */
module FilesCopyMove {
  import opened Strings
  import opened Results
  import opened Nodes
  import opened Services
  import opened RootResolver
  import PathResolver
  import Utilities

  const CopyNoDestination: string := "No destination provided to [io.files.copy]"
  const MoveNoDestination: string := "No destination provided to [io.files.move]"

  /** Source and destination joined onto the root; with `appendName`, a destination ending in '/'
      receives the source's file name. */
  function ResolvePaths(res: Resolver, n: Node, appendName: bool): (r: Result<Utilities.Paths>)
    ensures r.Ok? <==> n.value.Text? && n.children != [] && n.children[0].value.Text?
    ensures r.Ok? ==> r.value.source == PathResolver.CombinePaths(res.RootFolder(), n.value.text)
    ensures r.Ok? ==>
      var d := PathResolver.CombinePaths(res.RootFolder(), n.children[0].value.text);
      r.value.destination == if appendName && EndsWith(d, [Slash]) then d + FileName(r.value.source) else d
  {
    var src :- AsText(n.value);
    var first :- First(n.children);
    var dest :- AsText(first.value);
    var source := PathResolver.CombinePaths(res.RootFolder(), src);
    var destination := PathResolver.CombinePaths(res.RootFolder(), dest);
    Ok(Utilities.Paths(source, if appendName && EndsWith(destination, [Slash]) then destination + FileName(source) else destination))
  }

  /** The common shape: refuse a call without children, evaluate, resolve, delete an existing
      destination file (`File.Exists` is false for a folder), then copy or move. */
  function Run(w: World, res: Resolver, eval: Node -> Node, input: Node,
               noDestination: Error, appendName: bool, copy: bool): (o: Outcome)
    ensures input.children == [] ==> o == Outcome(w, input, Failed(noDestination))
    ensures input.children != [] ==> o.node == eval(input)
    ensures input.children != [] ==> Utilities.Evaluated(w, o, Files, ResolvePaths(res, eval(input), appendName), copy, true)
  {
    if input.children == [] then Outcome(w, input, Failed(noDestination))
    else
      var n := eval(input);
      var paths := ResolvePaths(res, n, appendName);
      var w1 := w.Log(Eval);
      if paths.Fail? then Outcome(w1, n, Failed(paths.error))
      else
        var t := Utilities.Transfer(w1, Files, paths.value, copy, true);
        Outcome(t.0, n, t.1)
  }

  /** `CopyFile.Signal`: `ArgumentNullException` without children; a folder destination gets the file name. */
  function CopySync(w: World, res: Resolver, eval: Node -> Node, input: Node): Outcome {
    Run(w, res, eval, input, ArgumentNull(CopyNoDestination), true, true)
  }

  /** `CopyFile.SignalAsync`: `ArgumentException` without children, and no file name appended.
      Its copy goes through `File.OpenRead`, `File.Create` and `CopyToAsync`; that stream copy is
      modelled as the one copy call of the file service. */
  function CopyAsync(w: World, res: Resolver, eval: Node -> Node, input: Node): Outcome {
    Run(w, res, eval, input, Argument(CopyNoDestination), false, true)
  }

  /** `MoveFile.Signal`. */
  function MoveSync(w: World, res: Resolver, eval: Node -> Node, input: Node): Outcome {
    Run(w, res, eval, input, Argument(MoveNoDestination), true, false)
  }

  /** The two copy variants differ on an empty call only in the exception type, and on a folder
      destination only in whether the source's file name is appended. */
  lemma {:induction false} CopyVariantsDiffer(w: World, res: Resolver, eval: Node -> Node, input: Node)
    ensures input.children == [] ==>
      && CopySync(w, res, eval, input).status == Failed(ArgumentNull(CopyNoDestination))
      && CopyAsync(w, res, eval, input).status == Failed(Argument(CopyNoDestination))
    ensures input.children != [] && ResolvePaths(res, eval(input), false).Ok? ==>
      var d := ResolvePaths(res, eval(input), false).value.destination;
      var s := ResolvePaths(res, eval(input), false).value.source;
      && ResolvePaths(res, eval(input), true).value.source == s
      && ResolvePaths(res, eval(input), true).value.destination
         == if EndsWith(d, [Slash]) then d + FileName(s) else d
  {
  }

  /** No same-path guard: when source and destination resolve to one existing file, it is deleted
      and the copy or move then fails for want of a source, losing the file. */
  lemma {:induction false} SelfTransferLosesFile(w: World, res: Resolver, eval: Node -> Node, input: Node)
    requires input.children != []
    requires ResolvePaths(res, eval(input), true).Ok?
    requires ResolvePaths(res, eval(input), true).value.source == ResolvePaths(res, eval(input), true).value.destination
    requires Holds(w.fs, Files, ResolvePaths(res, eval(input), true).value.source)
    ensures var s := ResolvePaths(res, eval(input), true).value.source;
      var o := CopySync(w, res, eval, input);
      o.status == Failed(NotFound(s)) && s !in o.world.fs
    ensures var s := ResolvePaths(res, eval(input), true).value.source;
      var o := MoveSync(w, res, eval, input);
      o.status == Failed(NotFound(s)) && s !in o.world.fs
  {
  }

  const SameSourceAndDestination: string := "You cannot [io.files.copy] a file using the same source and destination path"

  /** `CopyFile.Signal` with the guard of `helpers/Utilities.cs` added before the delete. */
  function CopySyncGuarded(w: World, res: Resolver, eval: Node -> Node, input: Node): (o: Outcome)
    ensures input.children != [] ==> o.node == eval(input)
    ensures input.children != [] && ResolvePaths(res, eval(input), true).Ok? ==>
      var p := ResolvePaths(res, eval(input), true).value;
      p.source == p.destination ==> o.world == w.Log(Eval) && o.status == Failed(Hyperlambda(SameSourceAndDestination))
  {
    if input.children != [] then
      var n := eval(input);
      var paths := ResolvePaths(res, n, true);
      if paths.Ok? && paths.value.source == paths.value.destination then
        Outcome(w.Log(Eval), n, Failed(Hyperlambda(SameSourceAndDestination)))
      else CopySync(w, res, eval, input)
    else CopySync(w, res, eval, input)
  }

  /** Once the paths resolve, the slot is the evaluation followed by the transfer. */
  lemma {:induction false} RunResolved(w: World, res: Resolver, eval: Node -> Node, input: Node,
                                       noDestination: Error, appendName: bool, copy: bool)
    requires input.children != [] && ResolvePaths(res, eval(input), appendName).Ok?
    ensures var t := Utilities.Transfer(w.Log(Eval), Files, ResolvePaths(res, eval(input), appendName).value, copy, true);
      Run(w, res, eval, input, noDestination, appendName, copy) == Outcome(t.0, eval(input), t.1)
  {
  }

  /** The guarded copy keeps an existing source, whatever the two paths are. */
  lemma {:induction false} GuardedCopyKeepsSource(w: World, res: Resolver, eval: Node -> Node, input: Node)
    requires input.children != []
    requires ResolvePaths(res, eval(input), true).Ok?
    requires ResolvePaths(res, eval(input), true).value.source in w.fs
    ensures var s := ResolvePaths(res, eval(input), true).value.source;
      var o := CopySyncGuarded(w, res, eval, input);
      s in o.world.fs && o.world.fs[s] == w.fs[s]
  {
    var p := ResolvePaths(res, eval(input), true).value;
    if p.source != p.destination {
      RunResolved(w, res, eval, input, ArgumentNull(CopyNoDestination), true, true);
      Utilities.CopyKeepsOthers(w.Log(Eval), Files, p, true, p.source);
    }
  }

  /** Copy of a file to a different path that holds no folder: both paths then hold the source's content. */
  lemma {:induction false} CopyToOtherPath(w: World, res: Resolver, eval: Node -> Node, input: Node)
    requires input.children != []
    requires ResolvePaths(res, eval(input), true).Ok?
    requires var p := ResolvePaths(res, eval(input), true).value;
      Holds(w.fs, Files, p.source) && FreeOrFile(w.fs, p.destination) && p.source != p.destination
    ensures var p := ResolvePaths(res, eval(input), true).value;
      var o := CopySync(w, res, eval, input);
      && o.status == Done
      && p.source in o.world.fs && o.world.fs[p.source] == w.fs[p.source]
      && p.destination in o.world.fs && o.world.fs[p.destination] == w.fs[p.source]
  {
    RunResolved(w, res, eval, input, ArgumentNull(CopyNoDestination), true, true);
    Utilities.CopyDistinct(w.Log(Eval), ResolvePaths(res, eval(input), true).value);
  }

  /** Move of a file to a different path that holds no folder: the destination then holds the
      source's content and the source is gone. */
  lemma {:induction false} MoveToOtherPath(w: World, res: Resolver, eval: Node -> Node, input: Node)
    requires input.children != []
    requires ResolvePaths(res, eval(input), true).Ok?
    requires var p := ResolvePaths(res, eval(input), true).value;
      Holds(w.fs, Files, p.source) && FreeOrFile(w.fs, p.destination) && p.source != p.destination
    ensures var p := ResolvePaths(res, eval(input), true).value;
      var o := MoveSync(w, res, eval, input);
      && o.status == Done && p.source !in o.world.fs
      && p.destination in o.world.fs && o.world.fs[p.destination] == w.fs[p.source]
  {
    RunResolved(w, res, eval, input, Argument(MoveNoDestination), true, false);
    Utilities.MoveDistinct(w.Log(Eval), ResolvePaths(res, eval(input), true).value);
  }

  /** `File.Exists` is false for a folder: a folder at the destination is neither deleted nor
      replaced, and the copy or move is refused. */
  lemma {:induction false} FolderDestinationRefused(w: World, res: Resolver, eval: Node -> Node, input: Node,
                                                    noDestination: Error, copy: bool)
    requires input.children != [] && ResolvePaths(res, eval(input), true).Ok?
    requires var p := ResolvePaths(res, eval(input), true).value;
      && p.source != p.destination && Holds(w.fs, Files, p.source)
      && p.destination in w.fs && w.fs[p.destination].Folder?
    ensures var p := ResolvePaths(res, eval(input), true).value;
      var o := Run(w, res, eval, input, noDestination, true, copy);
      o.status == Failed(Conflict(p.destination)) && o.world.fs == w.fs
  {
    RunResolved(w, res, eval, input, noDestination, true, copy);
    Utilities.FileServiceSkipsFolders(w.Log(Eval), ResolvePaths(res, eval(input), true).value, copy);
  }
}
