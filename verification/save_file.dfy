/** The `[io.file.save]` and `[io.file.save.binary]` slots (`file/SaveFile.cs`).

    One class serves both names. It evaluates the call node first and then
    dispatches on the name of the evaluated node: text goes to a text file, bytes to a binary file.
    Saving replaces what was at the path. */
module SaveFile {
  import opened Results
  import opened Nodes
  import opened Services
  import opened RootResolver

  const TextSlot: string := "io.file.save"
  const BinarySlot: string := "io.file.save.binary"
  const UnknownSlot: string := "You shouldn't be here ...??"

  /** `GetArgs`: the absolute path from the node's value, the content from its first child. */
  function GetArgs(res: Resolver, n: Node, binary: bool): (r: Result<(string, Content)>)
    ensures r.Ok? <==> n.value.Text? && n.children != [] && (if binary then n.children[0].value.Blob? else n.children[0].value.Text?)
    ensures r.Ok? ==> r.value.0 == res.AbsolutePath(n.value.text)
    ensures r.Ok? ==> r.value.1 == if binary then BinaryFile(n.children[0].value.bytes) else TextFile(n.children[0].value.text)
  {
    var path :- AsText(n.value);
    var first :- First(n.children);
    if binary then
      var bytes :- AsBlob(first.value);
      Ok((res.AbsolutePath(path), BinaryFile(bytes)))
    else
      var text :- AsText(first.value);
      Ok((res.AbsolutePath(path), TextFile(text)))
  }

  /** `Signal` (and `SignalAsync`, which only awaits the same steps). */
  function Signal(w: World, res: Resolver, eval: Node -> Node, input: Node): (o: Outcome)
    ensures o.node == eval(input)
    ensures |o.world.trace| > |w.trace| && o.world.trace[..|w.trace| + 1] == w.trace + [Eval]
    ensures eval(input).name != TextSlot && eval(input).name != BinarySlot ==>
      o == Outcome(w.Log(Eval), eval(input), Failed(Hyperlambda(UnknownSlot)))
    ensures o.status == Done <==>
      (eval(input).name == TextSlot || eval(input).name == BinarySlot) && GetArgs(res, eval(input), eval(input).name == BinarySlot).Ok?
    ensures o.status == Done ==>
      var (path, content) := GetArgs(res, eval(input), eval(input).name == BinarySlot).value;
      o.world == SaveEntry(w.Log(Eval), path, content)
  {
    var n := eval(input);
    var w1 := w.Log(Eval);
    if n.name == TextSlot || n.name == BinarySlot then
      match GetArgs(res, n, n.name == BinarySlot)
      case Fail(e) => Outcome(w1, n, Failed(e))
      case Ok((path, content)) => Outcome(SaveEntry(w1, path, content), n, Done)
    else Outcome(w1, n, Failed(Hyperlambda(UnknownSlot)))
  }

  /** What a text save leaves behind can be loaded back. */
  lemma {:induction false} SaveThenLoad(w: World, res: Resolver, eval: Node -> Node, input: Node)
    requires eval(input).name == TextSlot && GetArgs(res, eval(input), false).Ok?
    ensures var path := GetArgs(res, eval(input), false).value.0;
      LoadText(Signal(w, res, eval, input).world, path).1 == Ok(eval(input).children[0].value.text)
  {
  }

  /** Saving twice to one path: the second content wins, whatever the first was. */
  lemma {:induction false} SecondSaveWins(w: World, res: Resolver, eval: Node -> Node, first: Node, second: Node)
    requires eval(first).name == TextSlot && eval(second).name == TextSlot
    requires GetArgs(res, eval(first), false).Ok? && GetArgs(res, eval(second), false).Ok?
    requires GetArgs(res, eval(first), false).value.0 == GetArgs(res, eval(second), false).value.0
    ensures var path := GetArgs(res, eval(second), false).value.0;
      var w2 := Signal(Signal(w, res, eval, first).world, res, eval, second).world;
      LoadText(w2, path).1 == Ok(eval(second).children[0].value.text)
  {
    SaveThenLoad(Signal(w, res, eval, first).world, res, eval, second);
  }

  /** Saving touches only its own path. */
  lemma {:induction false} SaveTouchesOnePath(w: World, res: Resolver, eval: Node -> Node, input: Node, other: string)
    requires Signal(w, res, eval, input).status == Done
    requires other != GetArgs(res, eval(input), eval(input).name == BinarySlot).value.0
    ensures var o := Signal(w, res, eval, input);
      (other in o.world.fs <==> other in w.fs) && (other in w.fs ==> o.world.fs[other] == w.fs[other])
  {
  }
}
