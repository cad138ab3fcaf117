/** The `[io.stream.save-file]` slot (`stream/SaveFileStream.cs`).

    An optional `overwrite` child (default true) is read and removed before
    evaluation; after evaluation the node's value is the destination and its
    first remaining child holds the stream. With `overwrite`, an existing
    destination file is deleted first; without it, whatever is there is left
    to the stream service, whose behaviour on an existing path is a parameter. */
module SaveFileStream {
  import opened Results
  import opened Nodes
  import opened Services
  import opened RootResolver

  const OverwriteName: string := "overwrite"

  /** The `overwrite` argument: true unless the first child of that name says otherwise. */
  function Overwrite(input: Node): (r: Result<bool>)
    ensures FirstNamed(input.children, OverwriteName).None? ==> r == Ok(true)
    ensures FirstNamed(input.children, OverwriteName).Some? ==>
      r == AsFlag(input.children[FirstNamed(input.children, OverwriteName).value].value)
  {
    match FirstNamed(input.children, OverwriteName)
    case None => Ok(true)
    case Some(i) => AsFlag(input.children[i].value)
  }

  /** The node handed to evaluation: the first `overwrite` child untied, nothing else changed. */
  function Stripped(input: Node): (r: Node)
    ensures r.name == input.name && r.value == input.value
    ensures r.children == WithoutFirstNamed(input.children, OverwriteName)
    ensures CountNamed(r.children, OverwriteName)
      == if CountNamed(input.children, OverwriteName) == 0 then 0 else CountNamed(input.children, OverwriteName) - 1
  {
    WithoutFirstNamedCount(input.children, OverwriteName);
    input.(children := WithoutFirstNamed(input.children, OverwriteName))
  }

  /** Destination and stream, read from the evaluated node. */
  function Target(res: Resolver, n: Node): (r: Result<(string, seq<bv8>)>)
    ensures r.Ok? <==> n.value.Text? && n.children != [] && n.children[0].value.Stream?
    ensures r.Ok? ==> r.value == (res.AbsolutePath(n.value.text), n.children[0].value.data)
  {
    var path :- AsText(n.value);
    var first :- First(n.children);
    var data :- AsStream(first.value);
    Ok((res.AbsolutePath(path), data))
  }

  /** With `overwrite`, probe the destination and delete it if a file is there; without, touch nothing. */
  function Clear(w: World, destination: string, overwrite: bool): (r: World)
    ensures destination !in r.fs <==> destination !in w.fs || (overwrite && Holds(w.fs, Files, destination))
    ensures destination in r.fs ==> r.fs[destination] == w.fs[destination]
    ensures forall p :: p != destination ==> (p in r.fs <==> p in w.fs)
    ensures forall p :: p != destination && p in w.fs ==> r.fs[p] == w.fs[p]
    ensures r.trace == w.trace + ClearTrace(w.fs, destination, overwrite)
  {
    if !overwrite then
      assert w.trace + [] == w.trace;
      w
    else
      var (w1, present) := ExistsEntry(w, Files, destination);
      if present then DeleteEntry(w1, destination) else w1
  }

  /** The calls `Clear` makes: a probe with `overwrite`, and a delete when a file is there. */
  function ClearTrace(fs: map<string, Content>, destination: string, overwrite: bool): seq<Call> {
    if !overwrite then []
    else if Holds(fs, Files, destination) then [Exists(destination), Delete(destination)]
    else [Exists(destination)]
  }

  /** The service steps once the arguments are known: clear the destination if asked, then save. */
  function Store(w: World, n: Node, destination: string, data: seq<bv8>, overwrite: bool, mode: StreamSave): (o: Outcome)
    ensures o.node == n
    ensures o.status == Done <==>
      mode == Replace || destination !in w.fs || (overwrite && Holds(w.fs, Files, destination))
    ensures o.status == Done ==> o.world.fs == w.fs[destination := BinaryFile(data)]
    ensures o.status != Done ==> o.status == Failed(Conflict(destination)) && o.world.fs == w.fs
    ensures o.world.trace == w.trace + ClearTrace(w.fs, destination, overwrite) + [SaveStream(destination)]
  {
    var w1 := Clear(w, destination, overwrite);
    var (w2, status) := SaveStreamEntry(w1, destination, data, mode);
    assert status == Done ==> w2.fs == w1.fs[destination := BinaryFile(data)];
    assert status != Done ==> w1.fs == w.fs;
    Outcome(w2, n, status)
  }

  /** `Signal` and `SignalAsync`. */
  function Signal(w: World, res: Resolver, eval: Node -> Node, input: Node, mode: StreamSave): (o: Outcome)
    ensures Overwrite(input).Fail? ==> o == Outcome(w, input, Failed(Overwrite(input).error))
    ensures Overwrite(input).Ok? ==> o.node == eval(Stripped(input))
    ensures Overwrite(input).Ok? && Target(res, eval(Stripped(input))).Fail? ==>
      o == Outcome(w.Log(Eval), eval(Stripped(input)), Failed(Target(res, eval(Stripped(input))).error))
    ensures Overwrite(input).Ok? && Target(res, eval(Stripped(input))).Ok? ==>
      var target := Target(res, eval(Stripped(input))).value;
      o == Store(w.Log(Eval), eval(Stripped(input)), target.0, target.1, Overwrite(input).value, mode)
  {
    if Overwrite(input).Fail? then Outcome(w, input, Failed(Overwrite(input).error))
    else
      var n := eval(Stripped(input));
      var target := Target(res, n);
      if target.Fail? then Outcome(w.Log(Eval), n, Failed(target.error))
      else Store(w.Log(Eval), n, target.value.0, target.value.1, Overwrite(input).value, mode)
  }

  /** The slot succeeds exactly when the arguments are good and either the service replaces
      existing files, or nothing is at the destination, or a file there may be deleted first;
      the file then holds the stream and nothing else changes. */
  lemma {:induction false} SavesExactlyWhenAllowed(w: World, res: Resolver, eval: Node -> Node, input: Node, mode: StreamSave)
    ensures var o := Signal(w, res, eval, input, mode);
      o.status == Done <==>
        && Overwrite(input).Ok? && Target(res, eval(Stripped(input))).Ok?
        && var d := Target(res, eval(Stripped(input))).value.0;
           (mode == Replace || d !in w.fs || (Overwrite(input).value && Holds(w.fs, Files, d)))
    ensures var o := Signal(w, res, eval, input, mode);
      o.status == Done ==>
        var target := Target(res, eval(Stripped(input))).value;
        o.world.fs == w.fs[target.0 := BinaryFile(target.1)]
  {
  }

  /** Without `overwrite: false`, an existing destination file is replaced, whatever the stream
      service does with existing paths. */
  lemma {:induction false} DefaultReplaces(w: World, res: Resolver, eval: Node -> Node, input: Node, mode: StreamSave)
    requires FirstNamed(input.children, OverwriteName).None?
    requires Target(res, eval(Stripped(input))).Ok?
    requires FreeOrFile(w.fs, Target(res, eval(Stripped(input))).value.0)
    ensures var (d, data) := Target(res, eval(Stripped(input))).value;
      var o := Signal(w, res, eval, input, mode);
      o.status == Done && o.world.fs[d] == BinaryFile(data)
  {
  }

  /** With `overwrite: false` the destination is never probed or deleted: after evaluation the
      slot makes exactly one save call, and its outcome is the stream service's; a service that
      refuses existing paths leaves the disk unchanged with a conflict. */
  lemma {:induction false} KeepLeavesItToService(w: World, res: Resolver, eval: Node -> Node, input: Node, mode: StreamSave)
    requires Overwrite(input) == Ok(false)
    requires Target(res, eval(Stripped(input))).Ok?
    ensures var (d, data) := Target(res, eval(Stripped(input))).value;
      var o := Signal(w, res, eval, input, mode);
      var saved := SaveStreamEntry(w.Log(Eval), d, data, mode);
      && o.world.trace == w.trace + [Eval, SaveStream(d)]
      && o.world.fs == saved.0.fs && o.status == saved.1
      && (mode == Refuse && d in w.fs ==> o.status == Failed(Conflict(d)) && o.world.fs == w.fs)
  {
  }

  /** When `overwrite` comes first and evaluation changes nothing, the stream is read from the
      second child, not from the `overwrite` node. */
  lemma {:induction false} StreamAfterOverwrite(res: Resolver, input: Node)
    requires |input.children| >= 2 && input.children[0].name == OverwriteName
    ensures Stripped(input).children == input.children[1..]
    ensures Target(res, Stripped(input)).Ok? ==> Target(res, Stripped(input)).value.1 == input.children[1].value.data
  {
  }
}
