/** The `[io.file.copy]` and `[io.file.move]` slots (`file/CopyFile.cs`, `file/MoveFile.cs`).

    Both call a sanity check and a path derivation from the folder namespace's
    `Utilities` class, which is not part of this model; they are the two fields
    of a `Policy`. After evaluation, an existing destination is deleted and the
    file is copied or moved. */
module FileCopyMove {
  import opened Results
  import opened Nodes
  import opened Services
  import opened RootResolver
  import Utilities

  /** The argument check, run before evaluation, and the derivation of the two paths from the
      evaluated node. */
  datatype Policy = Policy(check: Node -> Option<Error>, paths: Node -> Result<Utilities.Paths>)

  /** `Signal` and `SignalAsync` of both slots: they share one shape and differ only in `copy`. */
  function Slot(w: World, policy: Policy, eval: Node -> Node, input: Node, copy: bool): (o: Outcome)
    ensures policy.check(input).Some? ==> o == Outcome(w, input, Failed(policy.check(input).value))
    ensures policy.check(input).None? ==> o.node == eval(input)
    ensures policy.check(input).None? ==> Utilities.Evaluated(w, o, Files, policy.paths(eval(input)), copy, true)
  {
    var check := policy.check(input);
    if check.Some? then Outcome(w, input, Failed(check.value))
    else
      var n := eval(input);
      var paths := policy.paths(n);
      var w1 := w.Log(Eval);
      if paths.Fail? then Outcome(w1, n, Failed(paths.error))
      else
        var t := Utilities.Transfer(w1, Files, paths.value, copy, true);
        Outcome(t.0, n, t.1)
  }

  /** The policy of `helpers/Utilities.cs` in file mode. */
  function HelperPolicy(res: Resolver): (p: Policy)
    ensures forall n :: p.check(n).Some? <==> n.children == []
  {
    Policy(Utilities.SanityCheckArguments, n => Utilities.GetCopyMovePaths(res, n, false))
  }

  /** With the helper's policy, these slots are exactly the file-mode copy-and-move helper. */
  lemma {:induction false} SlotIsHelper(w: World, res: Resolver, eval: Node -> Node, input: Node, copy: bool)
    ensures Slot(w, HelperPolicy(res), eval, input, copy) == Utilities.CopyMoveHelper(w, res, eval, input, Files, copy, false)
  {
  }

  /** Whatever the policy, a copy of a file between two different derived paths, onto no folder,
      keeps the source and gives the destination its content. */
  lemma {:induction false} CopyToOtherPath(w: World, policy: Policy, eval: Node -> Node, input: Node)
    requires policy.check(input).None? && policy.paths(eval(input)).Ok?
    requires var p := policy.paths(eval(input)).value; p.source != p.destination && Holds(w.fs, Files, p.source) && FreeOrFile(w.fs, p.destination)
    ensures var p := policy.paths(eval(input)).value;
      var o := Slot(w, policy, eval, input, true);
      && o.status == Done
      && p.source in o.world.fs && o.world.fs[p.source] == w.fs[p.source]
      && p.destination in o.world.fs && o.world.fs[p.destination] == w.fs[p.source]
  {
    Utilities.CopyDistinct(w.Log(Eval), policy.paths(eval(input)).value);
  }

  /** Whatever the policy, a move of a file between two different derived paths, onto no folder,
      leaves only the destination. */
  lemma {:induction false} MoveToOtherPath(w: World, policy: Policy, eval: Node -> Node, input: Node)
    requires policy.check(input).None? && policy.paths(eval(input)).Ok?
    requires var p := policy.paths(eval(input)).value; p.source != p.destination && Holds(w.fs, Files, p.source) && FreeOrFile(w.fs, p.destination)
    ensures var p := policy.paths(eval(input)).value;
      var o := Slot(w, policy, eval, input, false);
      && o.status == Done && p.source !in o.world.fs
      && p.destination in o.world.fs && o.world.fs[p.destination] == w.fs[p.source]
  {
    Utilities.MoveDistinct(w.Log(Eval), policy.paths(eval(input)).value);
  }
}
