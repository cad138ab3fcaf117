/** The shared body of the later copy and move slots (`utilities/Helpers.cs`).

    The slot passes its own name, for the error message, and a callback that
    performs the copy or move; the callback is a function on the filesystem
    here. Unlike `helpers/Utilities.cs`, there is no existence probe, no
    delete and no same-path guard: both absolute paths go to the callback as
    they are. */
module Helpers {
  import opened Results
  import opened Nodes
  import opened Services
  import opened RootResolver

  type Functor = (map<string, Content>, string, string) -> map<string, Content>

  function NoDestination(slot: string): string {
    "No destination provided to [" + slot + "]"
  }

  /** `SanityCheckInvocation`: a call without children is refused, naming the slot. */
  function SanityCheckInvocation(input: Node, slot: string): (r: Option<Error>)
    ensures r.Some? <==> input.children == []
    ensures r.Some? ==> r.value == Hyperlambda(NoDestination(slot))
  {
    if input.children == [] then Some(Hyperlambda(NoDestination(slot))) else None
  }

  /** The two absolute paths the callback receives, in the order the source reads them: the
      node's own value, then the value of its first child. */
  function Arguments(res: Resolver, n: Node): (r: Result<(string, string)>)
    ensures r.Ok? <==> n.value.Text? && n.children != [] && n.children[0].value.Text?
    ensures r.Ok? ==> r.value == (res.AbsolutePath(n.value.text), res.AbsolutePath(n.children[0].value.text))
    ensures !n.value.Text? ==> r == Fail(Conversion)
    ensures n.value.Text? && n.children == [] ==> r == Fail(NoElements)
  {
    var src :- AsText(n.value);
    var first :- First(n.children);
    var dest :- AsText(first.value);
    Ok((res.AbsolutePath(src), res.AbsolutePath(dest)))
  }

  /** `ExecuteImplementation`. */
  function Invoke(w: World, res: Resolver, n: Node, functor: Functor): (o: Outcome)
    ensures o.node == n
    ensures Arguments(res, n).Fail? ==> o == Outcome(w, n, Failed(Arguments(res, n).error))
    ensures Arguments(res, n).Ok? ==>
      var (s, d) := Arguments(res, n).value;
      o == Outcome(World(functor(w.fs, s, d), w.trace + [Call.Invoke(s, d)]), n, Done)
  {
    match Arguments(res, n)
    case Fail(e) => Outcome(w, n, Failed(e))
    case Ok((s, d)) => Outcome(World(functor(w.fs, s, d), w.trace + [Call.Invoke(s, d)]), n, Done)
  }

  /** `Execute`: check, evaluate, then hand both paths to the callback. */
  function Execute(w: World, res: Resolver, eval: Node -> Node, input: Node, slot: string, functor: Functor): (o: Outcome)
    ensures input.children == [] ==> o == Outcome(w, input, Failed(Hyperlambda(NoDestination(slot))))
    ensures input.children != [] ==> o == Invoke(w.Log(Eval), res, eval(input), functor)
  {
    var check := SanityCheckInvocation(input, slot);
    if check.Some? then Outcome(w, input, Failed(check.value))
    else Invoke(w.Log(Eval), res, eval(input), functor)
  }

  /** `ExecuteAsync` differs from `Execute` only in awaiting the evaluation. */
  function ExecuteAsync(w: World, res: Resolver, eval: Node -> Node, input: Node, slot: string, functor: Functor): (o: Outcome)
    ensures o == Execute(w, res, eval, input, slot, functor)
  {
    var check := SanityCheckInvocation(input, slot);
    if check.Some? then Outcome(w, input, Failed(check.value))
    else Invoke(w.Log(Eval), res, eval(input), functor)
  }

  /** The callback runs exactly once on a well-formed call, and the trace holds nothing but the
      evaluation and that one invocation: no probe and no delete. */
  lemma {:induction false} OnlyTheCallback(w: World, res: Resolver, eval: Node -> Node, input: Node, slot: string, functor: Functor)
    requires input.children != [] && Arguments(res, eval(input)).Ok?
    ensures var o := Execute(w, res, eval, input, slot, functor);
      var (s, d) := Arguments(res, eval(input)).value;
      && o.status == Done
      && o.world.trace == w.trace + [Eval, Call.Invoke(s, d)]
      && o.world.fs == functor(w.fs, s, d)
  {
    assert w.Log(Eval).trace + [Call.Invoke(Arguments(res, eval(input)).value.0, Arguments(res, eval(input)).value.1)]
      == w.trace + [Eval, Call.Invoke(Arguments(res, eval(input)).value.0, Arguments(res, eval(input)).value.1)];
  }

  /** Without a same-path guard, a source and destination that differ only in leading separators
      reach the callback as one path. */
  lemma {:induction false} SamePathReachesCallback(w: World, res: Resolver, eval: Node -> Node, input: Node,
                                                    slot: string, functor: Functor, lead: string, path: string)
    requires input.children != [] && AllSeparators(lead)
    requires eval(input).value == Text(lead + path)
    requires eval(input).children != [] && eval(input).children[0].value == Text(path)
    ensures var o := Execute(w, res, eval, input, slot, functor);
      && o.status == Done
      && o.world.trace[|o.world.trace| - 1] == Call.Invoke(res.AbsolutePath(path), res.AbsolutePath(path))
  {
    AbsoluteIgnoresLeadingSeparators(res, lead, path);
  }
}
