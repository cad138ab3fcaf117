/** The `[io.file.execute]` slot (`file/ExecuteFile.cs`).

    The file named by the node's value is loaded through the file service and
    parsed; its first declared `.arguments` node is dropped, the call's
    children become the new `.arguments` (when there are any), and a
    `.filename` node is put in front. The lambda is evaluated inside a result
    scope, and the call node is replaced by what the script returned.
    Parsing and evaluation are parameters: `parse` gives the children of the
    parsed lambda, `run` gives the result node the script filled in. */
module ExecuteFile {
  import opened Results
  import opened Nodes
  import opened Services
  import opened RootResolver

  const FilenameName: string := ".filename"

  /** `GetLambda`. */
  function GetLambda(input: Node, parsed: seq<Node>, filename: string): (lambda: Node)
    ensures |lambda.children| >= 1 && lambda.children[0] == Node(FilenameName, Text(filename), [])
    ensures lambda.children[1..] == WithArguments(WithoutFirstNamed(parsed, ArgumentsName), input.children)
  {
    Node("", Null, [Node(FilenameName, Text(filename), [])]
                   + WithArguments(WithoutFirstNamed(parsed, ArgumentsName), input.children))
  }

  /** `ApplyResult`: the call node keeps its name and takes the result's value and children. */
  function ApplyResult(input: Node, result: Node): (r: Node)
    ensures r.name == input.name && r.value == result.value && r.children == result.children
  {
    input.(value := result.value, children := result.children)
  }

  /** Nothing of the call node but its name survives: its old value and children make no
      difference, and a second result overrides the first entirely. */
  lemma {:induction false} ApplyResultForgetsCall(input: Node, first: Node, result: Node, v: Value, cs: seq<Node>)
    ensures ApplyResult(input.(value := v, children := cs), result) == ApplyResult(input, result)
    ensures ApplyResult(ApplyResult(input, first), result) == ApplyResult(input, result)
  {
  }

  /** `Signal` and `SignalAsync`. */
  function Signal(w: World, res: Resolver, parse: string -> seq<Node>, run: Node -> Node, input: Node): (o: Outcome)
    ensures !input.value.Text? ==> o == Outcome(w, input, Failed(Conversion))
    ensures input.value.Text? ==>
      var path := res.AbsolutePath(input.value.text);
      var loaded := LoadText(w, path);
      && (loaded.1.Fail? ==> o == Outcome(loaded.0, input, Failed(loaded.1.error)))
      && (loaded.1.Ok? ==>
            var lambda := GetLambda(input, parse(loaded.1.value), input.value.text);
            o == Outcome(loaded.0.Log(Eval), ApplyResult(input, run(lambda)), Done))
  {
    match AsText(input.value)
    case Fail(e) => Outcome(w, input, Failed(e))
    case Ok(filename) =>
      var (w1, loaded) := LoadText(w, res.AbsolutePath(filename));
      match loaded
      case Fail(e) => Outcome(w1, input, Failed(e))
      case Ok(hyperlambda) =>
        var lambda := GetLambda(input, parse(hyperlambda), filename);
        Outcome(w1.Log(Eval), ApplyResult(input, run(lambda)), Done)
  }

  /** The script sees the caller's children as its `.arguments`, right after `.filename`; a
      call without children passes none, and the file's own first `.arguments` is gone. */
  lemma {:induction false} ArgumentsReachScript(input: Node, parsed: seq<Node>, filename: string)
    ensures var lambda := GetLambda(input, parsed, filename);
      CountNamed(lambda.children, ArgumentsName)
        == (if input.children == [] then 0 else 1)
           + (if CountNamed(parsed, ArgumentsName) == 0 then 0 else CountNamed(parsed, ArgumentsName) - 1)
    ensures input.children != [] ==>
      GetLambda(input, parsed, filename).children[1] == Node(ArgumentsName, Null, input.children)
  {
    var lambda := GetLambda(input, parsed, filename);
    var rest := WithoutFirstNamed(parsed, ArgumentsName);
    WithoutFirstNamedCount(parsed, ArgumentsName);
    assert lambda.children == [lambda.children[0]] + WithArguments(rest, input.children);
    CountNamedAppend([lambda.children[0]], WithArguments(rest, input.children), ArgumentsName);
    if input.children != [] {
      CountNamedAppend([Node(ArgumentsName, Null, input.children)], rest, ArgumentsName);
    }
  }

  /** A missing file fails after a single load and before any evaluation. */
  lemma {:induction false} MissingFileNotEvaluated(w: World, res: Resolver, parse: string -> seq<Node>,
                                                  run: Node -> Node, input: Node)
    requires input.value.Text? && res.AbsolutePath(input.value.text) !in w.fs
    ensures var o := Signal(w, res, parse, run, input);
      && o.status == Failed(NotFound(res.AbsolutePath(input.value.text)))
      && o.world.trace == w.trace + [Load(res.AbsolutePath(input.value.text))]
      && o.node == input
  {
  }
}
