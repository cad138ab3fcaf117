/** The older `[io.files.eval]` slot (`files/EvalFile.cs`).

    The file at `CombinePaths(RootFolder, value)` is read from disk and turned
    into a lambda; every `.arguments` node it declares is dropped, the call's
    children become the new `.arguments` (when there are any), and the lambda
    is evaluated inside a result scope. No `.filename` node is added. */
module EvalFile {
  import opened Results
  import opened Nodes
  import opened Services
  import opened RootResolver
  import PathResolver

  /** The lambda the script runs as: the file's text as its value, and the parsed nodes below it. */
  function Lambda(input: Node, content: string, parsed: seq<Node>): (lambda: Node)
    ensures lambda.value == Text(content)
    ensures lambda.children == WithArguments(WithoutNamed(parsed, ArgumentsName), input.children)
  {
    Node("", Text(content), WithArguments(WithoutNamed(parsed, ArgumentsName), input.children))
  }

  function Signal(w: World, res: Resolver, parse: string -> seq<Node>, run: Node -> Node, input: Node): (o: Outcome)
    ensures !input.value.Text? ==> o == Outcome(w, input, Failed(Conversion))
    ensures input.value.Text? ==>
      var path := PathResolver.CombinePaths(res.RootFolder(), input.value.text);
      var loaded := LoadText(w, path);
      && (loaded.1.Fail? ==> o == Outcome(loaded.0, input, Failed(loaded.1.error)))
      && (loaded.1.Ok? ==>
            var result := run(Lambda(input, loaded.1.value, parse(loaded.1.value)));
            o == Outcome(loaded.0.Log(Eval), input.(value := result.value, children := result.children), Done))
  {
    match AsText(input.value)
    case Fail(e) => Outcome(w, input, Failed(e))
    case Ok(name) =>
      var (w1, loaded) := LoadText(w, PathResolver.CombinePaths(res.RootFolder(), name));
      match loaded
      case Fail(e) => Outcome(w1, input, Failed(e))
      case Ok(content) =>
        var result := run(Lambda(input, content, parse(content)));
        Outcome(w1.Log(Eval), input.(value := result.value, children := result.children), Done)
  }

  /** The script sees exactly one `.arguments` node, holding the caller's children, when the
      caller passed any, and none otherwise, whatever the file declared. */
  lemma {:induction false} ArgumentsExactlyFromCaller(input: Node, content: string, parsed: seq<Node>)
    ensures CountNamed(Lambda(input, content, parsed).children, ArgumentsName) == if input.children == [] then 0 else 1
    ensures forall n :: n in Lambda(input, content, parsed).children && n.name == ArgumentsName ==>
      n == Node(ArgumentsName, Null, input.children)
  {
    var rest := WithoutNamed(parsed, ArgumentsName);
    NoneCountsZero(rest, ArgumentsName);
    if input.children != [] {
      CountNamedAppend([Node(ArgumentsName, Null, input.children)], rest, ArgumentsName);
    }
  }

  /** Every other node the file declares reaches the script. */
  lemma {:induction false} DeclarationsKept(input: Node, content: string, parsed: seq<Node>, n: Node)
    requires n in parsed && n.name != ArgumentsName
    ensures n in Lambda(input, content, parsed).children
  {
    WithoutNamedKeeps(parsed, ArgumentsName, n);
  }
}
