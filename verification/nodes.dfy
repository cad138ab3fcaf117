/** The host's lambda tree: a node has a name, a value and ordered children.

    Values are kept in the typed form `GetEx<T>()` would hand back; expressions
    and magic.node's conversions between kinds are not part of this model. */
module Nodes {
  import opened Results

  datatype Value =
    | Null
    | Text(text: string)
    | Flag(flag: bool)
    | Blob(bytes: seq<bv8>)
    | Stream(data: seq<bv8>)

  datatype Node = Node(name: string, value: Value, children: seq<Node>)

  function AsText(v: Value): (r: Result<string>)
    ensures r.Ok? <==> v.Text?
    ensures r.Ok? ==> r.value == v.text
    ensures r.Fail? ==> r.error == Conversion
  {
    if v.Text? then Ok(v.text) else Fail(Conversion)
  }

  function AsFlag(v: Value): (r: Result<bool>)
    ensures r.Ok? <==> v.Flag?
    ensures r.Ok? ==> r.value == v.flag
    ensures r.Fail? ==> r.error == Conversion
  {
    if v.Flag? then Ok(v.flag) else Fail(Conversion)
  }

  function AsBlob(v: Value): (r: Result<seq<bv8>>)
    ensures r.Ok? <==> v.Blob?
    ensures r.Ok? ==> r.value == v.bytes
    ensures r.Fail? ==> r.error == Conversion
  {
    if v.Blob? then Ok(v.bytes) else Fail(Conversion)
  }

  function AsStream(v: Value): (r: Result<seq<bv8>>)
    ensures r.Ok? <==> v.Stream?
    ensures r.Ok? ==> r.value == v.data
    ensures r.Fail? ==> r.error == Conversion
  {
    if v.Stream? then Ok(v.data) else Fail(Conversion)
  }

  /** `Children.First()`: throws on an empty child list. */
  function First(cs: seq<Node>): (r: Result<Node>)
    ensures r.Ok? <==> cs != []
    ensures r.Ok? ==> r.value == cs[0]
    ensures r.Fail? ==> r.error == NoElements
  {
    if cs == [] then Fail(NoElements) else Ok(cs[0])
  }

  /** Position of `Children.FirstOrDefault(x => x.Name == name)`, if any. */
  function FirstNamed(cs: seq<Node>, name: string): (r: Option<nat>)
    ensures r.Some? ==> r.value < |cs| && cs[r.value].name == name
    ensures r.Some? ==> forall j :: 0 <= j < r.value ==> cs[j].name != name
    ensures r.None? ==> forall j :: 0 <= j < |cs| ==> cs[j].name != name
  {
    if cs == [] then None
    else if cs[0].name == name then Some(0)
    else match FirstNamed(cs[1..], name)
      case None => None
      case Some(i) => Some(i + 1)
  }

  function CountNamed(cs: seq<Node>, name: string): nat {
    if cs == [] then 0 else (if cs[0].name == name then 1 else 0) + CountNamed(cs[1..], name)
  }

  /** `Children.FirstOrDefault(x => x.Name == name)?.UnTie()`: the first such child leaves, nothing else moves. */
  function WithoutFirstNamed(cs: seq<Node>, name: string): (r: seq<Node>)
    ensures FirstNamed(cs, name).None? ==> r == cs
    ensures FirstNamed(cs, name).Some? ==>
      var i := FirstNamed(cs, name).value; r == cs[..i] + cs[i + 1..]
  {
    match FirstNamed(cs, name)
    case None => cs
    case Some(i) => cs[..i] + cs[i + 1..]
  }

  /** Every child named `name` leaves, the others keep their order. */
  function WithoutNamed(cs: seq<Node>, name: string): (r: seq<Node>)
    ensures forall j :: 0 <= j < |r| ==> r[j].name != name
    ensures |r| + CountNamed(cs, name) == |cs|
  {
    if cs == [] then []
    else if cs[0].name == name then WithoutNamed(cs[1..], name)
    else [cs[0]] + WithoutNamed(cs[1..], name)
  }

  const ArgumentsName: string := ".arguments"

  /** `if (args.Any()) lambda.Insert(0, new Node(".arguments", null, args))`. */
  function WithArguments(cs: seq<Node>, args: seq<Node>): (r: seq<Node>)
    ensures args == [] ==> r == cs
    ensures args != [] ==> |r| == |cs| + 1 && r[0] == Node(ArgumentsName, Null, args) && r[1..] == cs
  {
    if args == [] then cs else [Node(ArgumentsName, Null, args)] + cs
  }

  lemma {:induction false} CountNamedAppend(a: seq<Node>, b: seq<Node>, name: string)
    ensures CountNamed(a + b, name) == CountNamed(a, name) + CountNamed(b, name)
  {
    if a != [] {
      assert (a + b)[1..] == a[1..] + b;
      CountNamedAppend(a[1..], b, name);
    } else {
      assert a + b == b;
    }
  }

  /** Removing the first child of a name lowers that name's count by exactly one, if there was one:
      any later children of the same name survive. */
  lemma {:induction false} WithoutFirstNamedCount(cs: seq<Node>, name: string)
    ensures CountNamed(WithoutFirstNamed(cs, name), name)
      == if CountNamed(cs, name) == 0 then 0 else CountNamed(cs, name) - 1
    ensures FirstNamed(cs, name).Some? <==> CountNamed(cs, name) > 0
  {
    match FirstNamed(cs, name)
    case None =>
      NoneCountsZero(cs, name);
    case Some(i) =>
      assert cs == cs[..i] + ([cs[i]] + cs[i + 1..]);
      CountNamedAppend(cs[..i], [cs[i]] + cs[i + 1..], name);
      CountNamedAppend([cs[i]], cs[i + 1..], name);
      CountNamedAppend(cs[..i], cs[i + 1..], name);
      NoneCountsZero(cs[..i], name);
  }

  lemma {:induction false} NoneCountsZero(cs: seq<Node>, name: string)
    requires forall j :: 0 <= j < |cs| ==> cs[j].name != name
    ensures CountNamed(cs, name) == 0
  {
    if cs != [] {
      NoneCountsZero(cs[1..], name);
    }
  }

  /** The children kept by `WithoutNamed` are exactly those of another name, in their order. */
  lemma {:induction false} WithoutNamedKeeps(cs: seq<Node>, name: string, n: Node)
    ensures n in WithoutNamed(cs, name) <==> n in cs && n.name != name
  {
    if cs != [] {
      WithoutNamedKeeps(cs[1..], name, n);
    }
  }
}
