/** The `[io.file.list]` and `[io.file.list-recursively]` slots (`file/ListFiles.cs`).

    The arguments are read and the call node is emptied (children and value);
    the file service then lists the folder, flat for `io.file.list` and
    recursively under any other name, and every file whose name does not start
    with '.' (or every file, with `display-hidden`) is added as a child holding
    its path relative to the root. What the service returns for a folder is a
    parameter of the model. */
module ListFile {
  import opened Strings
  import opened Results
  import opened Nodes
  import opened Services
  import opened RootResolver
  import opened Listing

  const FlatSlot: string := "io.file.list"

  /** The service's answer for a folder, flat or recursive. */
  type FileListing = (map<string, Content>, string, bool) -> seq<string>

  /** `Signal` and `SignalAsync`. */
  method Signal(w: World, res: Resolver, listing: FileListing, input: Node) returns (o: Outcome)
    ensures GetArgs(input).Fail? ==> o == Outcome(w, input, Failed(GetArgs(input).error))
    ensures GetArgs(input).Ok? ==>
      var abs := res.AbsolutePath(GetArgs(input).value.0);
      && o.world.fs == w.fs
      && o.world.trace == w.trace + [if input.name == FlatSlot then List(abs) else ListRecursively(abs)]
      && o.node.name == input.name && o.node.value == Null
    ensures GetArgs(input).Ok? ==>
      var (folder, show) := GetArgs(input).value;
      var abs := res.AbsolutePath(folder);
      var kept := Visible(listing(w.fs, abs, input.name != FlatSlot), show, HiddenFile);
      && (o.status == Done <==> forall i :: 0 <= i < |kept| ==> res.RelativePath(kept[i]).Ok?)
      && (o.status == Done ==>
            |o.node.children| == |kept|
            && forall i :: 0 <= i < |kept| ==>
                 o.node.children[i] == Node("", Text(res.RelativePath(kept[i]).value), []))
  {
    var args := GetArgs(input);
    if args.Fail? {
      return Outcome(w, input, Failed(args.error));
    }
    var (folder, show) := args.value;
    var abs := res.AbsolutePath(folder);
    var recursive := input.name != FlatSlot;
    var w1 := w.Log(if recursive then ListRecursively(abs) else List(abs));
    var entries := listing(w.fs, abs, recursive);
    var cleared := input.(children := [], value := Null);
    var relative := (p: string) => res.RelativePath(p);
    var added := AddEntries(entries, show, HiddenFile, relative);
    LabelsPointwise(Visible(entries, show, HiddenFile), relative);
    if added.Fail? {
      var kept := Visible(entries, show, HiddenFile);
      assert Labels(kept, relative).Fail?;
      var i :| 0 <= i < |kept| && !relative(kept[i]).Ok?;
      assert !res.RelativePath(kept[i]).Ok?;
      assert kept == Visible(listing(w.fs, res.AbsolutePath(GetArgs(input).value.0), input.name != FlatSlot), GetArgs(input).value.1, HiddenFile);
      return Outcome(w1, cleared, Failed(added.error));
    }
    return Outcome(w1, cleared.(children := added.value), Done);
  }

  /** A path under a root ending in '/' is shown from that '/' on. */
  lemma RelativeFromSlash(res: Resolver, p: string)
    requires EndsWith(res.DynamicFiles(), [Slash]) && StartsWith(p, res.DynamicFiles())
    ensures res.RelativePath(p).Ok? && StartsWith(res.RelativePath(p).value, [Slash])
  {
    var d := res.DynamicFiles();
    assert p[|d| - 1] == d[|d| - 1] == Slash;
    assert res.RelativePath(p).value[0] == p[|d| - 1];
  }

  /** With a root folder ending in '/', every file the service reports under that root is
      listed as a path starting with '/'. */
  lemma {:induction false} RelativePathsStartWithSlash(res: Resolver, entries: seq<string>, show: bool)
    requires EndsWith(res.DynamicFiles(), [Slash])
    requires forall i :: 0 <= i < |entries| ==> StartsWith(entries[i], res.DynamicFiles())
    ensures var kept := Visible(entries, show, HiddenFile);
      forall i :: 0 <= i < |kept| ==>
        res.RelativePath(kept[i]).Ok? && StartsWith(res.RelativePath(kept[i]).value, [Slash])
  {
    var kept := Visible(entries, show, HiddenFile);
    forall i | 0 <= i < |kept|
      ensures res.RelativePath(kept[i]).Ok? && StartsWith(res.RelativePath(kept[i]).value, [Slash])
    {
      VisibleMember(entries, show, HiddenFile, kept[i]);
      var j :| 0 <= j < |entries| && entries[j] == kept[i];
      RelativeFromSlash(res, kept[i]);
    }
  }

  /** Without `display-hidden`, no listed file has a name starting with '.'; with it, every
      file the service reported is listed. */
  lemma {:induction false} HiddenFilesOnlyOnRequest(entries: seq<string>, path: string)
    ensures path in Visible(entries, false, HiddenFile) <==> path in entries && !Dotted(FileName(path))
    ensures Visible(entries, true, HiddenFile) == entries
  {
    VisibleMember(entries, false, HiddenFile, path);
    VisibleAll(entries, HiddenFile);
  }
}
