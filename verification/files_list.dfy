/** The older `[io.files.list]` slot (`files/ListFiles.cs`).

    It reads the disk directly: the files of `CombinePaths(RootFolder, folder)`,
    sorted, each shown as its path with the normalised root cut off. Only the
    children of the call node are cleared; its value stays. */
module FilesList {
  import opened Strings
  import opened Results
  import opened Nodes
  import opened Services
  import opened RootResolver
  import opened Listing
  import opened Sorting
  import PathResolver

  /** `Directory.GetFiles`: the files of a folder, as full paths. */
  type DiskListing = (map<string, Content>, string) -> seq<string>

  /** `idx.Substring(root.Length)`, which throws when the path is shorter than the root. */
  function CutRoot(root: string, path: string): (r: Result<string>)
    ensures r.Ok? <==> |root| <= |path|
    ensures r.Ok? ==> path == path[..|root|] + r.value && |r.value| == |path| - |root|
  {
    if |root| <= |path| then Ok(path[|root|..]) else Fail(OutOfRange)
  }

  /** The entries the slot shows: the sorted listing without hidden files unless asked. */
  function Shown(entries: seq<string>, show: bool): seq<string> {
    Visible(Sort(entries), show, HiddenFile)
  }

  /** One child per shown file, holding its path without the root. */
  function Children(root: string, kept: seq<string>): (r: Result<seq<Node>>)
    ensures r.Ok? <==> forall i :: 0 <= i < |kept| ==> |root| <= |kept[i]|
    ensures r.Ok? ==>
      |r.value| == |kept| && forall i :: 0 <= i < |kept| ==> r.value[i] == Node("", Text(kept[i][|root|..]), [])
  {
    var cut := (p: string) => CutRoot(root, p);
    LabelsPointwise(kept, cut);
    var labels :- Labels(kept, cut);
    Ok(AsChildren(labels))
  }

  /** `Signal`: the children are replaced by the listing; the value stays. */
  function Signal(w: World, res: Resolver, disk: DiskListing, input: Node): (o: Outcome)
    ensures GetArgs(input).Fail? ==> o == Outcome(w, input, Failed(GetArgs(input).error))
    ensures GetArgs(input).Ok? ==>
      var dir := PathResolver.CombinePaths(res.RootFolder(), GetArgs(input).value.0);
      var listed := Children(PathResolver.Normalize(res.RootFolder()), Shown(disk(w.fs, dir), GetArgs(input).value.1));
      && o.world == w.Log(List(dir))
      && o.node.name == input.name && o.node.value == input.value
      && (o.status == Done <==> listed.Ok?)
      && (listed.Ok? ==> o.node.children == listed.value)
  {
    if GetArgs(input).Fail? then Outcome(w, input, Failed(GetArgs(input).error))
    else
      var dir := PathResolver.CombinePaths(res.RootFolder(), GetArgs(input).value.0);
      var listed := Children(PathResolver.Normalize(res.RootFolder()), Shown(disk(w.fs, dir), GetArgs(input).value.1));
      if listed.Fail? then Outcome(w.Log(List(dir)), input.(children := []), Failed(listed.error))
      else Outcome(w.Log(List(dir)), input.(children := listed.value), Done)
  }

  /** The shown files keep the sorted order. */
  lemma {:induction false} ShownSorted(entries: seq<string>, show: bool)
    ensures Sorted(Shown(entries, show))
  {
    VisibleKeepsOrder(Sort(entries), show, HiddenFile);
  }

  lemma {:induction false} VisibleKeepsOrder(entries: seq<string>, show: bool, hidden: string -> bool)
    requires Sorted(entries)
    ensures Sorted(Visible(entries, show, hidden))
    decreases |entries|
  {
    if entries != [] {
      var init := entries[..|entries| - 1];
      var last := entries[|entries| - 1];
      VisibleKeepsOrder(init, show, hidden);
      var v := Visible(init, show, hidden);
      forall i | 0 <= i < |v|
        ensures LessEq(v[i], last)
      {
        VisibleMember(init, show, hidden, v[i]);
      }
    }
  }

  /** Every file the disk reports inside the listed folder is shown as a path starting with '/'. */
  lemma {:induction false} ShownStartWithSlash(res: Resolver, folder: string, entries: seq<string>, show: bool)
    requires forall i :: 0 <= i < |entries| ==> StartsWith(entries[i], PathResolver.CombinePaths(res.RootFolder(), folder))
    ensures var root := PathResolver.Normalize(res.RootFolder());
      var kept := Shown(entries, show);
      forall i :: 0 <= i < |kept| ==> |root| < |kept[i]| && kept[i][|root|] == Slash
  {
    var root := PathResolver.Normalize(res.RootFolder());
    var dir := PathResolver.CombinePaths(res.RootFolder(), folder);
    var kept := Shown(entries, show);
    forall i | 0 <= i < |kept|
      ensures |root| < |kept[i]| && kept[i][|root|] == Slash
    {
      VisibleMember(Sort(entries), show, HiddenFile, kept[i]);
      assert kept[i] in multiset(Sort(entries));
      var j :| 0 <= j < |entries| && entries[j] == kept[i];
      assert dir[..|root| + 1] == root + [Slash];
      assert kept[i][..|dir|] == dir;
    }
  }
}
