/** The older `[io.folders.list]` slot (`folders/ListFolders.cs`).

    It lists the sub-folders of `CombinePaths(RootFolder, folder)`, sorted,
    each shown as its path without the normalised root and with exactly one
    trailing '/'. The filter as written keeps a folder only when
    `display-hidden` is off and the full path does not start with '.'; the
    corrected filter is the one the file listings use. */
module FoldersList {
  import opened Strings
  import opened Results
  import opened Nodes
  import opened Services
  import opened RootResolver
  import opened Listing
  import opened Sorting
  import PathResolver

  type DiskListing = (map<string, Content>, string) -> seq<string>

  /** `idx.Substring(root.Length).TrimEnd('/') + "/"`. */
  function FolderLabel(root: string, path: string): (r: Result<string>)
    ensures r.Ok? <==> |root| <= |path|
    ensures r.Ok? ==> EndsWith(r.value, [Slash]) && (|r.value| == 1 || r.value[|r.value| - 2] != Slash)
    ensures r.Ok? ==> r.value == TrimEnd(path[|root|..], Slash) + [Slash]
  {
    if |root| <= |path| then Ok(TrimEnd(path[|root|..], Slash) + [Slash]) else Fail(OutOfRange)
  }

  /** The filter as written: `!displayHidden && !idx.StartsWith(".")`. */
  function ShownAsWritten(entries: seq<string>, show: bool): seq<string> {
    Visible(Sort(entries), false, (p: string) => show || Dotted(p))
  }

  /** The filter evidently intended: hidden folders out unless `display-hidden`, judged by name. */
  function Shown(entries: seq<string>, show: bool): seq<string> {
    Visible(Sort(entries), show, HiddenFolder)
  }

  /** One child per shown folder. */
  function Children(root: string, kept: seq<string>): (r: Result<seq<Node>>)
    ensures r.Ok? <==> forall i :: 0 <= i < |kept| ==> |root| <= |kept[i]|
    ensures r.Ok? ==>
      |r.value| == |kept| && forall i :: 0 <= i < |kept| ==> r.value[i] == Node("", Text(FolderLabel(root, kept[i]).value), [])
  {
    var labelOf := (p: string) => FolderLabel(root, p);
    LabelsPointwise(kept, labelOf);
    var labels :- Labels(kept, labelOf);
    Ok(AsChildren(labels))
  }

  /** The slot, with the filter chosen by `corrected`. */
  function Run(w: World, res: Resolver, disk: DiskListing, input: Node, corrected: bool): (o: Outcome)
    ensures GetArgs(input).Fail? ==> o == Outcome(w, input, Failed(GetArgs(input).error))
    ensures GetArgs(input).Ok? ==>
      var dir := PathResolver.CombinePaths(res.RootFolder(), GetArgs(input).value.0);
      && o.world == w.Log(ListFolders(dir))
      && o.node.name == input.name && o.node.value == input.value
    ensures GetArgs(input).Ok? ==>
      var (folder, show) := GetArgs(input).value;
      var entries := disk(w.fs, PathResolver.CombinePaths(res.RootFolder(), folder));
      var kept := if corrected then Shown(entries, show) else ShownAsWritten(entries, show);
      var root := PathResolver.Normalize(res.RootFolder());
      && (o.status == Done <==> Children(root, kept).Ok?)
      && (o.status == Done ==> o.node.children == Children(root, kept).value)
  {
    match GetArgs(input)
    case Fail(e) => Outcome(w, input, Failed(e))
    case Ok((folder, show)) =>
      var root := PathResolver.Normalize(res.RootFolder());
      var dir := PathResolver.CombinePaths(res.RootFolder(), folder);
      var entries := disk(w.fs, dir);
      match Children(root, if corrected then Shown(entries, show) else ShownAsWritten(entries, show))
      case Fail(e) => Outcome(w.Log(ListFolders(dir)), input.(children := []), Failed(e))
      case Ok(children) => Outcome(w.Log(ListFolders(dir)), input.(children := children), Done)
  }

  /** `Signal` as written. */
  function Signal(w: World, res: Resolver, disk: DiskListing, input: Node): Outcome {
    Run(w, res, disk, input, false)
  }

  /** `Signal` with the corrected filter. */
  function SignalCorrected(w: World, res: Resolver, disk: DiskListing, input: Node): Outcome {
    Run(w, res, disk, input, true)
  }

  /** As written, asking for hidden folders lists no folder at all. */
  lemma {:induction false} AsWrittenShowHiddenListsNothing(entries: seq<string>)
    ensures ShownAsWritten(entries, true) == []
  {
    var v := ShownAsWritten(entries, true);
    if v != [] {
      VisibleMember(Sort(entries), false, (p: string) => true || Dotted(p), v[0]);
    }
  }

  /** As written, a hidden folder below a root that does not start with '.' is listed by
      default; the corrected filter leaves it out. */
  lemma {:induction false} AsWrittenShowsHiddenFolder(entries: seq<string>, path: string)
    requires path in entries && !Dotted(path) && HiddenFolder(path)
    ensures path in ShownAsWritten(entries, false)
    ensures path !in Shown(entries, false)
  {
    assert path in multiset(Sort(entries));
    VisibleMember(Sort(entries), false, (p: string) => false || Dotted(p), path);
    VisibleMember(Sort(entries), false, HiddenFolder, path);
  }

  /** Corrected: with `display-hidden` every folder is listed in sorted order; without it, a
      folder is listed exactly when its own name does not start with '.'. */
  lemma {:induction false} CorrectedFilter(entries: seq<string>, path: string)
    ensures Shown(entries, true) == Sort(entries)
    ensures path in Shown(entries, false) <==> path in entries && !Dotted(DirectoryName(path))
  {
    VisibleAll(Sort(entries), HiddenFolder);
    VisibleMember(Sort(entries), false, HiddenFolder, path);
    assert path in Sort(entries) <==> path in multiset(Sort(entries));
  }

  /** A folder `name` directly under the root is shown as "/name/", with or without a trailing
      '/' in what the disk reports. */
  lemma {:induction false} FolderShownWithSlashes(root: string, name: string)
    requires name != [] && Slash !in name
    ensures FolderLabel(root, root + [Slash] + name) == Ok([Slash] + name + [Slash])
    ensures FolderLabel(root, root + [Slash] + name + [Slash]) == Ok([Slash] + name + [Slash])
  {
    var p := root + [Slash] + name;
    assert p[|root|..] == [Slash] + name;
    assert (p + [Slash])[|root|..] == [Slash] + name + [Slash];
    assert TrimEnd([Slash] + name + [Slash], Slash) == TrimEnd([Slash] + name, Slash);
    assert name[|name| - 1] in name;
  }
}
