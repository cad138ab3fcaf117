/** The `[io.folder.list]` slot (`folder/ListFolders.cs`).

    Like `[io.file.list]`, but the folder service lists sub-folders, and a
    folder is hidden when the last segment of its path starts with '.'. */
module ListFolder {
  import opened Strings
  import opened Results
  import opened Nodes
  import opened Services
  import opened RootResolver
  import opened Listing

  /** The service's sub-folders of a folder. */
  type FolderListing = (map<string, Content>, string) -> seq<string>

  /** `Signal` and `SignalAsync`. */
  method Signal(w: World, res: Resolver, listing: FolderListing, input: Node) returns (o: Outcome)
    ensures GetArgs(input).Fail? ==> o == Outcome(w, input, Failed(GetArgs(input).error))
    ensures GetArgs(input).Ok? ==>
      var abs := res.AbsolutePath(GetArgs(input).value.0);
      && o.world == w.Log(ListFolders(abs))
      && o.node.name == input.name && o.node.value == Null
    ensures GetArgs(input).Ok? ==>
      var (folder, show) := GetArgs(input).value;
      var kept := Visible(listing(w.fs, res.AbsolutePath(folder)), show, HiddenFolder);
      && (o.status == Done <==> forall i :: 0 <= i < |kept| ==> res.RelativePath(kept[i]).Ok?)
      && (o.status == Done ==>
            |o.node.children| == |kept|
            && forall i :: 0 <= i < |kept| ==>
                 o.node.children[i] == Node("", Text(res.RelativePath(kept[i]).value), []))
  {
    var args := GetArgs(input);
    if args.Fail? {
      return Outcome(w, input, Failed(args.error));
    }
    var (folder, show) := args.value;
    var abs := res.AbsolutePath(folder);
    var w1 := w.Log(ListFolders(abs));
    var entries := listing(w.fs, abs);
    var cleared := input.(children := [], value := Null);
    var relative := (p: string) => res.RelativePath(p);
    var added := AddEntries(entries, show, HiddenFolder, relative);
    var kept := Visible(entries, show, HiddenFolder);
    LabelsPointwise(kept, relative);
    if added.Fail? {
      var i :| 0 <= i < |kept| && !relative(kept[i]).Ok?;
      assert !res.RelativePath(kept[i]).Ok?;
      assert kept == Visible(listing(w.fs, res.AbsolutePath(GetArgs(input).value.0)), GetArgs(input).value.1, HiddenFolder);
      return Outcome(w1, cleared, Failed(added.error));
    }
    return Outcome(w1, cleared.(children := added.value), Done);
  }

  /** A folder is hidden by its own name, whether or not its path ends in '/', and not by the
      names of the folders above it. */
  lemma {:induction false} HiddenByOwnName(parent: string, name: string)
    requires name != [] && Slash !in name
    ensures HiddenFolder(parent + [Slash] + name) <==> Dotted(name)
    ensures HiddenFolder(parent + [Slash] + name + [Slash]) <==> Dotted(name)
  {
    var p := parent + [Slash] + name;
    assert TrimEnd(p + [Slash], Slash) == TrimEnd(p, Slash);
    assert TrimEnd(p, Slash) == p;
    FileNameOfLastSegment(parent, name);
  }

  lemma {:induction false} FileNameOfLastSegment(parent: string, name: string)
    requires Slash !in name
    ensures FileName(parent + [Slash] + name) == name
    decreases |name|
  {
    var p := parent + [Slash] + name;
    if name == [] {
      assert p[|p| - 1] == Slash;
    } else {
      var init := name[..|name| - 1];
      assert p[..|p| - 1] == parent + [Slash] + init;
      FileNameOfLastSegment(parent, init);
      assert name == init + [name[|name| - 1]];
    }
  }
}
