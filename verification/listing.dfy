/** What the four listing slots share: the `display-hidden` argument, the
    filter that drops hidden entries, and the conversion of each kept path
    into a result child. Each slot supplies its own test for "hidden" and its
    own way of labelling a path. */
module Listing {
  import opened Strings
  import opened Results
  import opened Nodes

  const DisplayHiddenName: string := "display-hidden"

  /** `Children.FirstOrDefault(x => x.Name == "display-hidden")?.GetEx<bool>() ?? false`. */
  function DisplayHidden(input: Node): (r: Result<bool>)
    ensures FirstNamed(input.children, DisplayHiddenName).None? ==> r == Ok(false)
    ensures FirstNamed(input.children, DisplayHiddenName).Some? ==>
      r == AsFlag(input.children[FirstNamed(input.children, DisplayHiddenName).value].value)
  {
    match FirstNamed(input.children, DisplayHiddenName)
    case None => Ok(false)
    case Some(i) => AsFlag(input.children[i].value)
  }

  /** `GetArgs` of the later listing slots: `display-hidden` first, then the folder from the node's value. */
  function GetArgs(input: Node): (r: Result<(string, bool)>)
    ensures r.Ok? <==> DisplayHidden(input).Ok? && input.value.Text?
    ensures r.Ok? ==> r.value == (input.value.text, DisplayHidden(input).value)
  {
    var show :- DisplayHidden(input);
    var folder :- AsText(input.value);
    Ok((folder, show))
  }

  /** A name the operating system treats as hidden. */
  predicate Dotted(name: string) {
    StartsWith(name, ".")
  }

  /** `AddFile`'s test: a file is hidden when its own name starts with '.'. */
  predicate HiddenFile(path: string) {
    Dotted(FileName(path))
  }

  /** `new DirectoryInfo(path).Name`: the last segment, ignoring trailing separators. */
  function DirectoryName(path: string): (r: string)
    ensures Slash !in r
  {
    FileName(TrimEnd(path, Slash))
  }

  /** `AddFolder`'s test: a folder is hidden when its own name starts with '.'. */
  predicate HiddenFolder(path: string) {
    Dotted(DirectoryName(path))
  }

  /** The entries a listing keeps, in their order: all of them when hidden ones are shown. */
  function Visible(entries: seq<string>, show: bool, hidden: string -> bool): seq<string>
    decreases |entries|
  {
    if entries == [] then []
    else
      var last := entries[|entries| - 1];
      Visible(entries[..|entries| - 1], show, hidden) + (if show || !hidden(last) then [last] else [])
  }

  /** An entry is kept exactly when it is listed and either hidden ones are shown or it is not hidden. */
  lemma {:induction false} VisibleMember(entries: seq<string>, show: bool, hidden: string -> bool, e: string)
    ensures e in Visible(entries, show, hidden) <==> e in entries && (show || !hidden(e))
    decreases |entries|
  {
    if entries != [] {
      var init := entries[..|entries| - 1];
      assert entries == init + [entries[|entries| - 1]];
      VisibleMember(init, show, hidden, e);
    }
  }

  /** Showing hidden entries keeps every entry in order. */
  lemma {:induction false} VisibleAll(entries: seq<string>, hidden: string -> bool)
    ensures Visible(entries, true, hidden) == entries
    decreases |entries|
  {
    if entries != [] {
      var init := entries[..|entries| - 1];
      VisibleAll(init, hidden);
      assert entries == init + [entries[|entries| - 1]];
    }
  }

  /** Labels of the given paths, in order; the first path that cannot be labelled fails the lot. */
  function Labels(paths: seq<string>, labelOf: string -> Result<string>): (r: Result<seq<string>>)
    decreases |paths|
  {
    if paths == [] then Ok([])
    else
      var init :- Labels(paths[..|paths| - 1], labelOf);
      var last :- labelOf(paths[|paths| - 1]);
      Ok(init + [last])
  }

  /** Labelling succeeds exactly when every path can be labelled, and then labelOf by labelOf. */
  lemma {:induction false} LabelsPointwise(paths: seq<string>, labelOf: string -> Result<string>)
    ensures Labels(paths, labelOf).Ok? <==> forall i :: 0 <= i < |paths| ==> labelOf(paths[i]).Ok?
    ensures Labels(paths, labelOf).Ok? ==>
      |Labels(paths, labelOf).value| == |paths|
      && forall i :: 0 <= i < |paths| ==> Labels(paths, labelOf).value[i] == labelOf(paths[i]).value
    decreases |paths|
  {
    if paths != [] {
      var init := paths[..|paths| - 1];
      LabelsPointwise(init, labelOf);
      assert forall i :: 0 <= i < |init| ==> paths[i] == init[i];
    }
  }

  /** Result children: unnamed nodes whose values are the labels. */
  function AsChildren(labels: seq<string>): (r: seq<Node>)
    ensures |r| == |labels|
    ensures forall i :: 0 <= i < |r| ==> r[i] == Node("", Text(labels[i]), [])
  {
    seq(|labels|, i requires 0 <= i < |labels| => Node("", Text(labels[i]), []))
  }

  /** The reference for a listing: keep the visible entries, labelOf each, turn them into children. */
  function Listed(entries: seq<string>, show: bool, hidden: string -> bool, labelOf: string -> Result<string>): Result<seq<Node>> {
    var labels :- Labels(Visible(entries, show, hidden), labelOf);
    Ok(AsChildren(labels))
  }

  lemma VisibleSnoc(entries: seq<string>, show: bool, hidden: string -> bool, i: nat)
    requires i < |entries|
    ensures Visible(entries[..i + 1], show, hidden)
      == Visible(entries[..i], show, hidden) + (if show || !hidden(entries[i]) then [entries[i]] else [])
  {
    assert entries[..i + 1][..i] == entries[..i];
  }

  lemma LabelsSnoc(paths: seq<string>, p: string, labelOf: string -> Result<string>)
    ensures Labels(paths + [p], labelOf)
      == if Labels(paths, labelOf).Fail? then Labels(paths, labelOf)
         else if labelOf(p).Fail? then Fail(labelOf(p).error)
         else Ok(Labels(paths, labelOf).value + [labelOf(p).value])
  {
    assert (paths + [p])[..|paths|] == paths;
  }

  /** Once some path cannot be labelled, more paths do not change the failure. */
  lemma {:induction false} LabelsFailAppend(paths: seq<string>, more: seq<string>, labelOf: string -> Result<string>)
    requires Labels(paths, labelOf).Fail?
    ensures Labels(paths + more, labelOf) == Labels(paths, labelOf)
    decreases |more|
  {
    if more == [] {
      assert paths + more == paths;
    } else {
      var init := more[..|more| - 1];
      LabelsFailAppend(paths, init, labelOf);
      assert paths + more == (paths + init) + [more[|more| - 1]];
      LabelsSnoc(paths + init, more[|more| - 1], labelOf);
    }
  }

  /** Every visible entry of a prefix stays visible, in front, in the whole listing. */
  lemma {:induction false} VisiblePrefix(entries: seq<string>, show: bool, hidden: string -> bool, k: nat)
    requires k <= |entries|
    ensures exists more :: Visible(entries, show, hidden) == Visible(entries[..k], show, hidden) + more
    decreases |entries| - k
  {
    if k < |entries| {
      VisiblePrefix(entries, show, hidden, k + 1);
      VisibleSnoc(entries, show, hidden, k);
      var more :| Visible(entries, show, hidden) == Visible(entries[..k + 1], show, hidden) + more;
      var step := if show || !hidden(entries[k]) then [entries[k]] else [];
      assert Visible(entries, show, hidden) == Visible(entries[..k], show, hidden) + (step + more);
    } else {
      assert entries[..k] == entries;
      assert Visible(entries, show, hidden) == Visible(entries[..k], show, hidden) + [];
    }
  }

  /** The `foreach` over the listed entries, adding one child per kept entry. */
  method AddEntries(entries: seq<string>, show: bool, hidden: string -> bool, labelOf: string -> Result<string>)
    returns (r: Result<seq<Node>>)
    ensures r == Listed(entries, show, hidden, labelOf)
  {
    var kept: seq<string> := [];
    var labels: seq<string> := [];
    var i := 0;
    while i < |entries|
      invariant 0 <= i <= |entries|
      invariant kept == Visible(entries[..i], show, hidden)
      invariant Labels(kept, labelOf) == Ok(labels)
    {
      var e := entries[i];
      VisibleSnoc(entries, show, hidden, i);
      if show || !hidden(e) {
        var l := labelOf(e);
        LabelsSnoc(kept, e, labelOf);
        if l.Fail? {
          VisiblePrefix(entries, show, hidden, i + 1);
          var more :| Visible(entries, show, hidden) == Visible(entries[..i + 1], show, hidden) + more;
          LabelsFailAppend(kept + [e], more, labelOf);
          return Fail(l.error);
        }
        kept := kept + [e];
        labels := labels + [l.value];
      }
      i := i + 1;
    }
    assert entries[..i] == entries;
    return Ok(AsChildren(labels));
  }
}
