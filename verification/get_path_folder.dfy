/** `[io.path.get-folder]` (`folder/GetPathFolder.cs`): the folder part of a path. */
module GetPathFolder {
  import opened Strings
  import opened Results
  import opened Nodes

  function AllButLast<T>(xs: seq<T>): seq<T> {
    if xs == [] then [] else xs[..|xs| - 1]
  }

  /** A path ending in '/' is returned as is; otherwise its non-empty '/'-segments but the last,
      joined between a leading and a trailing '/'. */
  function FolderOf(path: string): (r: string)
    ensures EndsWith(r, [Slash])
    ensures EndsWith(path, [Slash]) ==> r == path
    ensures !EndsWith(path, [Slash]) ==> StartsWith(r, [Slash]) && Segments(r) == AllButLast(Segments(path))
    ensures !EndsWith(path, [Slash]) && |Segments(path)| >= 2 ==> NoDoubleSlash(r)
  {
    if EndsWith(path, [Slash]) then path
    else
      var segments := Segments(path);
      var folder := [Slash] + Join(AllButLast(segments)) + [Slash];
      SegmentsOfFolder(AllButLast(segments));
      if |segments| >= 2 then
        FolderShape(AllButLast(segments));
        folder
      else
        folder
  }

  /** The segments of "/" + join + "/" are the joined parts. */
  lemma {:induction false} SegmentsOfFolder(parts: seq<string>)
    requires forall i :: 0 <= i < |parts| ==> Segment(parts[i])
    ensures Segments([Slash] + Join(parts) + [Slash]) == parts
  {
    var j := Join(parts);
    assert [Slash] + j + [Slash] == [] + [Slash] + (j + [Slash]);
    SegmentsAroundSlash([], j + [Slash]);
    SegmentsAroundSlash(j, []);
    assert j + [Slash] + [] == j + [Slash];
    SegmentsOfJoin(parts);
  }

  /** The slot on its call node: the value becomes the folder part. */
  function Signal(input: Node): (r: Result<Node>)
    ensures r.Ok? <==> input.value.Text?
    ensures r.Ok? ==> r.value == input.(value := Text(FolderOf(input.value.text)))
  {
    var path :- AsText(input.value);
    Ok(input.(value := Text(FolderOf(path))))
  }

  /** Applying the slot twice is applying it once. */
  lemma {:induction false} FolderOfIdempotent(path: string)
    ensures FolderOf(FolderOf(path)) == FolderOf(path)
  {
  }

  /** A path with at most one segment, not ending in '/', yields "//" rather than "/". */
  lemma {:induction false} SingleSegmentGivesDoubleSlash(path: string)
    requires !EndsWith(path, [Slash])
    requires |Segments(path)| <= 1
    ensures FolderOf(path) == "//"
  {
  }

  lemma FolderOfUnfold(path: string)
    requires !EndsWith(path, [Slash])
    ensures FolderOf(path) == [Slash] + Join(AllButLast(Segments(path))) + [Slash]
  {
  }

  lemma JoinTwo(a: string, b: string)
    ensures Join([a, b]) == a + [Slash] + b
  {
    assert [a, b][1..] == [b];
  }

  lemma {:induction false} SegmentsWithEmpty(a: string, b: string, c: string)
    requires Segment(a) && Segment(b) && Segment(c)
    ensures Segments(a + [Slash, Slash] + b + [Slash] + c) == [a, b, c]
  {
    var y := [Slash] + b + [Slash] + c;
    assert a + [Slash, Slash] + b + [Slash] + c == a + [Slash] + y;
    SegmentsOfSegment(a);
    SegmentsOfSegment(b);
    SegmentsOfSegment(c);
    assert [Slash] + b == [] + [Slash] + b;
    SegmentsAroundSlash([], b);
    SegmentsAroundSlash([Slash] + b, c);
    SegmentsAroundSlash(a, y);
  }

  /** Empty segments are dropped: `a//b/c.txt` gives `/a/b/`. */
  lemma {:induction false} EmptySegmentsDropped(a: string, b: string, c: string)
    requires Segment(a) && Segment(b) && Segment(c)
    ensures FolderOf(a + [Slash, Slash] + b + [Slash] + c) == [Slash] + a + [Slash] + b + [Slash]
  {
    var p := a + [Slash, Slash] + b + [Slash] + c;
    SegmentsWithEmpty(a, b, c);
    assert !EndsWith(p, [Slash]) by {
      assert p[|p| - 1] == c[|c| - 1];
    }
    FolderOfUnfold(p);
    assert AllButLast([a, b, c]) == [a, b];
    JoinTwo(a, b);
  }

  /** Only '/' separates: a backslash stays inside its segment. */
  lemma {:induction false} BackslashIsNotSeparator(a: string, b: string, c: string)
    requires Segment(a) && Segment(b) && Segment(c)
    ensures FolderOf(a + [Backslash] + b + [Slash] + c) == [Slash] + a + [Backslash] + b + [Slash]
  {
    var x := a + [Backslash] + b;
    var p := a + [Backslash] + b + [Slash] + c;
    assert p == x + [Slash] + c;
    assert Segments(p) == [x, c] by {
      assert Segment(x);
      SegmentsOfSegment(x);
      SegmentsOfSegment(c);
      SegmentsAroundSlash(x, c);
    }
    assert !EndsWith(p, [Slash]) by {
      assert p[|p| - 1] == c[|c| - 1];
    }
    FolderOfUnfold(p);
    assert AllButLast([x, c]) == [x];
    assert Join([x]) == x;
  }


  predicate NoDoubleSlash(s: string) {
    forall i :: 0 <= i < |s| - 1 ==> !(s[i] == Slash && s[i + 1] == Slash)
  }

  /** The folder part as evidently intended: the root folder "/" for single-segment paths. */
  function FolderOfCorrected(path: string): (r: string)
    ensures EndsWith(r, [Slash])
    ensures EndsWith(path, [Slash]) ==> r == path
    ensures !EndsWith(path, [Slash]) ==> StartsWith(r, [Slash]) && NoDoubleSlash(r) && Segments(r) == AllButLast(Segments(path))
  {
    if EndsWith(path, [Slash]) then path
    else
      var segments := Segments(path);
      if |segments| <= 1 then
        assert Segments([Slash]) == [] by { assert [Slash][1..] == []; }
        [Slash]
      else
        var parts := AllButLast(segments);
        SegmentsOfFolder(parts);
        FolderShape(parts);
        [Slash] + Join(parts) + [Slash]
  }

  /** Wrapping a join of genuine segments in slashes makes no empty segment. */
  lemma {:induction false} FolderShape(parts: seq<string>)
    requires parts != []
    requires forall i :: 0 <= i < |parts| ==> Segment(parts[i])
    ensures NoDoubleSlash([Slash] + Join(parts) + [Slash])
  {
    JoinShape(parts);
    var j := Join(parts);
    var folder := [Slash] + j + [Slash];
    forall i | 0 <= i < |folder| - 1
      ensures !(folder[i] == Slash && folder[i + 1] == Slash)
    {
      if i == 0 {
        assert folder[1] == j[0];
      } else if i == |folder| - 2 {
        assert folder[i] == j[|j| - 1];
      } else {
        assert folder[i] == j[i - 1] && folder[i + 1] == j[i];
      }
    }
  }

  /** A join of genuine segments has no empty segment and no slash at either end. */
  lemma {:induction false} JoinShape(parts: seq<string>)
    requires parts != []
    requires forall i :: 0 <= i < |parts| ==> Segment(parts[i])
    ensures var j := Join(parts); j != [] && j[0] != Slash && j[|j| - 1] != Slash && NoDoubleSlash(j)
  {
    if |parts| > 1 {
      JoinShape(parts[1..]);
      var p := parts[0];
      var rest := Join(parts[1..]);
      var j := p + [Slash] + rest;
      assert j == Join(parts);
      assert j[0] == p[0];
      assert j[|j| - 1] == rest[|rest| - 1];
      forall i | 0 <= i < |j| - 1
        ensures !(j[i] == Slash && j[i + 1] == Slash)
      {
        if i < |p| - 1 {
          assert j[i] == p[i];
          assert p[i] in p;
        } else if i == |p| - 1 {
          assert j[i] == p[i];
          assert p[i] in p;
        } else if i == |p| {
          assert j[i + 1] == rest[0];
        } else {
          assert j[i] == rest[i - |p| - 1] && j[i + 1] == rest[i - |p|];
        }
      }
    }
  }

  /** The corrected slot returns "/" where the original returns "//". */
  lemma {:induction false} CorrectedSingleSegment(path: string)
    requires !EndsWith(path, [Slash])
    requires |Segments(path)| <= 1
    ensures FolderOfCorrected(path) == "/"
    ensures FolderOf(path) != FolderOfCorrected(path)
  {
  }
}
