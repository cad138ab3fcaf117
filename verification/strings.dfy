/** The handful of .NET string operations the slots rely on, over `seq<char>`.
    Only '/' separates path segments (see README for `Path.GetFileName`). */
module Strings {

  const Slash: char := '/'
  const Backslash: char := '\\'

  predicate StartsWith(s: string, prefix: string) {
    |prefix| <= |s| && s[..|prefix|] == prefix
  }

  predicate EndsWith(s: string, suffix: string) {
    |suffix| <= |s| && s[|s| - |suffix|..] == suffix
  }

  /** `s.Replace("\\", "/")`. */
  function ToForward(s: string): (r: string)
    ensures |r| == |s|
    ensures Backslash !in r
    ensures forall i :: 0 <= i < |s| && s[i] != Backslash ==> r[i] == s[i]
    ensures forall i :: 0 <= i < |s| && s[i] == Backslash ==> r[i] == Slash
  {
    if s == [] then [] else [if s[0] == Backslash then Slash else s[0]] + ToForward(s[1..])
  }

  /** `s.TrimStart(cs)`: the longest suffix of `s` that does not start with a character of `cs`. */
  function TrimStart(s: string, cs: set<char>): (r: string)
    ensures |r| <= |s| && r == s[|s| - |r|..]
    ensures r == [] || r[0] !in cs
    ensures forall i :: 0 <= i < |s| - |r| ==> s[i] in cs
  {
    if s != [] && s[0] in cs then TrimStart(s[1..], cs) else s
  }

  /** `s.TrimEnd(c)`: the longest prefix of `s` that does not end with `c`. */
  function TrimEnd(s: string, c: char): (r: string)
    ensures |r| <= |s| && r == s[..|r|]
    ensures r == [] || r[|r| - 1] != c
    ensures forall i :: |r| <= i < |s| ==> s[i] == c
  {
    if s != [] && s[|s| - 1] == c then TrimEnd(s[..|s| - 1], c) else s
  }

  /** The last '/'-separated segment of `p`: `Path.GetFileName` with '/' as the only separator. */
  function FileName(p: string): (r: string)
    ensures Slash !in r
    ensures EndsWith(p, r)
    ensures |r| < |p| ==> p[|p| - |r| - 1] == Slash
  {
    if p == [] || p[|p| - 1] == Slash then [] else FileName(p[..|p| - 1]) + [p[|p| - 1]]
  }

  /** Length of the leading run of `s` that holds no '/'. */
  function SegmentLength(s: string): (k: nat)
    ensures k <= |s|
    ensures Slash !in s[..k]
    ensures k < |s| ==> s[k] == Slash
  {
    if s == [] || s[0] == Slash then 0 else 1 + SegmentLength(s[1..])
  }

  /** `s.Split('/', StringSplitOptions.RemoveEmptyEntries)`. */
  function Segments(s: string): (r: seq<string>)
    ensures forall i :: 0 <= i < |r| ==> r[i] != [] && Slash !in r[i]
    decreases |s|
  {
    if s == [] then []
    else if s[0] == Slash then Segments(s[1..])
    else
      var k := SegmentLength(s);
      [s[..k]] + Segments(s[k..])
  }

  /** `string.Join("/", parts)`. */
  function Join(parts: seq<string>): string {
    if parts == [] then ""
    else if |parts| == 1 then parts[0]
    else parts[0] + [Slash] + Join(parts[1..])
  }

  predicate Segment(p: string) {
    p != [] && Slash !in p
  }

  /** A slash splits: the segments of `a + "/" + b` are those of `a` followed by those of `b`. */
  lemma {:induction false} SegmentsAroundSlash(a: string, b: string)
    ensures Segments(a + [Slash] + b) == Segments(a) + Segments(b)
    decreases |a|
  {
    var s := a + [Slash] + b;
    if a == [] {
      assert s[1..] == b;
    } else if a[0] == Slash {
      assert s[1..] == a[1..] + [Slash] + b;
      SegmentsAroundSlash(a[1..], b);
    } else if Slash !in a {
      var k := SegmentLength(s);
      assert s[|a|] == Slash;
      assert s[..|a|] == a;
      assert s[..k] == a;
      assert s[k..] == [Slash] + b;
      assert ([Slash] + b)[1..] == b;
      var ka := SegmentLength(a);
      assert a[..ka] == a;
      assert a[ka..] == [];
    } else {
      var ka := SegmentLength(a);
      var k := SegmentLength(s);
      assert s[..|a|] == a;
      assert ka > 0;
      assert s[..k] == a[..ka];
      assert s[k..] == a[ka..] + [Slash] + b;
      SegmentsAroundSlash(a[ka..], b);
    }
  }

  /** A single segment splits into itself. */
  lemma SegmentsOfSegment(p: string)
    requires Segment(p)
    ensures Segments(p) == [p]
  {
    var k := SegmentLength(p);
    assert p[..k] == p;
    assert p[k..] == [];
  }

  /** Splitting undoes joining, for parts that are genuine segments. */
  lemma {:induction false} SegmentsOfJoin(parts: seq<string>)
    requires forall i :: 0 <= i < |parts| ==> Segment(parts[i])
    ensures Segments(Join(parts)) == parts
  {
    if parts == [] {
    } else if |parts| == 1 {
      SegmentsOfSegment(parts[0]);
    } else {
      SegmentsOfJoin(parts[1..]);
      SegmentsAroundSlash(parts[0], Join(parts[1..]));
      SegmentsOfSegment(parts[0]);
      assert parts == [parts[0]] + parts[1..];
    }
  }
}
