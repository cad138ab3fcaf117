/** `utilities/PathResolver.cs`: joining a root folder with a caller's path.

    Neither function looks at `..` segments: the path part is copied through
    verbatim apart from slash handling, so nothing here confines a path to
    its root (see `CombineDoesNotConfine`). */
module PathResolver {
  import opened Strings

  /** The path with every backslash turned into '/' and the trailing run of separators dropped. */
  function Normalize(path: string): (r: string)
    ensures Backslash !in r
    ensures r == [] || r[|r| - 1] != Slash
    ensures |r| <= |path|
    ensures forall i :: 0 <= i < |r| ==> r[i] == if path[i] == Backslash then Slash else path[i]
    ensures forall i :: |r| <= i < |path| ==> path[i] == Slash || path[i] == Backslash
  {
    TrimEnd(ToForward(path), Slash)
  }

  /** The caller's path as it appears after the root: forward slashes, leading slashes trimmed. */
  function PathPart(path: string): (r: string)
    ensures Backslash !in r
    ensures r == [] || r[0] != Slash
    ensures |r| <= |path| && AllSeparators(path[..|path| - |r|])
    ensures r == ToForward(path[|path| - |r|..])
  {
    var f := ToForward(path);
    var r := TrimStart(f, {Slash});
    var m := |path| - |r|;
    ToForwardAppend(path[..m], path[m..]);
    assert path[..m] + path[m..] == path;
    assert AllSeparators(path[..m]) by {
      forall i | 0 <= i < m
        ensures path[..m][i] == Slash || path[..m][i] == Backslash
      {
        assert f[i] == Slash;
      }
    }
    r
  }

  /** Root and path joined by exactly one '/', with no backslash anywhere. */
  function CombinePaths(root: string, path: string): (r: string)
    ensures Backslash !in r
    ensures StartsWith(r, Normalize(root) + [Slash])
    ensures var n := |Normalize(root)|;
      && (n == 0 || r[n - 1] != Slash)
      && r[n] == Slash
      && (n + 1 == |r| || r[n + 1] != Slash)
    ensures var n := |Normalize(root)|; var k := |path| - (|r| - n - 1);
      && 0 <= k <= |path|
      && AllSeparators(path[..k])
      && r[n + 1..] == ToForward(path[k..])
  {
    JoinAtSlash(Normalize(root), PathPart(path), path);
    Normalize(root) + [Slash] + PathPart(path)
  }

  /** The shape of a join, from the shapes of its two parts. */
  lemma {:induction false} JoinAtSlash(q: string, p: string, path: string)
    requires Backslash !in q && (q == [] || q[|q| - 1] != Slash)
    requires Backslash !in p && (p == [] || p[0] != Slash)
    requires |p| <= |path| && AllSeparators(path[..|path| - |p|]) && p == ToForward(path[|path| - |p|..])
    ensures var r := q + [Slash] + p;
      && Backslash !in r
      && StartsWith(r, q + [Slash])
      && (|q| == 0 || r[|q| - 1] != Slash)
      && r[|q|] == Slash
      && (|q| + 1 == |r| || r[|q| + 1] != Slash)
      && |path| - (|r| - |q| - 1) == |path| - |p|
      && r[|q| + 1..] == p
  {
    var r := q + [Slash] + p;
    assert r[..|q| + 1] == q + [Slash];
    assert r[|q| + 1..] == p;
  }

  lemma {:induction false} ToForwardOfForward(s: string)
    requires Backslash !in s
    ensures ToForward(s) == s
  {
    if s != [] {
      ToForwardOfForward(s[1..]);
    }
  }

  lemma {:induction false} TrimEndOfTrimmed(s: string)
    requires s == [] || s[|s| - 1] != Slash
    ensures TrimEnd(s, Slash) == s
  {
  }

  lemma {:induction false} ToForwardAppend(a: string, b: string)
    ensures ToForward(a + b) == ToForward(a) + ToForward(b)
    decreases |a|
  {
    if a != [] {
      assert (a + b)[1..] == a[1..] + b;
      ToForwardAppend(a[1..], b);
    }
  }

  /** Normalizing twice is normalizing once. */
  lemma {:induction false} NormalizeIdempotent(path: string)
    ensures Normalize(Normalize(path)) == Normalize(path)
  {
    var n := Normalize(path);
    ToForwardOfForward(n);
    TrimEndOfTrimmed(n);
  }

  lemma {:induction false} TrimEndSlashAppended(s: string)
    ensures TrimEnd(s + [Slash], Slash) == TrimEnd(s, Slash)
  {
    assert (s + [Slash])[..|s|] == s;
  }

  /** The root's trailing slashes and backslashes do not matter. */
  lemma {:induction false} NormalizeIgnoresTrailingSlash(root: string)
    ensures Normalize(root + [Slash]) == Normalize(root)
    ensures Normalize(root + [Backslash]) == Normalize(root)
  {
    ToForwardAppend(root, [Slash]);
    ToForwardAppend(root, [Backslash]);
    assert ToForward([Slash]) == [Slash];
    assert ToForward([Backslash]) == [Slash];
    TrimEndSlashAppended(ToForward(root));
  }

  /** Trailing-slash invariance of the root, and indifference to a pre-normalized root. */
  lemma {:induction false} CombineIgnoresRootForm(root: string, path: string)
    ensures CombinePaths(root + [Slash], path) == CombinePaths(root, path)
    ensures CombinePaths(root + [Backslash], path) == CombinePaths(root, path)
    ensures CombinePaths(Normalize(root), path) == CombinePaths(root, path)
  {
    NormalizeIgnoresTrailingSlash(root);
    NormalizeIdempotent(root);
  }

  predicate AllSeparators(s: string) {
    forall i :: 0 <= i < |s| ==> s[i] == Slash || s[i] == Backslash
  }

  lemma {:induction false} ToForwardOfSeparators(lead: string)
    requires AllSeparators(lead)
    ensures ToForward(lead) == seq(|lead|, _ => Slash)
  {
    if lead != [] {
      ToForwardOfSeparators(lead[1..]);
    }
  }

  lemma {:induction false} TrimStartSkipsSlashes(n: nat, s: string)
    ensures TrimStart(seq(n, _ => Slash) + s, {Slash}) == TrimStart(s, {Slash})
  {
    var t := seq(n, _ => Slash) + s;
    if n > 0 {
      assert t[0] == Slash;
      assert t[1..] == seq(n - 1, _ => Slash) + s;
      TrimStartSkipsSlashes(n - 1, s);
    } else {
      assert t == s;
    }
  }

  lemma {:induction false} PathPartSkipsSeparators(lead: string, path: string)
    requires AllSeparators(lead)
    ensures PathPart(lead + path) == PathPart(path)
  {
    ToForwardAppend(lead, path);
    ToForwardOfSeparators(lead);
    TrimStartSkipsSlashes(|lead|, ToForward(path));
  }

  /** Leading-slash insensitivity: any run of '/' or '\' in front of the path is ignored. */
  lemma {:induction false} CombineIgnoresLeadingSlashes(root: string, lead: string, path: string)
    requires AllSeparators(lead)
    ensures CombinePaths(root, lead + path) == CombinePaths(root, path)
  {
    PathPartSkipsSeparators(lead, path);
  }

  /** A path made only of separators (or empty) names the root folder itself, with a slash. */
  lemma {:induction false} CombineOfSeparators(root: string, path: string)
    requires AllSeparators(path)
    ensures CombinePaths(root, path) == Normalize(root) + [Slash]
  {
    PathPartSkipsSeparators(path, []);
    assert path + [] == path;
  }

  /** A trailing '/' of the path survives the join. */
  lemma {:induction false} CombineKeepsTrailingSlash(root: string, path: string)
    requires EndsWith(path, [Slash])
    ensures EndsWith(CombinePaths(root, path), [Slash])
  {
    var f := ToForward(path);
    assert f[|f| - 1] == Slash;
    var p := PathPart(path);
    if p != [] {
      assert p[|p| - 1] == f[|f| - 1];
    }
  }

  /** The path part is copied verbatim when it has no backslash and no leading slash. */
  lemma {:induction false} CombineVerbatim(root: string, path: string)
    requires Backslash !in path
    requires path == [] || path[0] != Slash
    ensures CombinePaths(root, path) == Normalize(root) + [Slash] + path
  {
    ToForwardOfForward(path);
  }

  /** `..` segments are neither rejected nor collapsed. */
  lemma {:induction false} CombineDoesNotConfine(root: string, rest: string)
    requires Backslash !in rest
    ensures CombinePaths(root, "../" + rest) == Normalize(root) + "/../" + rest
  {
    var path := "../" + rest;
    assert path[0] == '.';
    assert Backslash !in path by {
      assert forall i :: 0 <= i < |path| ==> path[i] == if i < 3 then "../"[i] else rest[i - 3];
    }
    CombineVerbatim(root, path);
    assert Normalize(root) + [Slash] + path == Normalize(root) + "/../" + rest;
  }
}
