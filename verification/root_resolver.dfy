/** The concrete root resolver of the test suite (`magic.lambda.io.tests/helpers/Common.cs`).

    It is the only `IRootResolver` implementation in sight, so every slot of
    the model resolves its paths through it. */
module RootResolver {
  import opened Strings
  import opened Results
  import PathResolver

  const Separators: set<char> := {Slash, Backslash}

  /** Both `DynamicFiles` and `RootFolder` are the application's base directory. */
  datatype Resolver = Resolver(baseDirectory: string) {

    function DynamicFiles(): string {
      baseDirectory
    }

    function RootFolder(): string {
      baseDirectory
    }

    /** `DynamicFiles` followed by the path stripped of leading '/' and '\'. */
    function AbsolutePath(path: string): (r: string)
      ensures StartsWith(r, DynamicFiles())
      ensures EndsWith(path, r[|DynamicFiles()|..])
      ensures r[|DynamicFiles()|..] == [] || r[|DynamicFiles()|] !in Separators
      ensures AllSeparators(path[..|path| - (|r| - |DynamicFiles()|)])
    {
      DynamicFiles() + TrimStart(path, Separators)
    }

    /** `path.Substring(DynamicFiles.Length - 1)`: drops all of the root but its last character,
        and throws when that start index is negative or beyond the path. */
    function RelativePath(path: string): (r: Result<string>)
      ensures r.Ok? <==> 0 < |DynamicFiles()| <= |path| + 1
      ensures r.Ok? ==> |r.value| == |path| - (|DynamicFiles()| - 1) && EndsWith(path, r.value)
      ensures r.Fail? ==> r.error == OutOfRange
    {
      var k := |DynamicFiles()| - 1;
      if k < 0 || |path| < k then Fail(OutOfRange) else Ok(path[k..])
    }
  }

  predicate AllSeparators(s: string) {
    forall i :: 0 <= i < |s| ==> s[i] in Separators
  }

  lemma {:induction false} TrimStartSkips(lead: string, path: string)
    requires AllSeparators(lead)
    ensures TrimStart(lead + path, Separators) == TrimStart(path, Separators)
  {
    if lead != [] {
      assert (lead + path)[0] == lead[0];
      assert (lead + path)[1..] == lead[1..] + path;
      TrimStartSkips(lead[1..], path);
    } else {
      assert lead + path == path;
    }
  }

  /** Leading '/' and '\' characters make no difference to the absolute path. */
  lemma {:induction false} AbsoluteIgnoresLeadingSeparators(res: Resolver, lead: string, path: string)
    requires AllSeparators(lead)
    ensures res.AbsolutePath(lead + path) == res.AbsolutePath(path)
  {
    TrimStartSkips(lead, path);
  }

  lemma {:induction false} DropAllButLast(d: string, t: string)
    requires |d| > 0
    ensures (d + t)[|d| - 1..] == [d[|d| - 1]] + t
  {
  }

  /** With a root ending in '/', relativizing an absolute path gives "/" and the trimmed path. */
  lemma {:induction false} RelativeOfAbsolute(res: Resolver, path: string)
    requires EndsWith(res.DynamicFiles(), [Slash])
    ensures res.RelativePath(res.AbsolutePath(path)) == Ok([Slash] + TrimStart(path, Separators))
  {
    var d := res.DynamicFiles();
    var t := TrimStart(path, Separators);
    assert d[|d| - 1] == Slash by {
      assert d[|d| - 1..][0] == d[|d| - 1];
    }
    DropAllButLast(d, t);
    var a := res.AbsolutePath(path);
    assert a == d + t;
    var k := |d| - 1;
    assert 0 <= k <= |a|;
    var rel := res.RelativePath(a);
    assert rel == Ok(a[k..]);
    assert a[k..] == [Slash] + t;
  }

  /** The other round trip: a path under a root ending in a separator comes back unchanged. */
  lemma {:induction false} AbsoluteOfRelative(res: Resolver, rest: string)
    requires |res.DynamicFiles()| > 0 && res.DynamicFiles()[|res.DynamicFiles()| - 1] in Separators
    requires rest == [] || rest[0] !in Separators
    ensures res.RelativePath(res.DynamicFiles() + rest).Ok?
    ensures res.AbsolutePath(res.RelativePath(res.DynamicFiles() + rest).value) == res.DynamicFiles() + rest
  {
    var d := res.DynamicFiles();
    var x := d + rest;
    var rel := res.RelativePath(x).value;
    assert rel == [d[|d| - 1]] + rest;
    TrimStartSkips([d[|d| - 1]], rest);
    assert TrimStart(rest, Separators) == rest;
  }

  /** Without a separator at the end of the root, the round trip duplicates its last character:
      with the root "r", the path "rx" comes back as "rrx". */
  lemma {:induction false} RoundTripNeedsSeparator(c: char, rest: string)
    requires c !in Separators
    ensures Resolver([c]).RelativePath([c] + rest) == Ok([c] + rest)
    ensures Resolver([c]).AbsolutePath([c] + rest) == [c, c] + rest
  {
    var p := [c] + rest;
    assert p[0..] == p;
    assert TrimStart(p, Separators) == p;
  }

  /** On a root with one trailing '/' and no backslash, and a path with no backslash,
      this resolver agrees with `PathResolver.CombinePaths` applied to `RootFolder`. */
  lemma {:induction false} AbsoluteIsCombine(res: Resolver, path: string)
    requires |res.RootFolder()| > 0
    requires res.RootFolder() == PathResolver.Normalize(res.RootFolder()[..|res.RootFolder()| - 1]) + [Slash]
    requires Backslash !in path
    ensures res.AbsolutePath(path) == PathResolver.CombinePaths(res.RootFolder(), path)
  {
    var root := res.RootFolder();
    var n := root[..|root| - 1];
    assert root == n + [Slash];
    PathResolver.NormalizeIgnoresTrailingSlash(n);
    PathResolver.NormalizeIdempotent(n);
    assert PathResolver.Normalize(root) == n;
    PathResolver.ToForwardOfForward(path);
    TrimStartSameOnForward(path);
  }

  lemma {:induction false} TrimStartSameOnForward(path: string)
    requires Backslash !in path
    ensures TrimStart(path, Separators) == TrimStart(path, {Slash})
  {
    if path != [] {
      TrimStartSameOnForward(path[1..]);
    }
  }
}
