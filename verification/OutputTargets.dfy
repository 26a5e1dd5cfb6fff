/**
 * The local output paths of a job and the ones that already exist (cmd/cli/transcode.go).
 */
module OutputTargets {
  import opened Decimal

  /** Where the extension starts: at the last dot, or at the end when there is none. */
  function ExtensionAt(path: string): (d: nat)
    ensures d <= |path|
    ensures d < |path| ==> path[d] == '.'
    ensures forall k :: d < k < |path| ==> path[k] != '.'
    ensures d == |path| ==> '.' !in path
  {
    if path == "" then 0
    else if path[|path| - 1] == '.' then |path| - 1
    else
      var init := path[..|path| - 1];
      assert path == init + [path[|path| - 1]];
      var d := ExtensionAt(init);
      if d == |init| then |path| else d
  }

  /** The i-th output: the path itself, then _1, _2, ... before the extension. */
  function OutputPath(path: string, i: nat): string {
    if i == 0 then path
    else path[..ExtensionAt(path)] + "_" + Itoa(i) + path[ExtensionAt(path)..]
  }

  method MultiOutputPath(path: string, i: nat) returns (r: string)
    ensures r == OutputPath(path, i)
  {
    if i == 0 {
      return path;
    }
    var ext := "";
    var j := |path| - 1;
    while j >= 0
      invariant -1 <= j < |path|
      invariant ext == "" && forall k :: j < k < |path| ==> path[k] != '.'
    {
      if path[j] == '.' {
        ext := path[j..];
        break;
      }
      j := j - 1;
    }
    assert |path| - |ext| == ExtensionAt(path);
    r := path[..|path| - |ext|] + "_" + Itoa(i) + ext;
  }

  /** The number goes before the extension: base "_" i ext, where ext is empty or the last dot and what
      follows it. */
  lemma NumberGoesBeforeExtension(base: string, ext: string, i: nat)
    requires i > 0 && if ext == "" then '.' !in base else ext[0] == '.' && '.' !in ext[1..]
    ensures OutputPath(base + ext, 0) == base + ext
    ensures OutputPath(base + ext, i) == base + "_" + Itoa(i) + ext
  {
    var path := base + ext;
    assert forall k :: |base| < k < |path| ==> path[k] == ext[1..][k - |base| - 1];
    assert path[..|base|] == base && path[|base|..] == ext;
  }

  lemma NumberedIsLonger(path: string, i: nat)
    requires i > 0
    ensures |OutputPath(path, i)| > |path|
  {
  }

  /** No two indices give the same path. */
  lemma OutputPathInjective(path: string, i: nat, j: nat)
    requires OutputPath(path, i) == OutputPath(path, j)
    ensures i == j
  {
    hide Itoa;
    var d := ExtensionAt(path);
    var base, ext := path[..d], path[d..];
    if i > 0 && j > 0 {
      var s, t := Itoa(i), Itoa(j);
      assert |s| == |t|;
      assert s == OutputPath(path, i)[d + 1..d + 1 + |s|];
      assert t == OutputPath(path, j)[d + 1..d + 1 + |t|];
      ItoaInjective(i, j);
    } else if i > 0 {
      NumberedIsLonger(path, i);
    } else if j > 0 {
      NumberedIsLonger(path, j);
    }
  }

  /** The outputs _1 to _k in order. */
  function Numbered(path: string, k: nat): seq<string> {
    if k == 0 then [] else Numbered(path, k - 1) + [OutputPath(path, k)]
  }

  ghost function Seen(path: string, n: nat): set<string> {
    if n == 0 then {} else Seen(path, n - 1) + {OutputPath(path, n - 1)}
  }

  lemma {:induction false} NotSeen(path: string, n: nat, i: nat)
    requires n <= i
    ensures OutputPath(path, i) !in Seen(path, n)
  {
    if n > 0 {
      NotSeen(path, n - 1, i);
      if OutputPath(path, i) == OutputPath(path, n - 1) {
        OutputPathInjective(path, i, n - 1);
      }
    }
  }

  lemma SeenShrinks(path: string, i: nat, files: set<string>)
    requires OutputPath(path, i) in files
    ensures |files - Seen(path, i + 1)| < |files - Seen(path, i)|
  {
    NotSeen(path, i, i);
    hide OutputPath;
    assert files - Seen(path, i + 1) == (files - Seen(path, i)) - {OutputPath(path, i)};
  }

  /** The listing before index i is looked at: the primary path if it exists, then _1 .. _k. */
  ghost predicate Listing(path: string, files: set<string>, i: nat, targets: seq<string>, k: nat) {
    && (i == 0 ==> targets == [] && k == 0)
    && (i > 0 ==> k == i - 1 && targets == (if path in files then [path] else []) + Numbered(path, k))
    && (forall j :: 1 <= j <= k ==> OutputPath(path, j) in files)
  }

  lemma ListingGrows(path: string, files: set<string>, i: nat, targets: seq<string>, k: nat)
    requires Listing(path, files, i, targets, k)
    ensures OutputPath(path, i) in files ==> Listing(path, files, i + 1, targets + [OutputPath(path, i)], i)
    ensures i == 0 && path !in files ==> Listing(path, files, 1, targets, 0)
  {
    hide OutputPath;
    if i == 0 {
      assert OutputPath(path, 0) == path by { PathZero(path); }
      assert Numbered(path, 0) == [];
    } else {
      assert Numbered(path, i) == Numbered(path, i - 1) + [OutputPath(path, i)];
    }
  }

  lemma PathZero(path: string)
    ensures OutputPath(path, 0) == path
  {
  }

  /** files are the paths a stat succeeds on and broken the ones it fails on for another reason
      than absence. The unbounded enumeration ends, since no path comes up twice, with the path
      itself when it exists followed by the longest unbroken run _1 .. _k; a primary path that
      cannot be read ends it before anything is listed. */
  method ExistingOutputTargets(path: string, files: set<string>, broken: set<string>)
    returns (targets: seq<string>, ghost k: nat)
    requires files !! broken
    ensures path in broken ==> targets == []
    ensures path !in broken ==> targets == (if path in files then [path] else []) + Numbered(path, k)
    ensures path !in broken ==> (forall j :: 1 <= j <= k ==> OutputPath(path, j) in files)
    ensures path !in broken ==> OutputPath(path, k + 1) !in files
  {
    targets, k := [], 0;
    var i := 0;
    hide OutputPath, Numbered, Seen;
    PathZero(path);
    while true
      invariant Listing(path, files, i, targets, k) && (i > 0 ==> path !in broken)
      decreases if i == 0 then 1 else 0, |files - Seen(path, i)|
    {
      var target := MultiOutputPath(path, i);
      ListingGrows(path, files, i, targets, k);
      if target !in files {
        if i == 0 && target !in broken {
          i := i + 1;
          continue;
        }
        return;
      }
      SeenShrinks(path, i, files);
      targets := targets + [target];
      k := i;
      i := i + 1;
    }
  }
}
