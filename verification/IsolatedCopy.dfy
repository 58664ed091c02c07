/** Copying the import graph into an isolated directory, and why imports resolve there as they did before. */
module IsolatedCopy {
  import opened Common
  import opened Paths
  import opened Reachability
  import opened ImportGraph
  import opened CommonAncestor

  /** Where a path under `root` lands when `root` is rebased to `iso`; other paths stay. */
  function Rebase(root: Path, iso: Path, p: Path): Path {
    if root <= p then iso + p[|root|..] else p
  }

  // ----- walking the same specifier from the copy

  /** The specifier never climbs above `root` on its way from `dir`. */
  predicate Contained(root: Path, dir: Path, segs: seq<string>)
    decreases segs
  {
    root <= dir &&
    (segs == [] || ((segs[0] == ".." ==> |root| < |dir|) && Contained(root, Enter(dir, segs[0]), segs[1..])))
  }

  lemma {:induction false} ContainedWalk(root: Path, iso: Path, dir: Path, segs: seq<string>)
    requires Contained(root, dir, segs)
    ensures root <= Walk(dir, segs)
    ensures Walk(Rebase(root, iso, dir), segs) == Rebase(root, iso, Walk(dir, segs))
    decreases segs
  {
    if segs != [] {
      var next := Enter(dir, segs[0]);
      ContainedWalk(root, iso, next, segs[1..]);
      assert Enter(Rebase(root, iso, dir), segs[0]) == Rebase(root, iso, next) by {
        if segs[0] == ".." {
          assert Parent(Rebase(root, iso, dir)) == iso + dir[|root|..][..|dir| - |root| - 1];
        }
      }
    }
  }

  /** Once outside `iso`, a walk that never names its last segment stays outside. */
  lemma {:induction false} OutsideStaysOutside(iso: Path, dir: Path, segs: seq<string>)
    requires iso != [] && iso[|iso| - 1] !in segs
    requires !(iso <= dir)
    ensures !(iso <= Walk(dir, segs))
    decreases segs
  {
    if segs != [] {
      OutsideStaysOutside(iso, Enter(dir, segs[0]), segs[1..]);
    }
  }

  lemma {:induction false} EscapingWalk(root: Path, iso: Path, dir: Path, segs: seq<string>)
    requires iso != [] && iso[|iso| - 1] !in segs
    requires root <= dir && !Contained(root, dir, segs)
    ensures !(iso <= Walk(Rebase(root, iso, dir), segs))
    decreases segs
  {
    var copy := Rebase(root, iso, dir);
    if segs[0] == ".." && dir == root {
      assert copy == iso;
      OutsideStaysOutside(iso, Parent(iso), segs[1..]);
    } else {
      var next := Enter(dir, segs[0]);
      assert Enter(copy, segs[0]) == Rebase(root, iso, next) by {
        if segs[0] == ".." {
          assert Parent(copy) == iso + dir[|root|..][..|dir| - |root| - 1];
        }
      }
      EscapingWalk(root, iso, next, segs[1..]);
    }
  }

  // ----- candidates of a rebased base path

  lemma RebaseParts(root: Path, iso: Path, base: Path)
    requires root < base
    ensures var copy := Rebase(root, iso, base);
            && copy != [] && copy[|copy| - 1] == base[|base| - 1]
            && root <= Parent(base)
            && Parent(copy) == Rebase(root, iso, Parent(base))
  {
    assert base[..|base| - 1][|root|..] == base[|root|..][..|base| - |root| - 1];
  }

  lemma RetailRebase(root: Path, iso: Path, base: Path, drop: nat, suffix: string)
    requires root < base && drop <= |base[|base| - 1]|
    ensures root < Retail(base, drop, suffix)
    ensures Rebase(root, iso, base)[|Rebase(root, iso, base)| - 1] == base[|base| - 1]
    ensures Retail(Rebase(root, iso, base), drop, suffix) == Rebase(root, iso, Retail(base, drop, suffix))
  {
    RebaseParts(root, iso, base);
    var last := base[|base| - 1];
    var name := last[..|last| - drop] + suffix;
    assert (Parent(base) + [name])[|root|..] == Parent(base)[|root|..] + [name];
  }

  /** Below the root, the candidates of the rebased base are the rebased candidates. */
  lemma CandidateRebase(exts: seq<string>, root: Path, iso: Path, base: Path, i: nat)
    requires root < base && i < CandidateCount(exts, base)
    ensures CandidateCount(exts, Rebase(root, iso, base)) == CandidateCount(exts, base)
    ensures root < CandidateAt(exts, base, i)
    ensures CandidateAt(exts, Rebase(root, iso, base), i) == Rebase(root, iso, CandidateAt(exts, base, i))
  {
    RebaseParts(root, iso, base);
    var ext := Extname(base);
    if i == 0 {
    } else if ext != "" {
      RetailRebase(root, iso, base, |ext|, exts[i - 1]);
    } else {
      var e := exts[(i - 1) / 2];
      RetailRebase(root, iso, base, 0, e);
      assert (base + ["index" + e])[|root|..] == base[|root|..] + ["index" + e];
    }
  }

  /** A candidate that lies strictly under `iso` comes from a base under `iso`. */
  lemma CandidateUnder(exts: seq<string>, iso: Path, base: Path, i: nat)
    requires iso != [] && i < CandidateCount(exts, base)
    requires iso < CandidateAt(exts, base, i)
    ensures iso <= base
  {
    var c := CandidateAt(exts, base, i);
    if base != [] && c != base && |c| == |base| {
      assert c[..|c| - 1] == base[..|base| - 1];
    }
  }

  // ----- the copied file system

  /** No file or directory exists at or below `iso`. */
  ghost predicate Fresh(fs: FileSystem, iso: Path) {
    forall p | Exists(fs, p) :: !(iso <= p)
  }

  function Images(root: Path, iso: Path, files: seq<Path>): set<Path> {
    set f | f in files :: Rebase(root, iso, f)
  }

  /** `post` is `fs` plus, for each listed file, a copy with the same text under `iso`. */
  ghost predicate IsCopy(fs: FileSystem, files: seq<Path>, root: Path, iso: Path, post: FileSystem) {
    && (forall f | f in files :: root < f && f in fs.imports)
    && post.files == fs.files + Images(root, iso, files)
    && post.imports.Keys == fs.imports.Keys + Images(root, iso, files)
    && (forall p | p in fs.imports :: post.imports[p] == fs.imports[p])
    && (forall f | f in files :: post.imports[Rebase(root, iso, f)] == fs.imports[f])
  }

  /** The copy of an import graph: the facts that the copier establishes. */
  ghost predicate IsolatedGraph(fs: FileSystem, entry: Path, files: seq<Path>, root: Path, iso: Path, post: FileSystem)
  {
    && fs.imports.Keys == fs.files
    && entry in fs.files
    && IsImportGraph(fs, entry, files)
    && iso != [] && Fresh(fs, iso)
    && IsCopy(fs, files, root, iso, post)
  }

  /** The copy map is injective and every target lies strictly under the isolated root. */
  lemma RebaseInjective(root: Path, iso: Path, f: Path, g: Path)
    requires root < f && root < g
    ensures iso < Rebase(root, iso, f)
    ensures Rebase(root, iso, f) == Rebase(root, iso, g) ==> f == g
  {
    var a, b := Rebase(root, iso, f), Rebase(root, iso, g);
    assert a[|iso|..] == f[|root|..] && b[|iso|..] == g[|root|..];
    assert f == root + f[|root|..] && g == root + g[|root|..];
  }

  /** A path under the isolated root is a file of the copy exactly when it is the image of a collected file. */
  lemma CopyHolds(fs: FileSystem, files: seq<Path>, root: Path, iso: Path, post: FileSystem, p: Path)
    requires Fresh(fs, iso) && (forall f | f in files :: root < f)
    requires post.files == fs.files + Images(root, iso, files)
    requires root < p
    ensures Rebase(root, iso, p) in post.files <==> p in files
  {
    var image := Rebase(root, iso, p);
    assert iso <= image;
    assert !Exists(fs, image);
    if image in post.files {
      var f :| f in files && Rebase(root, iso, f) == image;
      RebaseInjective(root, iso, f, p);
    }
  }

  function MapRebase(root: Path, iso: Path, r: Option<Path>): Option<Path> {
    match r
    case None => None
    case Some(p) => Some(Rebase(root, iso, p))
  }

  /** First-file search over rebased candidates, when the copy holds the collected candidates and those include the
      hit. */
  lemma {:induction false} FirstFileRebase(files: set<Path>, copies: set<Path>, kept: seq<Path>, root: Path, iso: Path,
                                           xs: seq<Path>, ys: seq<Path>)
    requires |xs| == |ys|
    requires forall i | 0 <= i < |xs| :: root <= xs[i] && ys[i] == Rebase(root, iso, xs[i])
    requires forall i | 0 <= i < |xs| :: ys[i] in copies <==> xs[i] in kept
    requires forall p | p in kept :: p in files
    requires FirstFile(files, xs).Some? ==> FirstFile(files, xs).value in kept
    ensures FirstFile(copies, ys) == MapRebase(root, iso, FirstFile(files, xs))
  {
    if xs != [] && xs[0] !in files {
      FirstFileRebase(files, copies, kept, root, iso, xs[1..], ys[1..]);
    }
  }

  /** From the copy of a collected file, a relative specifier that never climbs above the copy root and whose
      base lies strictly inside it resolves to the copy of what it resolved to before, or to nothing if it did not
      resolve. */
  lemma ResolvePreserved(fs: FileSystem, entry: Path, files: seq<Path>, root: Path, iso: Path, post: FileSystem,
                         f: Path, s: string)
    requires IsolatedGraph(fs, entry, files, root, iso, post)
    requires f in files && f in fs.imports && s in fs.imports[f] && StartsWith(s, ".")
    requires StaysInside(root, f, s)
    ensures ResolveImport(post, Rebase(root, iso, f), s) == MapRebase(root, iso, ResolveImport(fs, f, s))
  {
    var base := Base(f, s);
    RebaseParts(root, iso, f);
    ContainedWalk(root, iso, Parent(f), Split(s));
    var copyBase := Rebase(root, iso, base);
    var xs, ys := Candidates(base), Candidates(copyBase);
    forall i | 0 <= i < |xs|
      ensures |xs| == |ys| && root < xs[i] && ys[i] == Rebase(root, iso, xs[i])
      ensures ys[i] in post.files <==> xs[i] in files
    {
      CandidateRebase(SOURCE_FILE_EXTENSIONS, root, iso, base, i);
      CopyHolds(fs, files, root, iso, post, xs[i]);
    }
    assert |xs| > 0;
    CollectedClosed(fs, entry, files, f, s);
    CollectedAreFiles(fs, entry, files);
    FirstFileRebase(fs.files, post.files, files, root, iso, xs, ys);
  }

  /** Relative to `f`, the specifier never climbs above `root` and its base lies strictly inside. */
  ghost predicate StaysInside(root: Path, f: Path, s: string) {
    Contained(root, Parent(f), Split(s)) && root < Base(f, s)
  }

  lemma CollectedClosed(fs: FileSystem, entry: Path, files: seq<Path>, f: Path, s: string)
    requires IsImportGraph(fs, entry, files)
    requires f in files && f in fs.imports && s in fs.imports[f] && StartsWith(s, ".")
    ensures ResolveImport(fs, f, s).Some? ==> ResolveImport(fs, f, s).value in files
  {
    var r := ResolveImport(fs, f, s);
    if r.Some? {
      assert ImportsVia(fs, f, s, r.value);
      ReachableStep(Edges(fs), entry, f, r.value);
    }
  }

  lemma CollectedAreFiles(fs: FileSystem, entry: Path, files: seq<Path>)
    requires IsImportGraph(fs, entry, files) && entry in fs.files
    ensures forall p | p in files :: p in fs.files
  {
    forall p | p in files ensures p in fs.files {
      var trail :| TrailBetween(Edges(fs), entry, p, trail);
      if |trail| > 1 {
        ShorterTrail(Edges(fs), trail);
      }
    }
  }

  lemma NoCandidateUnder(iso: Path, base: Path, target: Path)
    requires iso != [] && !(iso <= base) && iso < target
    ensures target !in Candidates(base)
  {
    var ys := Candidates(base);
    forall i | 0 <= i < |ys| ensures ys[i] != target {
      if iso < ys[i] {
        CandidateUnder(SOURCE_FILE_EXTENSIONS, iso, base, i);
      }
    }
  }

  lemma {:induction false} FirstFileIndex(files: set<Path>, xs: seq<Path>) returns (i: nat)
    requires FirstFile(files, xs).Some?
    ensures i < |xs| && xs[i] in files && FirstFile(files, xs) == Some(xs[i])
    ensures forall j | 0 <= j < i :: xs[j] !in files
  {
    if xs[0] in files {
      i := 0;
    } else {
      i := FirstFileIndex(files, xs[1..]);
      i := i + 1;
    }
  }

  // ----- a specifier that names the copy root itself

  /** The hit is an index file in the copy root, and no file lies beside the isolated root under its name with an
      extension that is tried before it. */
  ghost predicate IndexHit(exts: seq<string>, fs: FileSystem, root: Path, iso: Path, g: Path, k: int)
    requires iso != []
  {
    && 0 <= k < |exts| && g == root + ["index" + exts[k]]
    && forall j | 0 <= j <= k :: Retail(iso, 0, exts[j]) !in fs.files
  }

  ghost predicate NamesIndex(exts: seq<string>, fs: FileSystem, root: Path, iso: Path, g: Path)
    requires iso != []
  {
    Extname(iso) == "" && exists k :: IndexHit(exts, fs, root, iso, g, k)
  }

  ghost predicate DottedAll(exts: seq<string>) {
    forall k | 0 <= k < |exts| :: exts[k] != "" && exts[k][0] == '.'
  }

  /** A hit strictly below the base it was looked up from: the base has no extension. */
  lemma HitBelow(exts: seq<string>, files: set<Path>, root: Path, g: Path) returns (i: nat)
    requires FirstFile(files, CandidatesWith(exts, root)) == Some(g) && root < g
    ensures Extname(root) == "" && 0 < i < CandidateCount(exts, root) && CandidateAt(exts, root, i) == g
    ensures forall j | 0 <= j < i :: CandidateAt(exts, root, j) !in files
  {
    var xs := CandidatesWith(exts, root);
    i := FirstFileIndex(files, xs);
    assert forall j | 0 <= j < |xs| :: xs[j] == CandidateAt(exts, root, j);
  }

  lemma SiblingsOnly(exts: seq<string>, iso: Path)
    requires iso != [] && Extname(iso) != ""
    ensures forall y | y in CandidatesWith(exts, iso) :: |y| == |iso|
  {
    forall j | 0 <= j < |CandidatesWith(exts, iso)| ensures |CandidatesWith(exts, iso)[j]| == |iso| {
      assert CandidatesWith(exts, iso)[j] == CandidateAt(exts, iso, j);
    }
  }

  /** What the copy holds among the candidates of the isolated root. */
  lemma RootCandidate(exts: seq<string>, fs: FileSystem, files: seq<Path>, root: Path, iso: Path, post: FileSystem,
                      j: nat)
    requires iso != [] && Fresh(fs, iso) && (forall f | f in files :: root < f)
    requires post.files == fs.files + Images(root, iso, files)
    requires Extname(root) == "" == Extname(iso) && j < CandidateCount(exts, root)
    ensures j < CandidateCount(exts, iso)
    ensures var y := CandidateAt(exts, iso, j);
            if j == 0 then y == iso && y !in post.files
            else if (j - 1) % 2 == 0 then
              y == Retail(iso, 0, exts[(j - 1) / 2]) && |y| == |iso| && (y in post.files <==> y in fs.files)
            else
              && y == Rebase(root, iso, CandidateAt(exts, root, j))
              && (y in post.files <==> CandidateAt(exts, root, j) in files)
  {
    var y := CandidateAt(exts, iso, j);
    assert !Exists(fs, iso);
    if |y| == |iso| {
      forall f | f in files ensures Rebase(root, iso, f) != y {
        RebaseInjective(root, iso, f, f);
      }
    } else {
      var name := "index" + exts[(j - 1) / 2];
      assert (root + [name])[|root|..] == [name];
      CopyHolds(fs, files, root, iso, post, root + [name]);
    }
  }

  /** The hit is the index file with extension `k`: it survives if no sibling of the isolated root comes first. */
  lemma IndexSurvives(exts: seq<string>, fs: FileSystem, files: seq<Path>, root: Path, iso: Path, post: FileSystem,
                      k: nat)
    requires iso != [] && Fresh(fs, iso) && (forall f | f in files :: root < f && f in fs.files)
    requires post.files == fs.files + Images(root, iso, files)
    requires Extname(root) == "" == Extname(iso) && k < |exts| && root + ["index" + exts[k]] in files
    requires forall j | 0 <= j < 2 * k + 2 :: CandidateAt(exts, root, j) !in fs.files
    ensures FirstFile(post.files, CandidatesWith(exts, iso)) == Some(Rebase(root, iso, root + ["index" + exts[k]]))
            <==> forall j | 0 <= j <= k :: Retail(iso, 0, exts[j]) !in fs.files
  {
    var i, g := 2 * k + 2, root + ["index" + exts[k]];
    Halves(k);
    assert CandidateAt(exts, root, i) == g;
    RootCandidate(exts, fs, files, root, iso, post, i);
    RebaseInjective(root, iso, g, g);
    forall j | 0 <= j < i
      ensures CandidateAt(exts, iso, j) in post.files <==> IsSibling(exts, fs, iso, j)
      ensures IsSibling(exts, fs, iso, j) ==> |CandidateAt(exts, iso, j)| == |iso|
    {
      SiblingCandidate(exts, fs, files, root, iso, post, j);
    }
    if forall j | 0 <= j <= k :: Retail(iso, 0, exts[j]) !in fs.files {
      FirstFileAtCandidate(exts, post.files, iso, i);
    } else {
      var j :| 0 <= j <= k && Retail(iso, 0, exts[j]) in fs.files;
      Halves(j);
      assert IsSibling(exts, fs, iso, 2 * j + 1);
      EarlierSibling(exts, fs, post.files, iso, i, 2 * j + 1);
    }
  }

  lemma Halves(k: nat)
    ensures (2 * k + 1 - 1) / 2 == k && (2 * k + 1 - 1) % 2 == 0
    ensures (2 * k + 2 - 1) / 2 == k && (2 * k + 2 - 1) % 2 == 1
  {
  }

  lemma SiblingCandidate(exts: seq<string>, fs: FileSystem, files: seq<Path>, root: Path, iso: Path, post: FileSystem,
                         j: nat)
    requires iso != [] && Fresh(fs, iso) && (forall f | f in files :: root < f && f in fs.files)
    requires post.files == fs.files + Images(root, iso, files)
    requires Extname(root) == "" == Extname(iso) && j < CandidateCount(exts, root)
    requires CandidateAt(exts, root, j) !in fs.files
    ensures j < CandidateCount(exts, iso)
    ensures CandidateAt(exts, iso, j) in post.files <==> IsSibling(exts, fs, iso, j)
    ensures IsSibling(exts, fs, iso, j) ==> |CandidateAt(exts, iso, j)| == |iso|
  {
    RootCandidate(exts, fs, files, root, iso, post, j);
  }

  /** Candidate `j` is a file beside the isolated root. */
  ghost predicate IsSibling(exts: seq<string>, fs: FileSystem, iso: Path, j: nat)
    requires iso != []
  {
    j > 0 && (j - 1) % 2 == 0 && (j - 1) / 2 < |exts| && Retail(iso, 0, exts[(j - 1) / 2]) in fs.files
  }

  lemma FirstFileAtCandidate(exts: seq<string>, files: set<Path>, base: Path, i: nat)
    requires i < CandidateCount(exts, base) && CandidateAt(exts, base, i) in files
    requires forall j | 0 <= j < i :: CandidateAt(exts, base, j) !in files
    ensures FirstFile(files, CandidatesWith(exts, base)) == Some(CandidateAt(exts, base, i))
  {
    var xs := CandidatesWith(exts, base);
    assert forall j | 0 <= j <= i :: xs[j] == CandidateAt(exts, base, j);
    FirstFileIs(files, xs, i);
  }

  /** If some candidate before `i` is a file and all such files are siblings, the first file is a sibling. */
  lemma EarlierSibling(exts: seq<string>, fs: FileSystem, files: set<Path>, iso: Path, i: nat, j: nat)
    requires iso != [] && j < i <= CandidateCount(exts, iso) && CandidateAt(exts, iso, j) in files
    requires forall n | 0 <= n < i :: CandidateAt(exts, iso, n) in files ==> |CandidateAt(exts, iso, n)| == |iso|
    ensures FirstFile(files, CandidatesWith(exts, iso)).Some?
    ensures |FirstFile(files, CandidatesWith(exts, iso)).value| == |iso|
  {
    var ys := CandidatesWith(exts, iso);
    assert ys[j] == CandidateAt(exts, iso, j);
    var n := FirstFileIndex(files, ys);
    assert ys[n] == CandidateAt(exts, iso, n);
  }

  /** The hit is a file named only by an extension, which is possible at `/`: no candidate in the copy is its image. */
  lemma BareExtensionFails(exts: seq<string>, iso: Path, k: nat)
    requires iso != [] && DottedAll(exts) && k < |exts|
    ensures iso + [exts[k]] !in CandidatesWith(exts, iso)
  {
    var ys, q := CandidatesWith(exts, iso), iso + [exts[k]];
    forall j | 0 <= j < |ys| ensures ys[j] != q {
      assert ys[j] == CandidateAt(exts, iso, j);
      if |ys[j]| == |q| {
        assert ys[j][|iso|] == "index" + exts[(j - 1) / 2];
        assert ys[j][|iso|][0] == 'i';
      }
    }
  }

  lemma RootHitIff(exts: seq<string>, fs: FileSystem, files: seq<Path>, root: Path, iso: Path, post: FileSystem,
                   g: Path)
    requires iso != [] && Fresh(fs, iso) && DottedAll(exts) && g in files
    requires forall f | f in files :: root < f && f in fs.files
    requires post.files == fs.files + Images(root, iso, files)
    requires FirstFile(fs.files, CandidatesWith(exts, root)) == Some(g)
    ensures FirstFile(post.files, CandidatesWith(exts, iso)) == Some(Rebase(root, iso, g))
            <==> NamesIndex(exts, fs, root, iso, g)
  {
    var i := HitBelow(exts, fs.files, root, g);
    RebaseInjective(root, iso, g, g);
    if Extname(iso) != "" {
      SiblingsOnly(exts, iso);
    } else if (i - 1) % 2 == 0 {
      var k := (i - 1) / 2;
      assert root == [] && g == [exts[k]];
      assert Rebase(root, iso, g) == iso + [exts[k]];
      BareExtensionFails(exts, iso, k);
      assert forall n | 0 <= n < |exts| :: exts[k] != "index" + exts[n] by {
        assert forall n | 0 <= n < |exts| :: ("index" + exts[n])[0] == 'i';
      }
    } else {
      var k := (i - 1) / 2;
      IndexSurvives(exts, fs, files, root, iso, post, k);
      forall n | 0 <= n < k ensures g != root + ["index" + exts[n]] {
        assert (2 * n + 2 - 1) / 2 == n && CandidateAt(exts, root, 2 * n + 2) == root + ["index" + exts[n]];
      }
      assert IndexHit(exts, fs, root, iso, g, k) || exists j :: 0 <= j <= k && Retail(iso, 0, exts[j]) in fs.files;
    }
  }

  lemma SourceExtensionsDotted()
    ensures DottedAll(SOURCE_FILE_EXTENSIONS)
  {
  }

  /** A contained specifier that names the copy root itself keeps its resolution exactly when it hits an index file, the
      name of the isolated root has no extension, and no file beside the isolated root comes first. */
  lemma ResolveRootIff(fs: FileSystem, entry: Path, files: seq<Path>, root: Path, iso: Path, post: FileSystem, f: Path,
                       s: string, g: Path)
    requires IsolatedGraph(fs, entry, files, root, iso, post)
    requires f in files && f in fs.imports && s in fs.imports[f] && StartsWith(s, ".")
    requires Contained(root, Parent(f), Split(s)) && Base(f, s) == root
    requires ResolveImport(fs, f, s) == Some(g)
    ensures ResolveImport(post, Rebase(root, iso, f), s) == Some(Rebase(root, iso, g))
            <==> NamesIndex(SOURCE_FILE_EXTENSIONS, fs, root, iso, g)
  {
    CollectedClosed(fs, entry, files, f, s);
    RebaseParts(root, iso, f);
    ContainedWalk(root, iso, Parent(f), Split(s));
    assert Rebase(root, iso, root) == iso;
    CollectedAreFiles(fs, entry, files);
    SourceExtensionsDotted();
    RootHitIff(SOURCE_FILE_EXTENSIONS, fs, files, root, iso, post, g);
  }

  /** The resolution of a relative specifier survives the copy if and only if the specifier never climbs above the copy
      root, and its base lies strictly inside the copy root or names the root's index file as said above. A climbing
      specifier is taken not to spell the name of the fresh directory. */
  lemma ResolvePreservedIff(fs: FileSystem, entry: Path, files: seq<Path>, root: Path, iso: Path, post: FileSystem,
                            f: Path, s: string, g: Path)
    requires IsolatedGraph(fs, entry, files, root, iso, post)
    requires f in files && f in fs.imports && s in fs.imports[f] && StartsWith(s, ".")
    requires ResolveImport(fs, f, s) == Some(g)
    requires Contained(root, Parent(f), Split(s)) || iso[|iso| - 1] !in Split(s)
    ensures g in files
    ensures ResolveImport(post, Rebase(root, iso, f), s) == Some(Rebase(root, iso, g))
            <==> Contained(root, Parent(f), Split(s))
                 && (root < Base(f, s) || NamesIndex(SOURCE_FILE_EXTENSIONS, fs, root, iso, g))
  {
    CollectedClosed(fs, entry, files, f, s);
    if !Contained(root, Parent(f), Split(s)) {
      ClimbingFails(fs, files, root, iso, post, f, s, g);
    } else {
      ContainedWalk(root, iso, Parent(f), Split(s));
      if root < Base(f, s) {
        ResolvePreserved(fs, entry, files, root, iso, post, f, s);
      } else {
        BelowOrAt(root, f, s);
        ResolveRootIff(fs, entry, files, root, iso, post, f, s, g);
      }
    }
  }

  lemma BelowOrAt(root: Path, f: Path, s: string)
    requires root <= Base(f, s) && !(root < Base(f, s))
    ensures Base(f, s) == root
  {
  }

  lemma ClimbingFails(fs: FileSystem, files: seq<Path>, root: Path, iso: Path, post: FileSystem, f: Path, s: string,
                      g: Path)
    requires f in files && g in files && (forall p | p in files :: root < p) && iso != []
    requires !Contained(root, Parent(f), Split(s)) && iso[|iso| - 1] !in Split(s)
    ensures ResolveImport(post, Rebase(root, iso, f), s) != Some(Rebase(root, iso, g))
  {
    RebaseParts(root, iso, f);
    RebaseInjective(root, iso, g, g);
    EscapingWalk(root, iso, Parent(f), Split(s));
    NoCandidateUnder(iso, Base(Rebase(root, iso, f), s), Rebase(root, iso, g));
  }

  // ----- specifiers that resolve to nothing

  lemma {:induction false} SameFiles(files: set<Path>, more: set<Path>, xs: seq<Path>)
    requires forall i | 0 <= i < |xs| :: xs[i] in files <==> xs[i] in more
    ensures FirstFile(files, xs) == FirstFile(more, xs)
  {
    if xs != [] && xs[0] !in files {
      SameFiles(files, more, xs[1..]);
    }
  }

  /** From the copy, a climbing specifier finds exactly what the original tree has at the place it leads to. */
  lemma ClimbingLooksOutside(fs: FileSystem, files: seq<Path>, root: Path, iso: Path, post: FileSystem, f: Path,
                             s: string)
    requires f in files && (forall p | p in files :: root < p) && iso != []
    requires post.files == fs.files + Images(root, iso, files)
    requires !Contained(root, Parent(f), Split(s)) && iso[|iso| - 1] !in Split(s)
    ensures ResolveImport(post, Rebase(root, iso, f), s) ==
            FirstFile(fs.files, Candidates(Base(Rebase(root, iso, f), s)))
  {
    RebaseParts(root, iso, f);
    EscapingWalk(root, iso, Parent(f), Split(s));
    var base := Base(Rebase(root, iso, f), s);
    forall y | y in Candidates(base) ensures y !in Images(root, iso, files) {
      forall g | g in files ensures Rebase(root, iso, g) != y {
        RebaseInjective(root, iso, g, g);
        NoCandidateUnder(iso, base, Rebase(root, iso, g));
      }
    }
    SameFiles(post.files, fs.files, Candidates(base));
  }

  /** A lookup from the isolated root finds a file beside it, or the copy of an index file of the copy root. */
  ghost predicate RootFinds(exts: seq<string>, fs: FileSystem, files: seq<Path>, root: Path, iso: Path)
    requires iso != []
  {
    || (exists k :: 0 <= k < |exts| && Retail(iso, |Extname(iso)|, exts[k]) in fs.files)
    || (Extname(iso) == "" && exists k :: 0 <= k < |exts| && root + ["index" + exts[k]] in files)
  }

  lemma RootFindsIff(exts: seq<string>, fs: FileSystem, files: seq<Path>, root: Path, iso: Path, post: FileSystem)
    requires iso != [] && Fresh(fs, iso) && (forall f | f in files :: root < f)
    requires post.files == fs.files + Images(root, iso, files)
    ensures FirstFile(post.files, CandidatesWith(exts, iso)).Some? <==> RootFinds(exts, fs, files, root, iso)
  {
    if FirstFile(post.files, CandidatesWith(exts, iso)).Some? {
      var j := FirstFileIndex(post.files, CandidatesWith(exts, iso));
      IsoCandidate(exts, fs, files, root, iso, post, j);
    }
    forall k | 0 <= k < |exts| && Retail(iso, |Extname(iso)|, exts[k]) in fs.files
      ensures FirstFile(post.files, CandidatesWith(exts, iso)).Some?
    {
      SiblingFound(exts, post.files, iso, k);
    }
    forall k | 0 <= k < |exts| && Extname(iso) == "" && root + ["index" + exts[k]] in files
      ensures FirstFile(post.files, CandidatesWith(exts, iso)).Some?
    {
      IndexImage(root, iso, exts[k]);
      assert iso + ["index" + exts[k]] in Images(root, iso, files);
      IndexFound(exts, post.files, iso, k);
    }
  }

  lemma SomeCandidate(exts: seq<string>, files: set<Path>, base: Path, j: nat)
    requires j < CandidateCount(exts, base) && CandidateAt(exts, base, j) in files
    ensures FirstFile(files, CandidatesWith(exts, base)).Some?
  {
    assert CandidatesWith(exts, base)[j] in files;
  }

  lemma SiblingFound(exts: seq<string>, files: set<Path>, iso: Path, k: nat)
    requires iso != [] && k < |exts| && Retail(iso, |Extname(iso)|, exts[k]) in files
    ensures FirstFile(files, CandidatesWith(exts, iso)).Some?
  {
    assert (2 * k + 1 - 1) / 2 == k;
    SomeCandidate(exts, files, iso, if Extname(iso) != "" then k + 1 else 2 * k + 1);
  }

  lemma IndexFound(exts: seq<string>, files: set<Path>, iso: Path, k: nat)
    requires k < |exts| && Extname(iso) == "" && iso + ["index" + exts[k]] in files
    ensures FirstFile(files, CandidatesWith(exts, iso)).Some?
  {
    assert (2 * k + 2 - 1) / 2 == k && (2 * k + 2 - 1) % 2 == 1;
    SomeCandidate(exts, files, iso, 2 * k + 2);
  }

  lemma IndexImage(root: Path, iso: Path, ext: string)
    ensures Rebase(root, iso, root + ["index" + ext]) == iso + ["index" + ext]
  {
    assert (root + ["index" + ext])[|root|..] == ["index" + ext];
  }

  /** A candidate of the isolated root that the copy holds is one of those two. */
  lemma IsoCandidate(exts: seq<string>, fs: FileSystem, files: seq<Path>, root: Path, iso: Path, post: FileSystem,
                     j: nat)
    requires iso != [] && Fresh(fs, iso) && (forall f | f in files :: root < f)
    requires post.files == fs.files + Images(root, iso, files)
    requires j < CandidateCount(exts, iso) && CandidateAt(exts, iso, j) in post.files
    ensures RootFinds(exts, fs, files, root, iso)
  {
    var y := CandidateAt(exts, iso, j);
    assert !Exists(fs, iso);
    if |y| == |iso| {
      forall f | f in files ensures Rebase(root, iso, f) != y {
        RebaseInjective(root, iso, f, f);
      }
      var k := if Extname(iso) != "" then j - 1 else (j - 1) / 2;
      assert y == Retail(iso, |Extname(iso)|, exts[k]) && y in fs.files;
    } else {
      var k := (j - 1) / 2;
      IndexImage(root, iso, exts[k]);
      CopyHolds(fs, files, root, iso, post, root + ["index" + exts[k]]);
    }
  }

  // ----- the whole graph

  /** A specifier keeps its meaning in the copy: what it resolved to is found as its copy; and where it resolved to
      nothing, nothing is found, neither outside, if it climbs, nor from the isolated root. */
  ghost predicate Keeps(fs: FileSystem, files: seq<Path>, root: Path, iso: Path, f: Path, s: string)
    requires iso != []
  {
    var inside := Contained(root, Parent(f), Split(s));
    match ResolveImport(fs, f, s)
    case Some(g) => inside && (root < Base(f, s) || NamesIndex(SOURCE_FILE_EXTENSIONS, fs, root, iso, g))
    case None =>
      if inside then root < Base(f, s) || !RootFinds(SOURCE_FILE_EXTENSIONS, fs, files, root, iso)
      else FirstFile(fs.files, Candidates(Base(Rebase(root, iso, f), s))).None?
  }

  /** A relative specifier resolves from the copy to the copy of what it resolved to, or to nothing if it did so,
      exactly when it keeps its meaning in this sense. */
  lemma ResolvesAlikeIff(fs: FileSystem, entry: Path, files: seq<Path>, root: Path, iso: Path, post: FileSystem,
                         f: Path, s: string)
    requires IsolatedGraph(fs, entry, files, root, iso, post)
    requires f in files && f in fs.imports && s in fs.imports[f] && StartsWith(s, ".")
    requires Contained(root, Parent(f), Split(s)) || iso[|iso| - 1] !in Split(s)
    ensures ResolveImport(post, Rebase(root, iso, f), s) == MapRebase(root, iso, ResolveImport(fs, f, s))
            <==> Keeps(fs, files, root, iso, f, s)
  {
    var r := ResolveImport(fs, f, s);
    if r.Some? {
      ResolvePreservedIff(fs, entry, files, root, iso, post, f, s, r.value);
    } else if !Contained(root, Parent(f), Split(s)) {
      ClimbingLooksOutside(fs, files, root, iso, post, f, s);
    } else {
      ContainedWalk(root, iso, Parent(f), Split(s));
      if root < Base(f, s) {
        ResolvePreserved(fs, entry, files, root, iso, post, f, s);
      } else {
        BelowOrAt(root, f, s);
        RebaseParts(root, iso, f);
        assert Rebase(root, iso, root) == iso;
        RootFindsIff(SOURCE_FILE_EXTENSIONS, fs, files, root, iso, post);
      }
    }
  }

  /** Every relative specifier of every collected file keeps its meaning; those that climb do not spell the name of the
      fresh directory. */
  ghost predicate AllKept(fs: FileSystem, files: seq<Path>, root: Path, iso: Path)
    requires iso != []
  {
    forall f, s | f in files && f in fs.imports && s in fs.imports[f] && StartsWith(s, ".") ::
      && Keeps(fs, files, root, iso, f, s)
      && (Contained(root, Parent(f), Split(s)) || iso[|iso| - 1] !in Split(s))
  }

  lemma ViaImage(fs: FileSystem, entry: Path, files: seq<Path>, root: Path, iso: Path, post: FileSystem, f: Path,
                 s: string)
    requires IsolatedGraph(fs, entry, files, root, iso, post) && AllKept(fs, files, root, iso)
    requires f in files && f in fs.imports && s in fs.imports[f] && StartsWith(s, ".")
    ensures forall g :: ImportsVia(fs, f, s, g) ==>
              g in files && ImportsVia(post, Rebase(root, iso, f), s, Rebase(root, iso, g))
    ensures forall q :: ImportsVia(post, Rebase(root, iso, f), s, q) ==> q in Images(root, iso, files)
  {
    assert Keeps(fs, files, root, iso, f, s);
    ResolvesAlikeIff(fs, entry, files, root, iso, post, f, s);
    CollectedClosed(fs, entry, files, f, s);
    assert Rebase(root, iso, f) in Images(root, iso, files);
  }

  /** The edges of the copy are the images of the edges of the original. */
  lemma EdgeBack(fs: FileSystem, entry: Path, files: seq<Path>, root: Path, iso: Path, post: FileSystem, f: Path,
                 q: Path)
    requires IsolatedGraph(fs, entry, files, root, iso, post) && AllKept(fs, files, root, iso)
    requires f in files && Edge(post, Rebase(root, iso, f), q)
    ensures q in Images(root, iso, files)
  {
    var s :| ImportsVia(post, Rebase(root, iso, f), s, q);
    assert post.imports[Rebase(root, iso, f)] == fs.imports[f];
    ViaImage(fs, entry, files, root, iso, post, f, s);
  }

  lemma EdgeForward(fs: FileSystem, entry: Path, files: seq<Path>, root: Path, iso: Path, post: FileSystem, f: Path,
                    g: Path)
    requires IsolatedGraph(fs, entry, files, root, iso, post) && AllKept(fs, files, root, iso)
    requires f in files && Edge(fs, f, g)
    ensures Edge(post, Rebase(root, iso, f), Rebase(root, iso, g))
  {
    var s :| ImportsVia(fs, f, s, g);
    ViaImage(fs, entry, files, root, iso, post, f, s);
  }

  lemma ImageIsImages(root: Path, iso: Path, files: seq<Path>)
    ensures Image(p => Rebase(root, iso, p), SetOf(files)) == Images(root, iso, files)
  {
    var image := p => Rebase(root, iso, p);
    forall q ensures q in Image(image, SetOf(files)) <==> q in Images(root, iso, files) {
      if q in Images(root, iso, files) {
        var f :| f in files && Rebase(root, iso, f) == q;
        assert f in SetOf(files) && image(f) == q;
      }
    }
  }

  /** The import graph of the copied entry is the image of the import graph of the entry. */
  lemma IsolatedGraphIsImage(fs: FileSystem, entry: Path, files: seq<Path>, root: Path, iso: Path, post: FileSystem,
                             q: Path)
    requires IsolatedGraph(fs, entry, files, root, iso, post) && AllKept(fs, files, root, iso)
    ensures Reachable(Edges(post), Rebase(root, iso, entry), q) <==> q in Images(root, iso, files)
  {
    var nodes, image := SetOf(files), p => Rebase(root, iso, p);
    ImageIsImages(root, iso, files);
    forall f, g | f in nodes && Edges(fs)(f, g) ensures Edges(post)(image(f), image(g)) {
      EdgeForward(fs, entry, files, root, iso, post, f, g);
    }
    forall f, r | f in nodes && Edges(post)(image(f), r) ensures r in Image(image, nodes) {
      EdgeBack(fs, entry, files, root, iso, post, f, r);
    }
    ImageOfReachable(Edges(fs), Edges(post), image, entry, nodes, q);
  }

  // ----- the copier

  /** The nearest directory at or above `cursor` that holds a `package.json`. */
  ghost predicate IsPackageRoot(fs: FileSystem, dir: Path, root: Path) {
    && root <= dir
    && Exists(fs, root + ["package.json"])
    && forall k | |root| < k <= |dir| :: !Exists(fs, dir[..k] + ["package.json"])
  }

  method ResolvePackageRoot(fs: FileSystem, modulePath: Path) returns (r: Result<Path>)
    ensures r.Ok? ==> IsPackageRoot(fs, Parent(modulePath), r.value)
    ensures r.Err? ==>
              forall k | 0 <= k <= |Parent(modulePath)| :: !Exists(fs, Parent(modulePath)[..k] + ["package.json"])
  {
    ghost var dir := Parent(modulePath);
    var cursor := Parent(modulePath);
    assert dir[..|dir|] == dir;
    while true
      invariant |cursor| <= |dir| && cursor == dir[..|cursor|]
      invariant forall k | |cursor| < k <= |dir| :: !Exists(fs, dir[..k] + ["package.json"])
      decreases |cursor|
    {
      if Exists(fs, cursor + ["package.json"]) {
        return Ok(cursor);
      }
      var parent := Parent(cursor);
      if parent == cursor {
        return Err;
      }
      cursor := parent;
    }
  }

  datatype Isolated = Isolated(copiedModule: Path, root: Path, iso: Path, files: seq<Path>, post: FileSystem)

  function IsolatedRoot(repoRoot: Path, packageRoot: Path, tag: string): Path {
    var name := if packageRoot == [] then "" else packageRoot[|packageRoot| - 1];
    repoRoot + [".openclaw-config-doc-cache", name + "-" + tag]
  }

  /** `tag` is the random part of the `mkdtemp` name, which is unused for every package root. */
  method CopyModuleImportGraph(fs: FileSystem, modulePath: Path, repoRoot: Path, tag: string)
    returns (r: Result<Isolated>)
    requires TreeLike(fs) && IsPath(modulePath)
    requires forall k | 0 <= k <= |modulePath| :: Fresh(fs, IsolatedRoot(repoRoot, modulePath[..k], tag))
    ensures r.Ok? <==> modulePath in fs.files && HasPackageRoot(fs, Parent(modulePath))
    ensures r.Ok? ==> IsIsolated(fs, modulePath, r.value)
  {
    var package := ResolvePackageRoot(fs, modulePath);
    if package.Err? {
      return Err;
    }
    var packageRoot := package.value;
    assert packageRoot == Parent(modulePath)[..|packageRoot|] == modulePath[..|packageRoot|];
    var graph := CollectRelativeImportGraph(fs, modulePath);
    if graph.Err? {
      return Err;
    }
    var iso := IsolatedRoot(repoRoot, packageRoot, tag);
    var copy := CopyIntoIsolatedRoot(fs, modulePath, packageRoot, graph.value, iso);
    assert IsPackageRootOf(fs, modulePath, packageRoot, copy.root, copy.files);
    r := Ok(copy);
  }

  method CopyIntoIsolatedRoot(fs: FileSystem, modulePath: Path, packageRoot: Path, files: seq<Path>, iso: Path)
    returns (copy: Isolated)
    requires TreeLike(fs) && iso != [] && Fresh(fs, iso)
    requires Exists(fs, packageRoot + ["package.json"])
    requires modulePath in fs.files && IsImportGraph(fs, modulePath, files) && SetOf(files) <= fs.files
    ensures IsolatedGraph(fs, modulePath, copy.files, copy.root, copy.iso, copy.post)
    ensures copy.copiedModule == Rebase(copy.root, copy.iso, modulePath)
    ensures copy.files == files && copy.iso == iso
    ensures IsLongestCommonPrefix(copy.root, [packageRoot] + files)
  {
    AllArePaths(fs, packageRoot, files);
    var ancestor := ResolveCommonAncestor([packageRoot] + files);
    var copyRoot := ancestor.value;
    CollectedBelowRoot(fs, packageRoot, files);
    var post := CopyFiles(fs, files, copyRoot, iso);
    var copied := Resolve(iso, Join(Relative(copyRoot, modulePath)));
    ReachableSelf(Edges(fs), modulePath);
    assert modulePath in files;
    RelativeBelow(copyRoot, modulePath, iso);
    copy := Isolated(copied, copyRoot, iso, files, post);
  }

  /** The copy loop: each file goes to the isolated root joined with its path relative to the copy root. */
  method CopyFiles(fs: FileSystem, files: seq<Path>, root: Path, iso: Path) returns (post: FileSystem)
    requires fs.imports.Keys == fs.files && Fresh(fs, iso) && Distinct(files)
    requires forall f | f in files :: root < f && f in fs.imports && IsPath(f)
    ensures IsCopy(fs, files, root, iso, post)
  {
    post := fs;
    assert IsCopy(fs, files[..0], root, iso, post);
    for i := 0 to |files|
      invariant IsCopy(fs, files[..i], root, iso, post)
    {
      var target := Resolve(iso, Join(Relative(root, files[i])));
      RelativeBelow(root, files[i], iso);
      CopyOneMore(fs, files, i, root, iso, post);
      post := post.(files := post.files + {target}, imports := post.imports[target := fs.imports[files[i]]]);
    }
    assert files[..|files|] == files;
  }

  ghost predicate HasPackageRoot(fs: FileSystem, dir: Path) {
    exists k :: 0 <= k <= |dir| && Exists(fs, dir[..k] + ["package.json"])
  }

  ghost predicate IsPackageRootOf(fs: FileSystem, modulePath: Path, packageRoot: Path, root: Path, files: seq<Path>) {
    IsPackageRoot(fs, Parent(modulePath), packageRoot) && IsLongestCommonPrefix(root, [packageRoot] + files)
  }

  ghost predicate IsIsolated(fs: FileSystem, modulePath: Path, copy: Isolated) {
    && IsolatedGraph(fs, modulePath, copy.files, copy.root, copy.iso, copy.post)
    && copy.copiedModule == Rebase(copy.root, copy.iso, modulePath)
    && exists packageRoot :: IsPackageRootOf(fs, modulePath, packageRoot, copy.root, copy.files)
  }

  lemma AllArePaths(fs: FileSystem, packageRoot: Path, files: seq<Path>)
    requires TreeLike(fs) && Exists(fs, packageRoot + ["package.json"]) && SetOf(files) <= fs.files
    ensures forall i | 0 <= i < |[packageRoot] + files| :: IsPath(([packageRoot] + files)[i])
  {
    var manifest := packageRoot + ["package.json"];
    assert IsPath(manifest);
    assert forall i | 0 <= i < |packageRoot| :: packageRoot[i] == manifest[i];
    forall i | 0 <= i < |files| ensures IsPath(files[i]) {
      assert files[i] in SetOf(files);
    }
  }

  /** Files are never above the package root, so the ancestor is exact and strictly above every file. */
  lemma CollectedBelowRoot(fs: FileSystem, packageRoot: Path, files: seq<Path>)
    requires TreeLike(fs) && Exists(fs, packageRoot + ["package.json"]) && SetOf(files) <= fs.files
    ensures IsLongestCommonPrefix(Fold(packageRoot, files), [packageRoot] + files)
    ensures forall f | f in files :: Fold(packageRoot, files) < f && f in fs.imports && IsPath(f)
  {
    var manifest := packageRoot + ["package.json"];
    forall i | 0 <= i < |files| ensures files[i] in fs.files && !(files[i] <= packageRoot) {
      assert files[i] in SetOf(files);
      assert packageRoot < manifest;
    }
    NoAncestorIsExact(packageRoot, files);
    var root, all := Fold(packageRoot, files), [packageRoot] + files;
    assert root <= all[0];
    forall f | f in files ensures root < f && f in fs.imports && IsPath(f) {
      var i :| 0 <= i < |files| && files[i] == f;
      assert root <= all[i + 1];
    }
  }

  lemma CopyOneMore(fs: FileSystem, files: seq<Path>, i: nat, root: Path, iso: Path, post: FileSystem)
    requires i < |files| && Distinct(files) && Fresh(fs, iso) && fs.imports.Keys == fs.files
    requires forall f | f in files :: root < f && f in fs.imports
    requires IsCopy(fs, files[..i], root, iso, post)
    ensures var target := Rebase(root, iso, files[i]);
            IsCopy(fs, files[..i + 1], root, iso,
                   post.(files := post.files + {target}, imports := post.imports[target := fs.imports[files[i]]]))
  {
    assert files[..i + 1] == files[..i] + [files[i]];
    assert files[i] in files && files[i] !in files[..i];
    CopyOne(fs, files[..i], files[i], root, iso, post);
  }

  lemma CopyOne(fs: FileSystem, done: seq<Path>, f: Path, root: Path, iso: Path, post: FileSystem)
    requires Fresh(fs, iso) && fs.imports.Keys == fs.files && IsCopy(fs, done, root, iso, post)
    requires root < f && f in fs.imports && f !in done
    ensures IsCopy(fs, done + [f], root, iso,
                   post.(files := post.files + {Rebase(root, iso, f)},
                         imports := post.imports[Rebase(root, iso, f) := fs.imports[f]]))
  {
    var target := Rebase(root, iso, f);
    ImagesSnoc(root, iso, done, f);
    NewTarget(fs, done, f, root, iso);
  }

  /** The next target is no file yet. */
  lemma NewTarget(fs: FileSystem, done: seq<Path>, f: Path, root: Path, iso: Path)
    requires Fresh(fs, iso) && fs.imports.Keys == fs.files
    requires root < f && f !in done && forall g | g in done :: root < g
    ensures Rebase(root, iso, f) !in fs.imports
    ensures forall g | g in done :: Rebase(root, iso, g) != Rebase(root, iso, f)
  {
    RebaseInjective(root, iso, f, f);
    assert Rebase(root, iso, f) in fs.imports ==> Exists(fs, Rebase(root, iso, f));
    forall g | g in done ensures Rebase(root, iso, g) != Rebase(root, iso, f) {
      RebaseInjective(root, iso, g, f);
    }
  }

  lemma ImagesSnoc(root: Path, iso: Path, done: seq<Path>, f: Path)
    ensures Images(root, iso, done + [f]) == Images(root, iso, done) + {Rebase(root, iso, f)}
  {
    assert forall g :: g in done + [f] <==> g in done || g == f;
  }
}
