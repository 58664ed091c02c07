/** The directory that the copier makes, by its name, and inputs on which an import is lost in it. */
module IsolatedRootName {
  import opened Common
  import opened Paths
  import opened Reachability
  import opened ImportGraph
  import opened CommonAncestor
  import opened IsolatedCopy

  // ----- the name of the isolated root

  lemma LastDotAppend(name: string, rest: string)
    requires '.' !in rest
    ensures LastDot(name + rest) == LastDot(name)
  {
    assert forall i | 0 <= i < |name| :: (name + rest)[i] == name[i];
    assert forall i | |name| <= i < |name + rest| :: (name + rest)[i] == rest[i - |name|] != '.';
  }

  /** With a random part that has no dot, the isolated root has an extension exactly when the package root has one. */
  lemma IsolatedRootExtension(repoRoot: Path, packageRoot: Path, tag: string)
    requires '.' !in tag
    ensures Extname(IsolatedRoot(repoRoot, packageRoot, tag)) == "" <==> Extname(packageRoot) == ""
  {
    var name := if packageRoot == [] then "" else packageRoot[|packageRoot| - 1];
    assert '.' !in "-" + tag;
    assert name + ("-" + tag) == name + "-" + tag;
    LastDotAppend(name, "-" + tag);
  }

  /** For the directory that the copier makes: a specifier that names the copy root fails for lack of an index candidate
      exactly when the package root has an extension. */
  lemma IsolatedRootIff(fs: FileSystem, entry: Path, files: seq<Path>, root: Path, repoRoot: Path, packageRoot: Path,
                        tag: string, iso: Path, post: FileSystem, f: Path, s: string, g: Path)
    requires iso == IsolatedRoot(repoRoot, packageRoot, tag) && '.' !in tag
    requires IsolatedGraph(fs, entry, files, root, iso, post)
    requires f in files && f in fs.imports && s in fs.imports[f] && StartsWith(s, ".")
    requires ResolveImport(fs, f, s) == Some(g)
    requires Contained(root, Parent(f), Split(s)) || iso[|iso| - 1] !in Split(s)
    ensures ResolveImport(post, Rebase(root, iso, f), s) == Some(Rebase(root, iso, g))
            <==> Contained(root, Parent(f), Split(s))
                 && (root < Base(f, s)
                     || (Extname(packageRoot) == ""
                         && exists k :: IndexHit(SOURCE_FILE_EXTENSIONS, fs, root, iso, g, k)))
  {
    IsolatedRootExtension(repoRoot, packageRoot, tag);
    ResolvePreservedIff(fs, entry, files, root, iso, post, f, s, g);
  }

  /** A hit from the copy root itself means that the copy root has no extension. So where such a hit is lost to the
      extension of the package root, the copy root is a directory above the package root. */
  lemma RootHitHasNoExtension(fs: FileSystem, entry: Path, files: seq<Path>, root: Path, iso: Path, post: FileSystem,
                              f: Path, s: string, g: Path)
    requires IsolatedGraph(fs, entry, files, root, iso, post)
    requires f in files && f in fs.imports && s in fs.imports[f] && StartsWith(s, ".")
    requires ResolveImport(fs, f, s) == Some(g) && Base(f, s) == root
    ensures Extname(root) == ""
  {
    CollectedClosed(fs, entry, files, f, s);
    var i := HitBelow(SOURCE_FILE_EXTENSIONS, fs.files, root, g);
  }

  // ----- inputs on which a resolution is lost

  /** Two files, the first of which imports the second. */
  function TwoFiles(a: Path, s: string, b: Path): FileSystem {
    FileSystem({a, b}, {}, map[a := [s], b := []])
  }

  /** The import resolves to `b`, and from the copy of `a` it does not resolve to the copy of `b`. */
  ghost predicate LosesImport(root: Path, a: Path, s: string, b: Path, iso: Path, post: FileSystem) {
    var fs := TwoFiles(a, s, b);
    && IsolatedGraph(fs, a, [a, b], root, iso, post)
    && ResolveImport(fs, a, s) == Some(b)
    && ResolveImport(post, Rebase(root, iso, a), s) != Some(Rebase(root, iso, b))
  }

  lemma TwoFileGraph(a: Path, s: string, b: Path)
    requires a != b && StartsWith(s, ".") && ResolveImport(TwoFiles(a, s, b), a, s) == Some(b)
    ensures IsImportGraph(TwoFiles(a, s, b), a, [a, b])
  {
    var fs := TwoFiles(a, s, b);
    assert s in fs.imports[a];
    assert ImportsVia(fs, a, s, b);
    assert Edges(fs)(a, b);
    ReachableSelf(Edges(fs), a);
    ReachableStep(Edges(fs), a, a, b);
    forall p | Reachable(Edges(fs), a, p) ensures p in [a, b] {
      ReachableInClosed(Edges(fs), a, {a, b}, p);
    }
  }

  /** A base without an extension that is a directory with an index file. */
  lemma FindsIndex(files: set<Path>, base: Path)
    requires Extname(base) == "" && base !in files && base + ["index.ts"] in files
    requires Retail(base, 0, ".ts") !in files
    ensures FirstFile(files, Candidates(base)) == Some(base + ["index.ts"])
  {
    assert SOURCE_FILE_EXTENSIONS[0] == ".ts" && "index" + ".ts" == "index.ts";
    FirstFileAtCandidate(SOURCE_FILE_EXTENSIONS, files, base, 2);
  }

  /** The specifier `../p` from `/r/p/a.ts` leads back to `/r/p`, through `/r`. */
  lemma BaseOfReturn(r: string, p: string)
    requires IsName(p)
    ensures Split("../" + p) == ["..", p]
    ensures Base([r, p, "a.ts"], "../" + p) == [r, p]
    ensures !Contained([r, p], [r, p], ["..", p])
  {
    assert [p][1..] == [];
    assert Join(["..", p]) == ".." + "/" + p by {
      assert ["..", p][1..] == [p];
    }
    assert ".." + "/" + p == "../" + p;
    SplitJoin(["..", p]);
    assert Parent([r, p, "a.ts"]) == [r, p] && Parent([r, p]) == [r] && [r] + [p] == [r, p];
    assert ["..", p][1..] == [p];
    assert Walk([r, p], ["..", p]) == Walk([r], [p]) == Walk([r, p], []);
  }

  /** `/r/p/a.ts` imports `../p`, which is the package itself: leaving the copy root and coming back loses the
      import. */
  lemma LeavingAndReturning(r: string, p: string, s: string, a: Path, b: Path, fs: FileSystem, iso: Path,
                            post: FileSystem)
    requires IsName(p) && Extname([r, p]) == "" && s == "../" + p
    requires a == [r, p, "a.ts"] && b == [r, p, "index.ts"] && fs == TwoFiles(a, s, b)
    requires iso != [] && iso[|iso| - 1] != ".." && iso[|iso| - 1] != p
    requires Fresh(fs, iso) && IsCopy(fs, [a, b], [r, p], iso, post)
    ensures Base(a, s) == [r, p] && LosesImport([r, p], a, s, b, iso, post)
  {
    BaseOfReturn(r, p);
    assert b == [r, p] + ["index.ts"] && a[2] != b[2];
    FindsIndex(fs.files, [r, p]);
    assert s[0] == '.';
    TwoFileGraph(a, s, b);
    assert s in fs.imports[a] && Parent(a) == [r, p];
    ResolvePreservedIff(fs, a, [a, b], [r, p], iso, post, a, s, b);
  }

  lemma BaseOfParent(r: string, p: string)
    ensures Split("..") == [".."]
    ensures Base([r, p, "a.ts"], "..") == [r]
  {
    SplitPlain("..");
    assert [".."][1..] == [];
    assert Parent([r, p, "a.ts"]) == [r, p] && Parent([r, p]) == [r];
    assert Walk([r, p], [".."]) == Walk([r], []);
  }

  /** `/r/p.v2/a.ts` imports `..`, whose index file is `/r/index.ts`, so that the copy root is `/r`: the isolated root
      is named after `p.v2`, and the import is lost. */
  lemma NamedAfterVersion(r: string, p: string, a: Path, b: Path, fs: FileSystem, repoRoot: Path, tag: string,
                          iso: Path, post: FileSystem)
    requires Extname([r]) == "" && Extname([r, p]) != "" && p != "index.ts" && '.' !in tag
    requires a == [r, p, "a.ts"] && b == [r, "index.ts"] && fs == TwoFiles(a, "..", b)
    requires iso == IsolatedRoot(repoRoot, [r, p], tag)
    requires Fresh(fs, iso) && IsCopy(fs, [a, b], [r], iso, post)
    ensures Fold([r, p], [a, b]) == [r] && LosesImport([r], a, "..", b, iso, post)
  {
    CopyRootAbove(r, p);
    BaseOfParent(r, p);
    assert b == [r] + ["index.ts"] && |a| == 3;
    FindsIndex(fs.files, [r]);
    TwoFileGraph(a, "..", b);
    assert ".." in fs.imports[a];
    ParentContained(r, p);
    IsolatedRootIff(fs, a, [a, b], [r], repoRoot, [r, p], tag, iso, post, a, "..", b);
  }

  lemma ParentContained(r: string, p: string)
    ensures Contained([r], Parent([r, p, "a.ts"]), [".."])
  {
    assert Parent([r, p, "a.ts"]) == [r, p] && Enter([r, p], "..") == [r] && [".."][1..] == [];
    assert Contained([r], [r], []);
  }

  lemma CopyRootAbove(r: string, p: string)
    requires p != "index.ts"
    ensures Fold([r, p], [[r, p, "a.ts"], [r, "index.ts"]]) == [r]
  {
    var packageRoot: Path, a: Path, b: Path := [r, p], [r, p, "a.ts"], [r, "index.ts"];
    assert [a, b][..1] == [a] && [a][..0] == [];
    CommonLengthUnique(packageRoot, a, 2);
    assert Fold(packageRoot, [a]) == Narrow(packageRoot, a) == packageRoot;
    CommonLengthUnique(packageRoot, b, 1);
    assert Fold(packageRoot, [a, b]) == Narrow(packageRoot, b);
  }

  lemma TwoCopies(a: Path, s: string, b: Path, root: Path, iso: Path) returns (post: FileSystem)
    requires a != b && root < a && root < b && Fresh(TwoFiles(a, s, b), iso)
    ensures IsCopy(TwoFiles(a, s, b), [a, b], root, iso, post)
  {
    var a1, b1, fs := Rebase(root, iso, a), Rebase(root, iso, b), TwoFiles(a, s, b);
    RebaseInjective(root, iso, a, b);
    assert Exists(fs, a) && Exists(fs, b);
    assert Images(root, iso, [a, b]) == {a1, b1};
    post := FileSystem(fs.files + {a1, b1}, {}, fs.imports[a1 := [s]][b1 := []]);
  }

  /** The first loss happens in `/r/pkg`. */
  lemma ReturningLoses() returns (post: FileSystem)
    ensures LosesImport(["r", "pkg"], ["r", "pkg", "a.ts"], "../" + "pkg", ["r", "pkg", "index.ts"], ["r", "tmp"], post)
  {
    ExampleNames();
    var a, b, iso: Path := ["r", "pkg", "a.ts"], ["r", "pkg", "index.ts"], ["r", "tmp"];
    var s := "../" + "pkg";
    assert a[2] != b[2] && iso[1] != "pkg";
    post := TwoCopies(a, s, b, ["r", "pkg"], iso);
    LeavingAndReturning("r", "pkg", s, a, b, TwoFiles(a, s, b), iso, post);
  }

  /** The second happens in `/r/pkg.v2`. */
  lemma VersionLoses() returns (post: FileSystem)
    ensures Fold(["r", "pkg.v2"], [["r", "pkg.v2", "a.ts"], ["r", "index.ts"]]) == ["r"]
    ensures LosesImport(["r"], ["r", "pkg.v2", "a.ts"], "..", ["r", "index.ts"],
                        IsolatedRoot(["r"], ["r", "pkg.v2"], "x"), post)
  {
    ExampleNames();
    var a, b, iso: Path := ["r", "pkg.v2", "a.ts"], ["r", "index.ts"], IsolatedRoot(["r"], ["r", "pkg.v2"], "x");
    assert iso[1] == ".openclaw-config-doc-cache" && a[1] != iso[1] && b[1] != iso[1];
    post := TwoCopies(a, "..", b, ["r"], iso);
    NamedAfterVersion("r", "pkg.v2", a, b, TwoFiles(a, "..", b), ["r"], "x", iso, post);
  }

  lemma ExampleNames()
    ensures IsName("pkg") && Extname(["r"]) == "" && Extname(["r", "pkg"]) == "" && Extname(["r", "pkg.v2"]) != ""
    ensures '.' !in "x"
  {
    assert "pkg.v2"[3] == '.' && "pkg"[0] == 'p';
  }
}
