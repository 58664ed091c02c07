/** The relative-import worklist of the channel config loader. */
module ImportGraph {
  import opened Common
  import opened Paths
  import opened Reachability

  const SOURCE_FILE_EXTENSIONS: seq<string> :=
    [".ts", ".tsx", ".mts", ".cts", ".js", ".jsx", ".mjs", ".cjs"]

  /** `imports` gives, for a file, every specifier its text matches, in order. */
  datatype FileSystem = FileSystem(files: set<Path>, dirs: set<Path>, imports: map<Path, seq<string>>)

  /** Files are leaves: no file has a file or a directory below it. */
  ghost predicate TreeLike(fs: FileSystem) {
    && fs.imports.Keys == fs.files
    && fs.files !! fs.dirs
    && (forall p | Exists(fs, p) :: IsPath(p))
    && (forall f, p | f in fs.files && Exists(fs, p) :: f <= p ==> f == p)
  }

  predicate Exists(fs: FileSystem, p: Path) {
    p in fs.files || p in fs.dirs
  }

  // ----- candidates for one specifier

  function LastDot(name: string): (d: int)
    ensures -1 <= d < |name|
    ensures d >= 0 ==> name[d] == '.'
    ensures forall i | d < i < |name| :: name[i] != '.'
  {
    if name == "" then -1
    else if name[|name| - 1] == '.' then |name| - 1
    else LastDot(name[..|name| - 1])
  }

  /** `path.extname` of the last segment: a leading dot starts no extension. */
  function Extname(p: Path): string {
    if p == [] then ""
    else
      var name := p[|p| - 1];
      var d := LastDot(name);
      if d <= 0 then "" else name[d..]
  }

  /** Replaces the last `drop` characters of the path's text by `suffix`. */
  function Retail(p: Path, drop: nat, suffix: string): Path
    requires p == [] ==> drop == 0
    requires p != [] ==> drop <= |p[|p| - 1]|
  {
    if p == [] then [suffix]
    else
      var name := p[|p| - 1];
      p[..|p| - 1] + [name[..|name| - drop] + suffix]
  }

  /** Candidate number `i` for a base path, before duplicates are dropped. */
  function CandidateAt(exts: seq<string>, base: Path, i: nat): Path
    requires i < CandidateCount(exts, base)
  {
    var ext := Extname(base);
    if i == 0 then base
    else if ext != "" then Retail(base, |ext|, exts[i - 1])
    else if (i - 1) % 2 == 0 then Retail(base, 0, exts[(i - 1) / 2])
    else base + ["index" + exts[(i - 1) / 2]]
  }

  function CandidateCount(exts: seq<string>, base: Path): nat {
    if Extname(base) != "" then 1 + |exts| else 1 + 2 * |exts|
  }

  function CandidatesWith(exts: seq<string>, base: Path): seq<Path> {
    seq(CandidateCount(exts, base), i requires 0 <= i < CandidateCount(exts, base) => CandidateAt(exts, base, i))
  }

  function Candidates(base: Path): seq<Path> {
    CandidatesWith(SOURCE_FILE_EXTENSIONS, base)
  }

  /** `Set.add` on a set kept in insertion order. */
  function Add<T(==)>(xs: seq<T>, x: T): seq<T> {
    if x in xs then xs else xs + [x]
  }

  function Dedup<T(==)>(xs: seq<T>): seq<T> {
    if xs == [] then [] else Add(Dedup(xs[..|xs| - 1]), xs[|xs| - 1])
  }

  lemma DedupNext<T>(xs: seq<T>, k: nat)
    requires k < |xs|
    ensures Dedup(xs[..k + 1]) == Add(Dedup(xs[..k]), xs[k])
  {
    assert xs[..k + 1][..k] == xs[..k];
  }

  /** Each element stays where it first occurs: a list keeps what its beginning gives. */
  lemma {:induction false} DedupMeans<T>(xs: seq<T>, more: seq<T>)
    ensures Distinct(Dedup(xs)) && forall x :: x in Dedup(xs) <==> x in xs
    ensures Dedup(xs) <= Dedup(xs + more)
  {
    if xs != [] {
      DedupMeans(xs[..|xs| - 1], []);
      assert xs == xs[..|xs| - 1] + [xs[|xs| - 1]];
    }
    DedupGrows(xs, more);
  }

  lemma {:induction false} DedupGrows<T>(xs: seq<T>, more: seq<T>)
    ensures Dedup(xs) <= Dedup(xs + more)
  {
    if more == [] {
      assert xs + more == xs;
    } else {
      DedupGrows(xs, more[..|more| - 1]);
      assert (xs + more)[..|xs + more| - 1] == xs + more[..|more| - 1];
    }
  }

  method ResolveImportCandidates(base: Path) returns (candidates: seq<Path>)
    ensures candidates == Dedup(Candidates(base))
  {
    candidates := CollectCandidates(SOURCE_FILE_EXTENSIONS, base);
  }

  /** The body of `resolveImportCandidates` for any extension list. */
  method CollectCandidates(exts: seq<string>, base: Path) returns (candidates: seq<Path>)
    ensures candidates == Dedup(CandidatesWith(exts, base))
  {
    ghost var all := CandidatesWith(exts, base);
    FirstCandidate(exts, base);
    if Extname(base) != "" {
      StemCandidates(exts, base);
      candidates := AddStemCandidates(exts, base, [base], all);
    } else {
      BareCandidates(exts, base);
      candidates := AddBareCandidates(exts, base, [base], all);
    }
  }

  method AddStemCandidates(exts: seq<string>, base: Path, candidates0: seq<Path>, ghost all: seq<Path>)
    returns (candidates: seq<Path>)
    requires Extname(base) != "" && IsStemList(exts, base, all) && candidates0 == Dedup(all[..1])
    ensures candidates == Dedup(all)
  {
    candidates := candidates0;
    for k := 0 to |exts|
      invariant candidates == Dedup(all[..k + 1])
    {
      DedupNext(all, k + 1);
      candidates := Add(candidates, Retail(base, |Extname(base)|, exts[k]));
    }
    assert all[..|exts| + 1] == all;
  }

  method AddBareCandidates(exts: seq<string>, base: Path, candidates0: seq<Path>, ghost all: seq<Path>)
    returns (candidates: seq<Path>)
    requires IsBareList(exts, base, all) && candidates0 == Dedup(all[..1])
    ensures candidates == Dedup(all)
  {
    candidates := candidates0;
    for k := 0 to |exts|
      invariant candidates == Dedup(all[..2 * k + 1])
    {
      AddTwo(all, 2 * k + 1, all[2 * k + 1], all[2 * k + 2]);
      candidates := Add(candidates, Retail(base, 0, exts[k]));
      candidates := Add(candidates, base + ["index" + exts[k]]);
    }
    assert all[..2 * |exts| + 1] == all;
  }

  ghost predicate IsStemList(exts: seq<string>, base: Path, all: seq<Path>) {
    |all| == 1 + |exts| && forall k | 0 <= k < |exts| :: all[k + 1] == Retail(base, |Extname(base)|, exts[k])
  }

  ghost predicate IsBareList(exts: seq<string>, base: Path, all: seq<Path>) {
    && |all| == 1 + 2 * |exts|
    && forall k | 0 <= k < |exts| ::
         all[2 * k + 1] == Retail(base, 0, exts[k]) && all[2 * k + 2] == base + ["index" + exts[k]]
  }

  lemma FirstCandidate(exts: seq<string>, base: Path)
    ensures Dedup(CandidatesWith(exts, base)[..1]) == [base]
  {
    DedupNext(CandidatesWith(exts, base), 0);
  }

  lemma StemCandidates(exts: seq<string>, base: Path)
    requires Extname(base) != ""
    ensures IsStemList(exts, base, CandidatesWith(exts, base))
  {
  }

  lemma BareCandidates(exts: seq<string>, base: Path)
    requires Extname(base) == ""
    ensures IsBareList(exts, base, CandidatesWith(exts, base))
  {
    forall k | 0 <= k < |exts|
      ensures CandidatesWith(exts, base)[2 * k + 1] == Retail(base, 0, exts[k])
      ensures CandidatesWith(exts, base)[2 * k + 2] == base + ["index" + exts[k]]
    {
      assert (2 * k + 1 - 1) / 2 == k && (2 * k + 1 - 1) % 2 == 0;
      assert (2 * k + 2 - 1) / 2 == k && (2 * k + 2 - 1) % 2 == 1;
    }
  }

  lemma AddTwo<T>(xs: seq<T>, i: nat, x: T, y: T)
    requires i + 1 < |xs| && xs[i] == x && xs[i + 1] == y
    ensures Dedup(xs[..i + 2]) == Add(Add(Dedup(xs[..i]), x), y)
  {
    DedupNext(xs, i);
    DedupNext(xs, i + 1);
  }

  /** The first listed path that is a file. */
  function FirstFile(files: set<Path>, xs: seq<Path>): (r: Option<Path>)
    ensures r.Some? ==> r.value in xs && r.value in files
    ensures r.None? ==> forall i | 0 <= i < |xs| :: xs[i] !in files
  {
    if xs == [] then None
    else if xs[0] in files then Some(xs[0])
    else FirstFile(files, xs[1..])
  }

  lemma {:induction false} FirstFileSnoc(files: set<Path>, xs: seq<Path>, x: Path)
    ensures FirstFile(files, xs + [x]) ==
            if FirstFile(files, xs).Some? then FirstFile(files, xs)
            else if x in files then Some(x) else None
  {
    if xs != [] {
      FirstFileSnoc(files, xs[1..], x);
      assert (xs + [x])[1..] == xs[1..] + [x];
    }
  }

  lemma {:induction false} FirstFileDedup(files: set<Path>, xs: seq<Path>)
    ensures FirstFile(files, Dedup(xs)) == FirstFile(files, xs)
  {
    if xs != [] {
      var init, x := xs[..|xs| - 1], xs[|xs| - 1];
      FirstFileDedup(files, init);
      FirstFileSnoc(files, init, x);
      assert xs == init + [x];
      FirstFileSnoc(files, Dedup(init), x);
    }
  }

  lemma {:induction false} FirstFileIs(files: set<Path>, xs: seq<Path>, i: nat)
    requires i < |xs| && xs[i] in files && forall j | 0 <= j < i :: xs[j] !in files
    ensures FirstFile(files, xs) == Some(xs[i])
  {
    if i > 0 {
      FirstFileIs(files, xs[1..], i - 1);
    }
  }

  // ----- the candidates spelled out

  /** A dot and then no other. */
  predicate IsExtension(ext: string) {
    ext != "" && ext[0] == '.' && '.' !in ext[1..]
  }

  /** A name with no dot, except as its first character. */
  predicate IsBareName(name: string) {
    name != "" && '.' !in name[1..]
  }

  lemma LastDotIs(stem: string, ext: string)
    requires IsExtension(ext)
    ensures LastDot(stem + ext) == |stem|
  {
    var name := stem + ext;
    assert name[|stem|] == '.';
    forall i | |stem| < i < |name| ensures name[i] != '.' {
      assert name[i] == ext[1..][i - |stem| - 1];
    }
  }

  lemma StemExtname(dir: Path, stem: string, ext: string)
    requires stem != "" && IsExtension(ext)
    ensures Extname(dir + [stem + ext]) == ext
  {
    LastDotIs(stem, ext);
  }

  lemma BareExtname(dir: Path, name: string)
    requires IsBareName(name)
    ensures Extname(dir + [name]) == ""
  {
    forall i | 0 < i < |name| ensures name[i] != '.' {
      assert name[i] == name[1..][i - 1];
    }
  }

  /** Every name is bare or a stem with an extension. */
  lemma NameForm(name: string) returns (stem: string, ext: string)
    requires name != ""
    ensures IsBareName(name) || (name == stem + ext && stem != "" && IsExtension(ext))
  {
    var d := LastDot(name);
    if d <= 0 {
      stem, ext := name, "";
    } else {
      stem, ext := name[..d], name[d..];
    }
  }

  lemma StemListWith(exts: seq<string>, dir: Path, stem: string, ext: string)
    requires stem != "" && IsExtension(ext)
    ensures var all := CandidatesWith(exts, dir + [stem + ext]);
            && |all| == 1 + |exts| && all[0] == dir + [stem + ext]
            && forall k | 0 <= k < |exts| :: all[k + 1] == dir + [stem + exts[k]]
  {
    var base := dir + [stem + ext];
    StemExtname(dir, stem, ext);
    StemCandidates(exts, base);
    forall k | 0 <= k < |exts| ensures Retail(base, |ext|, exts[k]) == dir + [stem + exts[k]] {
      assert (stem + ext)[..|stem|] == stem;
    }
  }

  /** A name without an extension is looked up as it is, and then for each source extension with it and as a directory
      with an index file. */
  lemma BareCandidateList(exts: seq<string>, dir: Path, name: string)
    requires IsBareName(name)
    ensures var all := CandidatesWith(exts, dir + [name]);
            && |all| == 1 + 2 * |exts| && all[0] == dir + [name]
            && forall k | 0 <= k < |exts| ::
                 all[2 * k + 1] == dir + [name + exts[k]] && all[2 * k + 2] == dir + [name, "index" + exts[k]]
  {
    var base := dir + [name];
    BareExtname(dir, name);
    BareCandidates(exts, base);
    forall k | 0 <= k < |exts|
      ensures Retail(base, 0, exts[k]) == dir + [name + exts[k]]
      ensures base + ["index" + exts[k]] == dir + [name, "index" + exts[k]]
    {
      BarePair(dir, name, exts[k]);
    }
  }

  lemma BarePair(dir: Path, name: string, ext: string)
    ensures Retail(dir + [name], 0, ext) == dir + [name + ext]
    ensures dir + [name] + ["index" + ext] == dir + [name, "index" + ext]
  {
    assert name[..|name|] == name;
    assert (dir + [name])[..|dir|] == dir;
  }

  /** A name with an extension is looked up as it is, and then with its extension replaced by each source extension. */
  lemma StemCandidateList(dir: Path, stem: string, ext: string)
    requires stem != "" && IsExtension(ext)
    ensures Candidates(dir + [stem + ext]) ==
            [dir + [stem + ext],
             dir + [stem + ".ts"], dir + [stem + ".tsx"], dir + [stem + ".mts"], dir + [stem + ".cts"],
             dir + [stem + ".js"], dir + [stem + ".jsx"], dir + [stem + ".mjs"], dir + [stem + ".cjs"]]
  {
    StemEight(SOURCE_FILE_EXTENSIONS, dir, stem, ext);
  }

  lemma StemEight(exts: seq<string>, dir: Path, stem: string, ext: string)
    requires stem != "" && IsExtension(ext) && |exts| == 8
    ensures CandidatesWith(exts, dir + [stem + ext]) ==
            [dir + [stem + ext],
             dir + [stem + exts[0]], dir + [stem + exts[1]], dir + [stem + exts[2]], dir + [stem + exts[3]],
             dir + [stem + exts[4]], dir + [stem + exts[5]], dir + [stem + exts[6]], dir + [stem + exts[7]]]
  {
    StemListWith(exts, dir, stem, ext);
    var all := CandidatesWith(exts, dir + [stem + ext]);
    assert all == [all[0], all[1], all[2], all[3], all[4], all[5], all[6], all[7], all[8]];
    assert forall k | 0 <= k < 8 :: all[k + 1] == dir + [stem + exts[k]];
  }

  /** At the root the candidates are the root, the extensions as names, and its index files. */
  lemma RootCandidates(k: nat)
    requires k < |SOURCE_FILE_EXTENSIONS|
    ensures var all := Candidates([]);
            && |all| == 1 + 2 * |SOURCE_FILE_EXTENSIONS| && all[0] == []
            && all[2 * k + 1] == [SOURCE_FILE_EXTENSIONS[k]]
            && all[2 * k + 2] == ["index" + SOURCE_FILE_EXTENSIONS[k]]
  {
    BareCandidates(SOURCE_FILE_EXTENSIONS, []);
  }

  function Base(file: Path, specifier: string): Path {
    Resolve(Parent(file), specifier)
  }

  function ResolveImport(fs: FileSystem, file: Path, specifier: string): Option<Path> {
    FirstFile(fs.files, Candidates(Base(file, specifier)))
  }

  /** `./name` is looked up beside the importing file and `../name` one directory up. */
  lemma BaseMeans(dir: Path, file: string, name: string)
    requires IsName(name)
    ensures Base(dir + [file], "./" + name) == dir + [name]
    ensures Base(dir + [file], "../" + name) == Parent(dir) + [name]
  {
    ResolveTwo(dir, ".", name);
    ResolveTwo(dir, "..", name);
    assert "./" + name == "." + "/" + name && "../" + name == ".." + "/" + name;
    assert Parent(dir + [file]) == dir;
  }

  lemma ResolveTwo(dir: Path, first: string, name: string)
    requires IsName(name) && '/' !in first
    ensures Resolve(dir, first + "/" + name) == Enter(dir, first) + [name]
  {
    SplitAppend(first, name);
    SplitPlain(name);
    var segs := [first] + [name];
    assert segs[1..] == [name] && [name][1..] == [];
    assert Walk(dir, segs) == Walk(Enter(dir, first), [name]) == Walk(Enter(dir, first) + [name], []);
  }

  /** An import resolves to the first of its candidates that is a file. */
  lemma ResolvesTo(fs: FileSystem, file: Path, specifier: string, i: nat)
    requires i < |Candidates(Base(file, specifier))| && Candidates(Base(file, specifier))[i] in fs.files
    requires forall j | 0 <= j < i :: Candidates(Base(file, specifier))[j] !in fs.files
    ensures ResolveImport(fs, file, specifier) == Some(Candidates(Base(file, specifier))[i])
  {
    FirstFileIs(fs.files, Candidates(Base(file, specifier)), i);
  }

  /** An import of `./stem.js` finds the file `stem.ts` beside the importing one when there is no `stem.js`. */
  lemma ScriptNamesSource(fs: FileSystem, dir: Path, file: string, stem: string)
    requires stem != "" && '/' !in stem
    requires dir + [stem + ".js"] !in fs.files && dir + [stem + ".ts"] in fs.files
    ensures ResolveImport(fs, dir + [file], "./" + (stem + ".js")) == Some(dir + [stem + ".ts"])
  {
    var name := stem + ".js";
    BaseMeans(dir, file, name);
    StemCandidateList(dir, stem, ".js");
    FirstFileIs(fs.files, Candidates(dir + [name]), 1);
  }

  method ResolveRelativeImportPath(fs: FileSystem, file: Path, specifier: string) returns (r: Option<Path>)
    ensures r == ResolveImport(fs, file, specifier)
  {
    var candidates := ResolveImportCandidates(Base(file, specifier));
    FirstFileDedup(fs.files, Candidates(Base(file, specifier)));
    for i := 0 to |candidates|
      invariant FirstFile(fs.files, candidates) == FirstFile(fs.files, candidates[i..])
    {
      if candidates[i] in fs.files {
        return Some(candidates[i]);
      }
      assert candidates[i..][1..] == candidates[i + 1..];
    }
    return None;
  }

  // ----- reachability

  /** `f` imports `g` through a specifier that starts with a dot. */
  ghost predicate Edge(fs: FileSystem, f: Path, g: Path) {
    exists s :: ImportsVia(fs, f, s, g)
  }

  ghost predicate ImportsVia(fs: FileSystem, f: Path, s: string, g: Path) {
    f in fs.imports && s in fs.imports[f] && StartsWith(s, ".") && ResolveImport(fs, f, s) == Some(g)
  }

  ghost function Edges(fs: FileSystem): (Path, Path) -> bool {
    (f, g) => Edge(fs, f, g)
  }

  /** The files an import worklist must return, in any order, each once. */
  ghost predicate IsImportGraph(fs: FileSystem, entry: Path, files: seq<Path>) {
    && Distinct(files)
    && (forall p :: p in files <==> Reachable(Edges(fs), entry, p))
  }

  ghost function SetOf<T>(xs: seq<T>): set<T> {
    set x | x in xs
  }

  method CollectRelativeImportGraph(fs: FileSystem, entry: Path) returns (r: Result<seq<Path>>)
    requires TreeLike(fs)
    ensures entry !in fs.files ==> r == Err
    ensures entry in fs.files ==> r.Ok? && IsImportGraph(fs, entry, r.value) && SetOf(r.value) <= fs.files
  {
    var discovered: seq<Path> := [];
    var queue := [entry];
    ReachableSelf(Edges(fs), entry);
    while |queue| > 0
      invariant Distinct(discovered)
      invariant SetOf(discovered) <= fs.files
      invariant entry in discovered || entry in queue
      invariant entry !in fs.files ==> discovered == [] && queue == [entry]
      invariant forall p | p in queue :: p in fs.files || p == entry
      invariant forall p | p in discovered :: Reachable(Edges(fs), entry, p)
      invariant forall p | p in queue :: Reachable(Edges(fs), entry, p)
      invariant forall f, g | f in discovered && Edge(fs, f, g) :: g in discovered || g in queue
      decreases fs.files - SetOf(discovered), |queue|
    {
      var current := queue[|queue| - 1];
      ghost var waiting := queue;
      queue := queue[..|queue| - 1];
      assert waiting == queue + [current];
      if current in discovered {
        continue;
      }
      ghost var before := discovered;
      discovered := discovered + [current];
      if current !in fs.files {
        return Err;
      }
      ghost var rest := queue;
      queue := PushImports(fs, current, queue);
      forall g ensures g in queue <==> g in rest || Edge(fs, current, g) {
        ImportedIffEdge(fs, current, g);
      }
      assert SetOf(discovered) == SetOf(before) + {current};
      forall p | p in queue ensures Reachable(Edges(fs), entry, p) && p in fs.files + {entry} {
        if p !in rest {
          ImportedIffEdge(fs, current, p);
          ReachableStep(Edges(fs), entry, current, p);
        }
      }
    }
    forall p | Reachable(Edges(fs), entry, p) ensures p in discovered {
      ReachableInClosed(Edges(fs), entry, SetOf(discovered), p);
    }
    return Ok(discovered);
  }

  /** What a specifier adds to the worklist: only relative ones that resolve. */
  function RelativeImport(fs: FileSystem, file: Path, specifier: string): Option<Path> {
    if StartsWith(specifier, ".") then ResolveImport(fs, file, specifier) else None
  }

  function Imported(fs: FileSystem, file: Path): seq<Path>
    requires file in fs.imports
  {
    Collect(fs.imports[file], s => RelativeImport(fs, file, s))
  }

  /** The specifier loop of the worklist: pushes every resolved relative import of `current`. */
  method PushImports(fs: FileSystem, current: Path, queue: seq<Path>) returns (pushed: seq<Path>)
    requires current in fs.imports
    ensures pushed == queue + Imported(fs, current)
  {
    pushed := queue;
    var specifiers := fs.imports[current];
    ghost var f := s => RelativeImport(fs, current, s);
    for i := 0 to |specifiers|
      invariant pushed == queue + Collect(specifiers[..i], f)
    {
      assert specifiers[..i + 1][..i] == specifiers[..i];
      if !StartsWith(specifiers[i], ".") {
        continue;
      }
      var resolved := ResolveRelativeImportPath(fs, current, specifiers[i]);
      if resolved.Some? {
        pushed := pushed + [resolved.value];
      }
    }
    assert specifiers[..|specifiers|] == specifiers;
  }

  lemma ImportedIffEdge(fs: FileSystem, file: Path, g: Path)
    requires file in fs.imports
    ensures g in Imported(fs, file) <==> Edge(fs, file, g)
    ensures Edge(fs, file, g) ==> g in fs.files
  {
    var specifiers, f := fs.imports[file], s => RelativeImport(fs, file, s);
    CollectIff(specifiers, f, g);
    forall i | 0 <= i < |specifiers| ensures f(specifiers[i]) == Some(g) <==> ImportsVia(fs, file, specifiers[i], g) {
    }
    if Edge(fs, file, g) {
      var s :| ImportsVia(fs, file, s, g);
      var i :| 0 <= i < |specifiers| && specifiers[i] == s;
    }
  }
}
