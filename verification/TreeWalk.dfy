/** The directory walk with an explicit stack. */
module TreeWalk {
  import opened Common

  type Path = seq<string>

  /** A directory with its entries as one listing returns them; an unreadable one has no listing. */
  datatype Node = Dir(name: string, readable: bool, entries: seq<Node>) | File(name: string) | Special(name: string)

  /** A directory waiting on the stack, with its path. */
  datatype Visit = Visit(path: Path, node: Node)

  datatype Options = Options(includeFile: Path -> bool, skipDirNames: set<string>)

  function Size(n: Node): nat {
    if n.Dir? then 1 + SizeAll(n.entries) else 1
  }

  function SizeAll(ns: seq<Node>): nat {
    if ns == [] then 0 else Size(ns[0]) + SizeAll(ns[1..])
  }

  function StackSize(stack: seq<Visit>): nat {
    if stack == [] then 0 else StackSize(stack[..|stack| - 1]) + Size(stack[|stack| - 1].node)
  }

  // ----- the recursive walk

  /** The included files below a directory. */
  function Files(o: Options, path: Path, n: Node): seq<Path>
    decreases n, 0
  {
    if n.Dir? && n.readable then FilesIn(o, path, n.entries) else []
  }

  /** The included files among the entries of a directory and below them. */
  function FilesIn(o: Options, path: Path, entries: seq<Node>): seq<Path>
    decreases entries
  {
    if entries == [] then [] else FilesOf(o, path, entries[0]) + FilesIn(o, path, entries[1..])
  }

  /** What one entry of a directory contributes. */
  function FilesOf(o: Options, path: Path, e: Node): seq<Path>
    decreases e, 1
  {
    match e
    case Dir(name, _, _) => if name in o.skipDirNames then [] else Files(o, path + [name], e)
    case File(name) => if o.includeFile(path + [name]) then [path + [name]] else []
    case Special(_) => []
  }

  function FilesOnStack(o: Options, stack: seq<Visit>): multiset<Path> {
    if stack == [] then multiset{}
    else
      var top := stack[|stack| - 1];
      FilesOnStack(o, stack[..|stack| - 1]) + multiset(Files(o, top.path, top.node))
  }

  lemma StackSnoc(o: Options, stack: seq<Visit>, v: Visit)
    ensures StackSize(stack + [v]) == StackSize(stack) + Size(v.node)
    ensures FilesOnStack(o, stack + [v]) == FilesOnStack(o, stack) + multiset(Files(o, v.path, v.node))
  {
    assert (stack + [v])[..|stack|] == stack;
  }

  /** `collectFilesSync`: the explicit-stack walk finds, as a multiset, the files of the recursive walk. */
  method CollectFilesSync(rootPath: Path, root: Node, o: Options) returns (files: seq<Path>)
    ensures multiset(files) == multiset(Files(o, rootPath, root))
  {
    files := [];
    var stack := [Visit(rootPath, root)];
    StackSnoc(o, [], Visit(rootPath, root));
    assert [] + [Visit(rootPath, root)] == stack;
    while |stack| > 0
      invariant multiset(files) + FilesOnStack(o, stack) == multiset(Files(o, rootPath, root))
      decreases StackSize(stack)
    {
      var current := stack[|stack| - 1];
      stack := stack[..|stack| - 1];
      if !current.node.Dir? || !current.node.readable {
        continue;
      }
      stack, files := PushEntries(o, current.path, current.node.entries, stack, files);
    }
  }

  /** The loop over one listing: directories go on the stack unless skipped, included files are collected. */
  method PushEntries(o: Options, path: Path, entries: seq<Node>, stack0: seq<Visit>, files0: seq<Path>)
    returns (stack: seq<Visit>, files: seq<Path>)
    ensures multiset(files) + FilesOnStack(o, stack) ==
            multiset(files0) + FilesOnStack(o, stack0) + multiset(FilesIn(o, path, entries))
    ensures StackSize(stack) <= StackSize(stack0) + SizeAll(entries)
  {
    stack, files := stack0, files0;
    assert entries[0..] == entries;
    for i := 0 to |entries|
      invariant multiset(files) + FilesOnStack(o, stack) + multiset(FilesIn(o, path, entries[i..])) ==
                multiset(files0) + FilesOnStack(o, stack0) + multiset(FilesIn(o, path, entries))
      invariant StackSize(stack) + SizeAll(entries[i..]) <= StackSize(stack0) + SizeAll(entries)
    {
      var entry, fullPath := entries[i], path + [entries[i].name];
      assert entries[i..][1..] == entries[i + 1..] && entries[i..][0] == entry;
      match entry
      case Dir(name, _, _) =>
        if name in o.skipDirNames {
          continue;
        }
        StackSnoc(o, stack, Visit(fullPath, entry));
        stack := stack + [Visit(fullPath, entry)];
      case File(_) =>
        if o.includeFile(fullPath) {
          files := files + [fullPath];
        }
      case Special(_) =>
    }
  }

  // ----- which files those are

  /** Following the names from the listing leads to a file, through readable directories that are not skipped. */
  ghost predicate LeadsToFile(o: Options, entries: seq<Node>, names: Path)
    decreases |names|, 1
  {
    exists e :: e in entries && LeadsVia(o, e, names)
  }

  ghost predicate LeadsVia(o: Options, e: Node, names: Path)
    decreases |names|, 0
  {
    names != [] && e.name == names[0] &&
    if |names| == 1 then e.File?
    else e.Dir? && e.name !in o.skipDirNames && e.readable && LeadsToFile(o, e.entries, names[1..])
  }

  /** Everything found lies strictly below the directory. */
  lemma {:induction false} FilesInBelow(o: Options, path: Path, entries: seq<Node>, q: Path)
    requires q in FilesIn(o, path, entries)
    ensures path < q
    decreases entries
  {
    if q in FilesOf(o, path, entries[0]) {
      FilesOfBelow(o, path, entries[0], q);
    } else {
      FilesInBelow(o, path, entries[1..], q);
    }
  }

  lemma {:induction false} FilesOfBelow(o: Options, path: Path, e: Node, q: Path)
    requires q in FilesOf(o, path, e)
    ensures path + [e.name] <= q
    decreases e, 1
  {
    if e.Dir? {
      FilesInBelow(o, path + [e.name], e.entries, q);
    }
  }

  /** The walk finds exactly the included files that the names lead to. */
  lemma {:induction false} FilesInIff(o: Options, path: Path, entries: seq<Node>, names: Path)
    ensures path + names in FilesIn(o, path, entries) <==> LeadsToFile(o, entries, names) && o.includeFile(path + names)
    decreases entries
  {
    if entries != [] {
      FilesInIff(o, path, entries[1..], names);
      FilesOfIff(o, path, entries[0], names);
      assert forall e :: e in entries <==> e == entries[0] || e in entries[1..];
    }
  }

  lemma {:induction false} FilesOfIff(o: Options, path: Path, e: Node, names: Path)
    ensures path + names in FilesOf(o, path, e) <==> LeadsVia(o, e, names) && o.includeFile(path + names)
    decreases e, 1
  {
    var q, full := path + names, path + [e.name];
    if q in FilesOf(o, path, e) {
      FilesOfBelow(o, path, e, q);
      assert q[|path|] == full[|path|];
    }
    if names != [] && names[0] == e.name {
      assert q == full + names[1..];
      assert |names| == 1 ==> q == full;
      assert |q| == |path| + |names| && |full| == |path| + 1;
      if e.Dir? {
        FilesInIff(o, full, e.entries, names[1..]);
        if |names| == 1 && q in FilesIn(o, full, e.entries) {
          FilesInBelow(o, full, e.entries, q);
        }
      }
    }
  }

  /** Names are unique within every listing, as file systems keep them. */
  ghost predicate UniqueNames(entries: seq<Node>)
    decreases entries
  {
    && (forall i, j | 0 <= i < j < |entries| :: entries[i].name != entries[j].name)
    && (forall e | e in entries :: e.Dir? ==> UniqueNames(e.entries))
  }

  lemma {:induction false} FilesInFrom(o: Options, path: Path, entries: seq<Node>, q: Path)
    requires q in FilesIn(o, path, entries)
    ensures exists e :: e in entries && path + [e.name] <= q
    decreases entries
  {
    if q in FilesOf(o, path, entries[0]) {
      FilesOfBelow(o, path, entries[0], q);
      assert entries[0] in entries;
    } else {
      FilesInFrom(o, path, entries[1..], q);
    }
  }

  /** The walk lists no file twice. */
  lemma {:induction false} FilesInDistinct(o: Options, path: Path, entries: seq<Node>)
    requires UniqueNames(entries)
    ensures Distinct(FilesIn(o, path, entries))
    decreases entries
  {
    if entries != [] {
      var e, rest := entries[0], entries[1..];
      assert UniqueNames(rest);
      FilesInDistinct(o, path, rest);
      if e.Dir? {
        assert e in entries;
        FilesInDistinct(o, path + [e.name], e.entries);
      }
      var a, b := FilesOf(o, path, e), FilesIn(o, path, rest);
      if e.Dir? && a != [] {
        assert a == Files(o, path + [e.name], e);
      }
      assert Distinct(a);
      forall i, j | 0 <= i < |a| && 0 <= j < |b| ensures a[i] != b[j] {
        var q, r := a[i], b[j];
        FilesOfBelow(o, path, e, q);
        FilesInFrom(o, path, rest, r);
        var other :| other in rest && path + [other.name] <= r;
        assert q[|path|] == (path + [e.name])[|path|] && r[|path|] == (path + [other.name])[|path|];
      }
    }
  }
}
