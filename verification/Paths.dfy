/** Absolute POSIX paths as segment lists, with the parts of Node's `path` module
    that the import-graph copier uses. */
module Paths {
  import opened Common

  /** `/a/b` is `["a", "b"]`; `/` is `[]`. */
  type Path = seq<string>

  predicate IsName(s: string) {
    s != "" && s != "." && s != ".." && '/' !in s
  }

  ghost predicate IsPath(p: Path) {
    forall i | 0 <= i < |p| :: IsName(p[i])
  }

  /** `path.dirname`; the root is its own parent. */
  function Parent(p: Path): Path {
    if p == [] then [] else p[..|p| - 1]
  }

  /** `text.split("/")`. */
  function Split(text: string): (segs: seq<string>)
    ensures segs != []
    ensures forall i | 0 <= i < |segs| :: '/' !in segs[i]
  {
    if text == "" then [""]
    else
      var rest := Split(text[1..]);
      if text[0] == '/' then [""] + rest else [[text[0]] + rest[0]] + rest[1..]
  }

  /** `segs.join("/")`. */
  function Join(segs: seq<string>): string {
    if segs == [] then "" else if |segs| == 1 then segs[0] else segs[0] + "/" + Join(segs[1..])
  }

  lemma {:induction false} SplitJoin(segs: seq<string>)
    requires segs != []
    requires forall i | 0 <= i < |segs| :: '/' !in segs[i]
    ensures Split(Join(segs)) == segs
  {
    if |segs| == 1 {
      SplitPlain(segs[0]);
      assert segs == [segs[0]];
    } else {
      SplitJoin(segs[1..]);
      SplitAppend(segs[0], Join(segs[1..]));
      assert Join(segs) == segs[0] + "/" + Join(segs[1..]);
      assert segs == [segs[0]] + segs[1..];
    }
  }

  lemma {:induction false} SplitPlain(s: string)
    requires '/' !in s
    ensures Split(s) == [s]
  {
    if s != "" {
      SplitPlain(s[1..]);
      assert s == [s[0]] + s[1..];
    }
  }

  lemma {:induction false} SplitAppend(s: string, t: string)
    requires '/' !in s
    ensures Split(s + "/" + t) == [s] + Split(t)
  {
    var whole := s + "/" + t;
    if s == "" {
      assert whole[1..] == t;
    } else {
      SplitAppend(s[1..], t);
      assert whole[1..] == s[1..] + "/" + t;
      assert s == [s[0]] + s[1..];
    }
  }

  /** One segment of `path.resolve`'s left-to-right normalisation. */
  function Enter(dir: Path, seg: string): Path {
    if seg == "" || seg == "." then dir
    else if seg == ".." then Parent(dir)
    else dir + [seg]
  }

  function Walk(dir: Path, segs: seq<string>): Path
    decreases segs
  {
    if segs == [] then dir else Walk(Enter(dir, segs[0]), segs[1..])
  }

  /** `path.resolve(dir, text)` and `path.join(dir, text)` for a `text` that does not start with `/`. */
  function Resolve(dir: Path, text: string): Path {
    Walk(dir, Split(text))
  }

  /** Number of leading segments that two paths share. */
  function CommonLength(a: Path, b: Path): (k: nat)
    ensures k <= |a| && k <= |b|
    ensures a[..k] == b[..k]
    ensures k < |a| && k < |b| ==> a[k] != b[k]
  {
    if a == [] || b == [] || a[0] != b[0] then 0
    else
      var rest := CommonLength(a[1..], b[1..]);
      assert a[..rest + 1] == [a[0]] + a[1..][..rest];
      assert b[..rest + 1] == [b[0]] + b[1..][..rest];
      rest + 1
  }

  lemma CommonLengthUnique(a: Path, b: Path, k: nat)
    requires k <= |a| && k <= |b| && a[..k] == b[..k]
    requires k < |a| && k < |b| ==> a[k] != b[k]
    ensures CommonLength(a, b) == k
  {
    var c := CommonLength(a, b);
    assert forall i | 0 <= i < k :: a[i] == a[..k][i] && b[i] == b[..k][i];
    assert forall i | 0 <= i < c :: a[i] == a[..c][i] && b[i] == b[..c][i];
  }

  function Ups(n: nat): (segs: seq<string>)
    ensures |segs| == n
    ensures forall i | 0 <= i < n :: segs[i] == ".."
  {
    seq(n, _ => "..")
  }

  /** `path.relative(start, target)`, before the segments are joined. */
  function Relative(start: Path, target: Path): seq<string> {
    var common := CommonLength(start, target);
    Ups(|start| - common) + target[common..]
  }

  /** The text test on a relative path says exactly: it climbs, and something follows the first `..`. */
  lemma ClimbTest(start: Path, target: Path)
    requires IsPath(target)
    ensures StartsWith(Join(Relative(start, target)), "../")
            <==> |Relative(start, target)| >= 2 && CommonLength(start, target) < |start|
  {
    var rel := Relative(start, target);
    var common := CommonLength(start, target);
    if rel == [] {
    } else {
      var head := rel[0];
      if common < |start| {
        assert head == "..";
        if |rel| >= 2 {
          assert Join(rel) == ".." + "/" + Join(rel[1..]);
          assert Join(rel)[..3] == "../";
        } else {
          assert Join(rel) == "..";
        }
      } else {
        assert head == target[common];
        if |rel| >= 2 {
          assert Join(rel) == head + "/" + Join(rel[1..]);
        }
        NoClimbingHead(head, Join(rel));
      }
    }
  }

  /** A text whose first segment is a name does not start with `../`. */
  lemma NoClimbingHead(head: string, text: string)
    requires IsName(head)
    requires text == head || head + "/" <= text
    ensures !StartsWith(text, "../")
  {
    if |head| >= 3 {
      assert text[2] == head[2];
    } else if |head| == 2 {
      assert text[..2] == head != "..";
    } else if text != head {
      assert text[1] == (head + "/")[1] == '/';
    }
  }

  lemma {:induction false} WalkAppend(dir: Path, a: seq<string>, b: seq<string>)
    ensures Walk(dir, a + b) == Walk(Walk(dir, a), b)
    decreases a
  {
    if a == [] {
      assert a + b == b;
    } else {
      WalkAppend(Enter(dir, a[0]), a[1..], b);
      assert (a + b)[1..] == a[1..] + b;
    }
  }

  lemma {:induction false} WalkUps(dir: Path, n: nat)
    requires n <= |dir|
    ensures Walk(dir, Ups(n)) == dir[..|dir| - n]
  {
    if n == 0 {
      assert dir[..|dir|] == dir;
    } else {
      WalkUps(Parent(dir), n - 1);
      assert Ups(n)[1..] == Ups(n - 1);
    }
  }

  lemma {:induction false} WalkNames(dir: Path, names: Path)
    requires IsPath(names)
    ensures Walk(dir, names) == dir + names
    decreases names
  {
    if names == [] {
      assert dir + names == dir;
    } else {
      WalkNames(dir + [names[0]], names[1..]);
      assert dir + [names[0]] + names[1..] == dir + names;
    }
  }

  /** `path.resolve(start, path.relative(start, target))` is `target`. */
  lemma ResolveRelative(start: Path, target: Path)
    requires IsPath(target)
    ensures Resolve(start, Join(Relative(start, target))) == target
  {
    var common := CommonLength(start, target);
    WalkRelative(start, target);
    NoSlashes(start, target);
    ResolveJoined(start, Relative(start, target));
  }

  lemma WalkRelative(start: Path, target: Path)
    requires IsPath(target)
    ensures Walk(start, Relative(start, target)) == target
  {
    var common := CommonLength(start, target);
    WalkAppend(start, Ups(|start| - common), target[common..]);
    WalkUps(start, |start| - common);
    WalkNames(start[..common], target[common..]);
    assert start[..common] + target[common..] == target;
  }

  lemma NoSlashes(start: Path, target: Path)
    requires IsPath(target)
    ensures forall i | 0 <= i < |Relative(start, target)| :: '/' !in Relative(start, target)[i]
  {
    var common := CommonLength(start, target);
    forall i | 0 <= i < |Relative(start, target)| ensures '/' !in Relative(start, target)[i] {
      if i >= |start| - common {
        assert Relative(start, target)[i] == target[i - (|start| - common) + common];
      }
    }
  }

  /** Resolving the joined text of segments walks the segments. */
  lemma ResolveJoined(dir: Path, segs: seq<string>)
    requires forall i | 0 <= i < |segs| :: '/' !in segs[i]
    ensures Resolve(dir, Join(segs)) == Walk(dir, segs)
  {
    if segs == [] {
      assert Split("") == [""];
      assert [""][1..] == [];
      assert Walk(dir, [""]) == Walk(dir, []);
    } else {
      SplitJoin(segs);
    }
  }

  /** Below `start`, the relative path is the remaining segments and joining it elsewhere appends them. */
  lemma RelativeBelow(start: Path, target: Path, elsewhere: Path)
    requires IsPath(target)
    requires start <= target
    ensures Relative(start, target) == target[|start|..]
    ensures Resolve(elsewhere, Join(Relative(start, target))) == elsewhere + target[|start|..]
  {
    CommonLengthUnique(start, target, |start|);
    var rel := target[|start|..];
    assert Relative(start, target) == Ups(0) + rel == rel;
    NoSlashes(start, target);
    ResolveJoined(elsewhere, rel);
    WalkNames(elsewhere, rel);
  }
}
