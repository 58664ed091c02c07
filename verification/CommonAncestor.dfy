/** `resolveCommonAncestor`: what the text test on relative paths computes, and exactly when that is
    the longest common prefix. */
module CommonAncestor {
  import opened Common
  import opened Paths

  ghost predicate AllUnder(a: Path, paths: seq<Path>) {
    forall i | 0 <= i < |paths| :: a <= paths[i]
  }

  /** Every path lies under `a`, and no deeper directory has that property. */
  ghost predicate IsLongestCommonPrefix(a: Path, paths: seq<Path>) {
    AllUnder(a, paths) && forall b: Path :: AllUnder(b, paths) ==> b <= a
  }

  /** The failing family: some later path is a proper ancestor of the first, and every other later
      path stays in the same child of it. */
  ghost predicate StopsShort(first: Path, rest: seq<Path>) {
    exists k :: StopsShortAt(first, rest, k)
  }

  ghost predicate StopsShortAt(first: Path, rest: seq<Path>, k: int) {
    && 0 <= k < |first|
    && first[..k] in rest
    && forall i | 0 <= i < |rest| :: rest[i] == first[..k] || first[..k + 1] <= rest[i]
  }

  /** One step of the fold: stop at the common prefix, or one level below it when the candidate is an ancestor. */
  function Narrow(ancestor: Path, candidate: Path): Path {
    var common := CommonLength(ancestor, candidate);
    if common == |candidate| < |ancestor| then ancestor[..common + 1] else ancestor[..common]
  }

  function Fold(ancestor: Path, rest: seq<Path>): Path {
    if rest == [] then ancestor else Narrow(Fold(ancestor, rest[..|rest| - 1]), rest[|rest| - 1])
  }

  method ResolveCommonAncestor(paths: seq<Path>) returns (r: Result<Path>)
    requires forall i | 0 <= i < |paths| :: IsPath(paths[i])
    ensures paths == [] ==> r == Err
    ensures paths != [] ==> r == Ok(Fold(paths[0], paths[1..]))
    ensures paths != [] && !StopsShort(paths[0], paths[1..]) ==> IsLongestCommonPrefix(r.value, paths)
  {
    if paths == [] {
      return Err;
    }
    var rest := paths[1..];
    var ancestor := paths[0];
    for i := 0 to |rest|
      invariant ancestor == Fold(paths[0], rest[..i])
    {
      ancestor := ClimbTowards(ancestor, rest[i]);
      assert rest[..i + 1][..i] == rest[..i];
    }
    assert rest[..|rest|] == rest;
    FoldExact(paths[0], rest);
    assert paths == [paths[0]] + rest;
    return Ok(ancestor);
  }

  /** The inner loop: climb from `start` while the relative path to the candidate starts with `../`. */
  method ClimbTowards(start: Path, candidate: Path) returns (ancestor: Path)
    requires IsPath(candidate)
    ensures ancestor == Narrow(start, candidate)
  {
    ancestor := start;
    ghost var common := CommonLength(start, candidate);
    ClimbTest(ancestor, candidate);
    while StartsWith(Join(Relative(ancestor, candidate)), "../")
      invariant common <= |ancestor| <= |start| && ancestor == start[..|ancestor|]
      invariant CommonLength(ancestor, candidate) == common
      invariant common == |candidate| < |start| ==> common < |ancestor|
      invariant StartsWith(Join(Relative(ancestor, candidate)), "../")
                <==> |ancestor| - common + |candidate| - common >= 2 && common < |ancestor|
      decreases |ancestor|
    {
      var parent := Parent(ancestor);
      if parent == ancestor {
        assert false;  // the root is a prefix of every path, so the loop has ended before it
      }
      ancestor := parent;
      CommonLengthUnique(ancestor, candidate, common);
      ClimbTest(ancestor, candidate);
    }
  }

  /** What holds of the ancestor after the paths `done`: each of them lies under it or is its parent, and
      if it is not the whole first path then some path leaves the first one right there or is its parent. */
  ghost predicate FoldState(first: Path, done: seq<Path>, a: Path) {
    && a <= first
    && (forall i | 0 <= i < |done| :: a <= done[i] || IsParentOf(done[i], a))
    && (|a| < |first| ==> exists i | 0 <= i < |done| :: Leaves(first, done[i], |a|) || IsParentOf(done[i], a))
  }

  ghost predicate IsParentOf(p: Path, a: Path) {
    a != [] && p == Parent(a)
  }

  ghost predicate Leaves(first: Path, p: Path, k: nat) {
    k < |first| && k < |p| && first[..k] == p[..k] && first[k] != p[k]
  }

  lemma {:induction false} FoldKeepsState(first: Path, rest: seq<Path>)
    ensures FoldState(first, rest, Fold(first, rest))
  {
    if rest != [] {
      var init, c := rest[..|rest| - 1], rest[|rest| - 1];
      FoldKeepsState(first, init);
      assert rest == init + [c];
      NarrowKeepsState(first, init, c, Fold(first, init));
    }
  }

  lemma NarrowStays(a: Path, c: Path)
    ensures Narrow(a, c) <= a && (Narrow(a, c) <= c || IsParentOf(c, Narrow(a, c)))
  {
    var common := CommonLength(a, c);
    assert a[..common] == c[..common];
    if common == |c| < |a| {
      assert Parent(a[..common + 1]) == a[..common] == c;
    }
  }

  lemma StaysUnder(a: Path, a': Path, p: Path)
    requires a' <= a && (a <= p || IsParentOf(p, a))
    ensures a' <= p || IsParentOf(p, a')
  {
    if a' != a && IsParentOf(p, a) {
      assert a' == a[..|a'|] == p[..|a'|];
    }
  }

  lemma NarrowKeepsState(first: Path, init: seq<Path>, c: Path, a: Path)
    requires FoldState(first, init, a)
    ensures FoldState(first, init + [c], Narrow(a, c))
  {
    var rest, a' := init + [c], Narrow(a, c);
    NarrowStays(a, c);
    forall i | 0 <= i < |rest| ensures a' <= rest[i] || IsParentOf(rest[i], a') {
      if i < |init| {
        StaysUnder(a, a', init[i]);
      }
    }
    if |a'| < |first| {
      if a' == a {
        var i :| 0 <= i < |init| && (Leaves(first, init[i], |a|) || IsParentOf(init[i], a));
        assert rest[i] == init[i];
      } else {
        assert Leaves(first, rest[|init|], |a'|) || IsParentOf(rest[|init|], a');
      }
    }
  }

  /** The result is the longest common prefix of all inputs if and only if the inputs are not in the failing family. */
  lemma FoldExact(first: Path, rest: seq<Path>)
    ensures IsLongestCommonPrefix(Fold(first, rest), [first] + rest) <==> !StopsShort(first, rest)
  {
    FoldKeepsState(first, rest);
    var a := Fold(first, rest);
    if StopsShort(first, rest) {
      var k :| StopsShortAt(first, rest, k);
      StopsShortTooDeep(first, rest, k, a);
    } else {
      OtherwiseAllUnder(first, rest, a);
      forall b: Path | AllUnder(b, [first] + rest) ensures b <= a {
        NothingDeeper(first, rest, a, b);
      }
    }
  }

  lemma OtherwiseAllUnder(first: Path, rest: seq<Path>, a: Path)
    requires FoldState(first, rest, a) && !StopsShort(first, rest)
    ensures AllUnder(a, [first] + rest)
  {
    var k := |a| - 1;
    assert !StopsShortAt(first, rest, k);
    assert a != [] ==> first[..k] == Parent(a) && first[..k + 1] == a;
    assert forall i | 0 <= i < |rest| :: a <= rest[i];
  }

  lemma UnderEach(first: Path, rest: seq<Path>, a: Path)
    requires AllUnder(a, [first] + rest)
    ensures a <= first && forall i | 0 <= i < |rest| :: a <= rest[i]
  {
    var all := [first] + rest;
    assert a <= all[0];
    forall i | 0 <= i < |rest| ensures a <= rest[i] {
      assert a <= all[i + 1];
    }
  }

  lemma NothingDeeper(first: Path, rest: seq<Path>, a: Path, b: Path)
    requires FoldState(first, rest, a) && AllUnder(a, [first] + rest) && AllUnder(b, [first] + rest)
    ensures b <= a
  {
    UnderEach(first, rest, a);
    UnderEach(first, rest, b);
    if |a| < |first| {
      var i :| 0 <= i < |rest| && (Leaves(first, rest[i], |a|) || IsParentOf(rest[i], a));
      LeavesStops(first, rest[i], |a|, b);
    }
    PrefixesOfOne(a, b, first);
  }

  lemma LeavesStops(first: Path, p: Path, k: nat, b: Path)
    requires Leaves(first, p, k) && b <= first && b <= p
    ensures |b| <= k
  {
    assert forall n | 0 <= n < |b| :: b[n] == first[n];
    assert forall n | 0 <= n < |b| :: b[n] == p[n];
  }

  lemma PrefixesOfOne(a: Path, b: Path, first: Path)
    requires a <= first && b <= first
    ensures |b| <= |a| ==> b <= a
  {
    assert b == first[..|b|] && a == first[..|a|];
  }

  /** In the failing family the result is one level too deep: the input that is an ancestor does not lie under it. */
  lemma StopsShortTooDeep(first: Path, rest: seq<Path>, k: nat, a: Path)
    requires FoldState(first, rest, a) && StopsShortAt(first, rest, k)
    ensures a == first[..k + 1]
    ensures !IsLongestCommonPrefix(a, [first] + rest)
  {
    forall i | 0 <= i < |rest| && |a| <= k
      ensures !Leaves(first, rest[i], |a|) && !IsParentOf(rest[i], a)
    {
      assert rest[i] == first[..k] || first[..k + 1] <= rest[i];
    }
    var j :| 0 <= j < |rest| && rest[j] == first[..k];
    assert ([first] + rest)[j + 1] == rest[j];
  }

  /** When no later path is a proper ancestor of the first, the result is the longest common prefix. */
  lemma NoAncestorIsExact(first: Path, rest: seq<Path>)
    requires forall i | 0 <= i < |rest| :: rest[i] <= first ==> rest[i] == first
    ensures IsLongestCommonPrefix(Fold(first, rest), [first] + rest)
  {
    FoldExact(first, rest);
    forall k | 0 <= k < |first| ensures first[..k] !in rest {
      forall i | 0 <= i < |rest| ensures rest[i] != first[..k] {
        assert first[..k] <= first;
      }
    }
  }

  /** `/a/b` followed by its parent `/a`: the answer `/a/b` is not above the second input. */
  lemma ParentAfterChild()
    ensures Fold(["a", "b"], [["a"]]) == ["a", "b"]
    ensures !IsLongestCommonPrefix(["a", "b"], [["a", "b"], ["a"]])
  {
    var first: Path, rest: seq<Path> := ["a", "b"], [["a"]];
    CommonLengthUnique(first, ["a"], 1);
    assert rest[..0] == [];
    assert Fold(first, rest) == Narrow(Fold(first, []), ["a"]);
    assert [["a", "b"], ["a"]][1] == ["a"];
  }
}
