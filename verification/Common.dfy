/** Result types shared by the other modules. */
module Common {

  datatype Option<+T> = None | Some(value: T) {
    function GetOr(default: T): T {
      if Some? then value else default
    }
  }

  /** `Err` stands for a thrown exception. */
  datatype Result<+T> = Ok(value: T) | Err

  /** How a file write ends: done, interrupted so that the file no longer parses, or refused so that it is as before. */
  datatype WriteOutcome = Whole | Torn | Refused

  ghost predicate Distinct<T>(xs: seq<T>) {
    forall i, j | 0 <= i < j < |xs| :: xs[i] != xs[j]
  }

  predicate StartsWith(text: string, prefix: string) {
    prefix <= text
  }

  function Min(a: int, b: int): int {
    if a < b then a else b
  }

  function Max(a: int, b: int): int {
    if a > b then a else b
  }

  /** How many of the numbers below `n` satisfy `ok` before the first one that does not. */
  ghost function Leading(n: nat, ok: nat -> bool): (p: nat)
    ensures p <= n && (forall b: nat | b < p :: ok(b)) && (p < n ==> !ok(p))
  {
    if n == 0 then 0 else
      var p := Leading(n - 1, ok);
      if p == n - 1 && ok(n - 1) then n else p
  }

  lemma Associate<T>(a: seq<T>, b: seq<T>, c: seq<T>)
    ensures a + (b + c) == a + b + c
  {
  }

  function FilterMap<S, T>(xs: seq<S>, keep: S -> bool, f: S -> T): seq<T> {
    if xs == [] then [] else
      var last := xs[|xs| - 1];
      FilterMap(xs[..|xs| - 1], keep, f) + if keep(last) then [f(last)] else []
  }

  lemma {:induction false} FilterMapLength<S, T>(xs: seq<S>, keep: S -> bool, f: S -> T)
    ensures |FilterMap(xs, keep, f)| <= |xs|
  {
    if xs != [] {
      FilterMapLength(xs[..|xs| - 1], keep, f);
    }
  }

  lemma {:induction false} FilterMapIff<S, T>(xs: seq<S>, keep: S -> bool, f: S -> T, y: T)
    ensures y in FilterMap(xs, keep, f) <==> exists i :: 0 <= i < |xs| && keep(xs[i]) && f(xs[i]) == y
  {
    if xs != [] {
      var n := |xs| - 1;
      FilterMapIff(xs[..n], keep, f, y);
      assert forall i | 0 <= i < n :: xs[..n][i] == xs[i];
    }
  }

  /** The results of `f` that exist, in order. */
  function Collect<S, T>(xs: seq<S>, f: S -> Option<T>): seq<T> {
    if xs == [] then [] else
      var last := f(xs[|xs| - 1]);
      Collect(xs[..|xs| - 1], f) + if last.Some? then [last.value] else []
  }

  lemma {:induction false} CollectAll<S, T>(xs: seq<S>, f: S -> Option<T>, ys: seq<T>)
    requires |xs| == |ys| && forall i | 0 <= i < |xs| :: f(xs[i]) == Some(ys[i])
    ensures Collect(xs, f) == ys
  {
    if xs != [] {
      var n := |xs| - 1;
      CollectAll(xs[..n], f, ys[..n]);
      assert ys == ys[..n] + [ys[n]];
    }
  }

  lemma {:induction false} CollectConcat<S, T>(xs: seq<S>, ys: seq<S>, f: S -> Option<T>)
    ensures Collect(xs + ys, f) == Collect(xs, f) + Collect(ys, f)
  {
    if ys == [] {
      assert xs + ys == xs;
    } else {
      CollectConcat(xs, ys[..|ys| - 1], f);
      assert (xs + ys)[..|xs + ys| - 1] == xs + ys[..|ys| - 1];
    }
  }

  lemma CollectOne<S, T>(x: S, f: S -> Option<T>)
    ensures Collect([x], f) == if f(x).Some? then [f(x).value] else []
  {
    assert [x][..0] == [];
  }

  /** Every collected result comes from some element. */
  lemma {:induction false} CollectFrom<S, T>(xs: seq<S>, f: S -> Option<T>, j: nat)
    requires j < |Collect(xs, f)|
    ensures exists i :: 0 <= i < |xs| && f(xs[i]) == Some(Collect(xs, f)[j])
  {
    var n := |xs| - 1;
    if j < |Collect(xs[..n], f)| {
      CollectFrom(xs[..n], f, j);
      var i :| 0 <= i < n && f(xs[..n][i]) == Some(Collect(xs[..n], f)[j]);
      assert xs[i] == xs[..n][i];
    }
  }

  lemma {:induction false} CollectIff<S, T>(xs: seq<S>, f: S -> Option<T>, y: T)
    ensures y in Collect(xs, f) <==> exists i :: 0 <= i < |xs| && f(xs[i]) == Some(y)
  {
    if xs != [] {
      var n := |xs| - 1;
      CollectIff(xs[..n], f, y);
      assert forall i | 0 <= i < n :: xs[..n][i] == xs[i];
    }
  }

  /** Two collections over related partial functions are related element by element. */
  lemma {:induction false} CollectRelated<S(!new), T>(
      xs: seq<S>, f: S -> Option<T>, g: S -> Option<T>, same: (T, T) -> bool)
    requires forall x :: f(x).Some? == g(x).Some? && (f(x).Some? ==> same(f(x).value, g(x).value))
    ensures |Collect(xs, f)| == |Collect(xs, g)|
    ensures forall i | 0 <= i < |Collect(xs, f)| :: same(Collect(xs, f)[i], Collect(xs, g)[i])
  {
    if xs != [] {
      CollectRelated(xs[..|xs| - 1], f, g, same);
      var last := xs[|xs| - 1];
      assert f(last).Some? == g(last).Some?;
    }
  }

  lemma {:induction false} FilterMapConcat<S, T>(xs: seq<S>, ys: seq<S>, keep: S -> bool, f: S -> T)
    ensures FilterMap(xs + ys, keep, f) == FilterMap(xs, keep, f) + FilterMap(ys, keep, f)
  {
    if ys == [] {
      assert xs + ys == xs;
    } else {
      FilterMapConcat(xs, ys[..|ys| - 1], keep, f);
      assert (xs + ys)[..|xs + ys| - 1] == xs + ys[..|ys| - 1];
    }
  }

  lemma FilterMapSplit<S, T>(left: seq<S>, x: S, right: seq<S>, keep: S -> bool, f: S -> T)
    ensures FilterMap(left + ([x] + right), keep, f) ==
            FilterMap(left, keep, f) + (FilterMap([x], keep, f) + FilterMap(right, keep, f))
  {
    FilterMapConcat([x], right, keep, f);
    FilterMapConcat(left, [x] + right, keep, f);
  }

  lemma FilterMapOne<S, T>(x: S, keep: S -> bool, f: S -> T)
    ensures FilterMap([x], keep, f) == if keep(x) then [f(x)] else []
  {
    assert [x][..0] == [];
  }

  lemma FilterMapDrop<S, T>(left: seq<S>, x: S, right: seq<S>, keep: S -> bool, f: S -> T)
    ensures multiset(FilterMap(left + ([x] + right), keep, f)) ==
            multiset(FilterMap(left + right, keep, f)) + if keep(x) then multiset{f(x)} else multiset{}
  {
    FilterMapSplit(left, x, right, keep, f);
    FilterMapOne(x, keep, f);
    FilterMapConcat(left, right, keep, f);
  }

  lemma ReorderStep<S, T>(x: S, rest: seq<S>, left: seq<S>, right: seq<S>, keep: S -> bool, f: S -> T)
    requires multiset(FilterMap(rest, keep, f)) == multiset(FilterMap(left + right, keep, f))
    ensures multiset(FilterMap([x] + rest, keep, f)) == multiset(FilterMap(left + ([x] + right), keep, f))
  {
    FilterMapConcat([x], rest, keep, f);
    FilterMapOne(x, keep, f);
    FilterMapDrop(left, x, right, keep, f);
  }

  lemma MultisetAround<S>(left: seq<S>, x: S, right: seq<S>)
    ensures multiset(left + ([x] + right)) == multiset(left + right) + multiset{x}
  {
  }

  lemma CancelOne<S>(a: multiset<S>, b: multiset<S>, x: S)
    requires a + multiset{x} == b + multiset{x}
    ensures a == b
  {
    assert a == a + multiset{x} - multiset{x};
    assert b == b + multiset{x} - multiset{x};
  }

  lemma PickOut<S>(x: S, rest: seq<S>, ys: seq<S>) returns (left: seq<S>, right: seq<S>)
    requires multiset([x] + rest) == multiset(ys)
    ensures ys == left + ([x] + right)
    ensures multiset(rest) == multiset(left + right)
  {
    assert multiset([x] + rest) == multiset(rest) + multiset{x};
    assert x in multiset(ys);
    var j :| 0 <= j < |ys| && ys[j] == x;
    left, right := ys[..j], ys[j + 1..];
    assert ys == left + ([x] + right);
    MultisetAround(left, x, right);
    CancelOne(multiset(rest), multiset(left + right), x);
  }

  /** Reordering the input only reorders the output. */
  lemma {:induction false} FilterMapReorder<S, T>(xs: seq<S>, ys: seq<S>, keep: S -> bool, f: S -> T)
    requires multiset(xs) == multiset(ys)
    ensures multiset(FilterMap(xs, keep, f)) == multiset(FilterMap(ys, keep, f))
  {
    if xs == [] {
      assert |multiset(ys)| == 0;
    } else {
      assert xs == [xs[0]] + xs[1..];
      var left, right := PickOut(xs[0], xs[1..], ys);
      FilterMapReorder(xs[1..], left + right, keep, f);
      ReorderStep(xs[0], xs[1..], left, right, keep, f);
    }
  }
}
