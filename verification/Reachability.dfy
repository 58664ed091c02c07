/** Reachability along a relation, and its image under a map that carries edges to edges. */
module Reachability {

  ghost predicate Hop<T>(edge: (T, T) -> bool, trail: seq<T>, i: nat)
    requires i + 1 < |trail|
  {
    edge(trail[i], trail[i + 1])
  }

  ghost predicate IsTrail<T>(edge: (T, T) -> bool, trail: seq<T>) {
    trail != [] && forall i | 0 <= i < |trail| - 1 :: Hop(edge, trail, i)
  }

  ghost predicate TrailBetween<T>(edge: (T, T) -> bool, entry: T, p: T, trail: seq<T>) {
    IsTrail(edge, trail) && trail[0] == entry && trail[|trail| - 1] == p
  }

  ghost predicate Reachable<T(!new)>(edge: (T, T) -> bool, entry: T, p: T) {
    exists trail :: TrailBetween(edge, entry, p, trail)
  }

  lemma ReachableSelf<T(!new)>(edge: (T, T) -> bool, entry: T)
    ensures Reachable(edge, entry, entry)
  {
    assert TrailBetween(edge, entry, entry, [entry]);
  }

  lemma ReachableStep<T(!new)>(edge: (T, T) -> bool, entry: T, f: T, g: T)
    requires Reachable(edge, entry, f) && edge(f, g)
    ensures Reachable(edge, entry, g)
  {
    var trail :| TrailBetween(edge, entry, f, trail);
    var longer := trail + [g];
    forall i | 0 <= i < |longer| - 1 ensures Hop(edge, longer, i) {
      assert i < |trail| - 1 ==> Hop(edge, trail, i);
    }
    assert TrailBetween(edge, entry, g, longer);
  }

  lemma ShorterTrail<T(!new)>(edge: (T, T) -> bool, trail: seq<T>)
    requires |trail| > 1 && IsTrail(edge, trail)
    ensures IsTrail(edge, trail[..|trail| - 1])
    ensures edge(trail[|trail| - 2], trail[|trail| - 1])
  {
    var init := trail[..|trail| - 1];
    forall i | 0 <= i < |init| - 1 ensures Hop(edge, init, i) {
      assert Hop(edge, trail, i);
    }
    assert Hop(edge, trail, |trail| - 2);
  }

  /** `nodes` holds the entry and every successor of its members. */
  ghost predicate Closed<T(!new)>(edge: (T, T) -> bool, entry: T, nodes: set<T>) {
    entry in nodes && forall f, g | f in nodes && edge(f, g) :: g in nodes
  }

  /** A closed set holds every reachable node. */
  lemma ReachableInClosed<T(!new)>(edge: (T, T) -> bool, entry: T, nodes: set<T>, p: T)
    requires Closed(edge, entry, nodes) && Reachable(edge, entry, p)
    ensures p in nodes
  {
    var trail :| TrailBetween(edge, entry, p, trail);
    TrailInClosed(edge, entry, nodes, trail);
  }

  lemma {:induction false} TrailInClosed<T(!new)>(edge: (T, T) -> bool, entry: T, nodes: set<T>, trail: seq<T>)
    requires Closed(edge, entry, nodes) && IsTrail(edge, trail) && trail[0] == entry
    ensures trail[|trail| - 1] in nodes
  {
    if |trail| > 1 {
      ShorterTrail(edge, trail);
      TrailInClosed(edge, entry, nodes, trail[..|trail| - 1]);
    }
  }

  ghost function Image<T>(map1: T -> T, nodes: set<T>): set<T> {
    set f | f in nodes :: map1(f)
  }

  /** On a closed set of nodes, `map1` carries the edges of `edge` onto those of `edge1`. */
  ghost predicate CarriesEdges<T(!new)>(edge: (T, T) -> bool, edge1: (T, T) -> bool, map1: T -> T, nodes: set<T>) {
    && (forall f, g | f in nodes && edge(f, g) :: edge1(map1(f), map1(g)))
    && (forall f, q | f in nodes && edge1(map1(f), q) :: q in Image(map1, nodes))
  }

  /** If `nodes` is exactly what `entry` reaches, its image is exactly what the image of `entry` reaches. */
  lemma ImageOfReachable<T(!new)>(edge: (T, T) -> bool, edge1: (T, T) -> bool, map1: T -> T, entry: T, nodes: set<T>,
                                  q: T)
    requires forall p :: p in nodes <==> Reachable(edge, entry, p)
    requires CarriesEdges(edge, edge1, map1, nodes)
    ensures Reachable(edge1, map1(entry), q) <==> q in Image(map1, nodes)
  {
    ReachableSelf(edge, entry);
    if Reachable(edge1, map1(entry), q) {
      forall u, v | u in Image(map1, nodes) && edge1(u, v) ensures v in Image(map1, nodes) {
        var f :| f in nodes && map1(f) == u;
      }
      ReachableInClosed(edge1, map1(entry), Image(map1, nodes), q);
    }
    if q in Image(map1, nodes) {
      var f :| f in nodes && map1(f) == q;
      var trail :| TrailBetween(edge, entry, f, trail);
      ImageTrail(edge, edge1, map1, entry, nodes, trail);
    }
  }

  lemma {:induction false} ImageTrail<T(!new)>(
      edge: (T, T) -> bool, edge1: (T, T) -> bool, map1: T -> T, entry: T, nodes: set<T>, trail: seq<T>)
    requires forall p :: p in nodes <==> Reachable(edge, entry, p)
    requires CarriesEdges(edge, edge1, map1, nodes)
    requires IsTrail(edge, trail) && trail[0] == entry
    ensures Reachable(edge1, map1(entry), map1(trail[|trail| - 1]))
  {
    if |trail| == 1 {
      ReachableSelf(edge1, map1(entry));
    } else {
      ShorterTrail(edge, trail);
      var init := trail[..|trail| - 1];
      ImageTrail(edge, edge1, map1, entry, nodes, init);
      assert TrailBetween(edge, entry, trail[|trail| - 2], init);
      ReachableStep(edge1, map1(entry), map1(trail[|trail| - 2]), map1(trail[|trail| - 1]));
    }
  }
}
