/** Walks, reachability and strongly connected components of a finite digraph. */
module Digraph {

  type Edges<T(==)> = set<(T, T)>

  ghost predicate IsWalk<T>(edges: Edges<T>, p: seq<T>) {
    |p| > 0 && forall i :: 0 <= i < |p| - 1 ==> (p[i], p[i + 1]) in edges
  }

  ghost predicate WalkFromTo<T>(edges: Edges<T>, p: seq<T>, a: T, b: T) {
    IsWalk(edges, p) && p[0] == a && p[|p| - 1] == b
  }

  ghost predicate Reaches<T(!new)>(edges: Edges<T>, a: T, b: T) {
    exists p :: WalkFromTo(edges, p, a, b)
  }

  lemma ReachesSelf<T(!new)>(edges: Edges<T>, a: T)
    ensures Reaches(edges, a, a)
  {
    assert WalkFromTo(edges, [a], a, a);
  }

  lemma ReachesByEdge<T(!new)>(edges: Edges<T>, a: T, b: T)
    requires (a, b) in edges
    ensures Reaches(edges, a, b)
  {
    assert WalkFromTo(edges, [a, b], a, b);
  }

  lemma ReachesTrans<T(!new)>(edges: Edges<T>, a: T, b: T, c: T)
    requires Reaches(edges, a, b) && Reaches(edges, b, c)
    ensures Reaches(edges, a, c)
  {
    var p :| WalkFromTo(edges, p, a, b);
    var q :| WalkFromTo(edges, q, b, c);
    var r := p + q[1..];
    forall i | 0 <= i < |r| - 1 ensures (r[i], r[i + 1]) in edges {
      if i >= |p| - 1 {
        assert r[i] == q[i - (|p| - 1)];
        assert r[i + 1] == q[i + 1 - (|p| - 1)];
      }
    }
    assert WalkFromTo(edges, r, a, c);
  }

  ghost predicate Closed<T(!new)>(edges: Edges<T>, s: set<T>) {
    forall e :: e in edges && e.0 in s ==> e.1 in s
  }

  /** No walk leaves a set that edges do not leave. */
  lemma ClosedContainsReach<T(!new)>(edges: Edges<T>, s: set<T>, a: T, b: T)
    requires Closed(edges, s) && a in s && Reaches(edges, a, b)
    ensures b in s
  {
    var p :| WalkFromTo(edges, p, a, b);
    WalkStaysInside(edges, s, p);
  }

  lemma {:induction false} WalkStaysInside<T(!new)>(edges: Edges<T>, s: set<T>, p: seq<T>)
    requires Closed(edges, s) && IsWalk(edges, p) && p[0] in s
    ensures p[|p| - 1] in s
  {
    if |p| > 1 {
      var q := p[..|p| - 1];
      assert IsWalk(edges, q);
      WalkStaysInside(edges, s, q);
      assert (p[|p| - 2], p[|p| - 1]) in edges;
    }
  }

  ghost predicate Mutual<T(!new)>(edges: Edges<T>, a: T, b: T) {
    Reaches(edges, a, b) && Reaches(edges, b, a)
  }

  /** The strongly connected component of `v`. */
  ghost function Component<T(!new)>(nodes: set<T>, edges: Edges<T>, v: T): set<T> {
    set w | w in nodes && Mutual(edges, v, w)
  }

  /** Two components that share a node are the same component. */
  lemma ComponentShared<T(!new)>(nodes: set<T>, edges: Edges<T>, a: T, b: T)
    requires Mutual(edges, a, b)
    ensures Component(nodes, edges, a) == Component(nodes, edges, b)
  {
    forall w | w in nodes ensures Mutual(edges, a, w) <==> Mutual(edges, b, w) {
      if Mutual(edges, a, w) { ReachesTrans(edges, b, a, w); ReachesTrans(edges, w, a, b); }
      if Mutual(edges, b, w) { ReachesTrans(edges, a, b, w); ReachesTrans(edges, w, b, a); }
    }
  }
}
