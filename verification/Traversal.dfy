/**
 The bounded breadth-first walk the graph-shaped tools share: level by level, each level in
 sorted order, cut by a node cap and a depth clamp. `out` lists a node's edges in the order
 they are followed, `far` says where an edge leads.
 */
module Traversal {
  import opened Ordering

  // ----- the walk without a node cap -----

  /** Appends what is not there yet, in order. */
  function Add<N(==)>(known: seq<N>, found: seq<N>): seq<N> {
    if found == [] then known
    else
      var before, last := Add(known, found[..|found| - 1]), found[|found| - 1];
      if last in before then before else before + [last]
  }

  function Far<N, E>(far: E -> N, es: seq<E>): (ns: seq<N>)
    ensures |ns| == |es| && forall i :: 0 <= i < |es| ==> ns[i] == far(es[i])
  {
    seq(|es|, i requires 0 <= i < |es| => far(es[i]))
  }

  function EdgesOf<N, E>(out: N -> seq<E>, currents: seq<N>): seq<E> {
    if currents == [] then []
    else EdgesOf(out, currents[..|currents| - 1]) + out(currents[|currents| - 1])
  }

  /** The edges followed so far, in order, and the nodes the last level added. */
  datatype Progress<N, E> = Progress(trace: seq<E>, level: seq<N>)

  function Nodes<N(==), E>(far: E -> N, root: N, trace: seq<E>): seq<N> {
    Add([root], Far(far, trace))
  }

  function Walk<N(==), E>(out: N -> seq<E>, far: E -> N, le: (N, N) -> bool, root: N, depth: nat): (p: Progress<N, E>)
    ensures |p.level| <= |Nodes(far, root, p.trace)|
    ensures p.level == Nodes(far, root, p.trace)[|Nodes(far, root, p.trace)| - |p.level|..]
  {
    if depth == 0 then Progress([], [root])
    else
      var p := Walk(out, far, le, root, depth - 1);
      var trace := p.trace + EdgesOf(out, Sort(p.level, le));
      NodesGrow(far, root, p.trace, EdgesOf(out, Sort(p.level, le)));
      Progress(trace, Nodes(far, root, trace)[|Nodes(far, root, p.trace)|..])
  }

  lemma {:induction false} AddAppend<N>(known: seq<N>, a: seq<N>, b: seq<N>)
    ensures Add(known, a + b) == Add(Add(known, a), b)
  {
    if b == [] {
      assert a + b == a;
    } else {
      assert (a + b)[..|a + b| - 1] == a + b[..|b| - 1];
      AddAppend(known, a, b[..|b| - 1]);
    }
  }

  lemma {:induction false} AddExtends<N>(known: seq<N>, found: seq<N>)
    ensures known <= Add(known, found)
    ensures forall n :: n in Add(known, found) <==> n in known || n in found
    ensures Distinct(known) ==> Distinct(Add(known, found))
  {
    if found != [] {
      AddExtends(known, found[..|found| - 1]);
      assert found == found[..|found| - 1] + [found[|found| - 1]];
    }
  }

  lemma NodesGrow<N, E>(far: E -> N, root: N, trace: seq<E>, more: seq<E>)
    ensures Nodes(far, root, trace + more) == Add(Nodes(far, root, trace), Far(far, more))
    ensures Nodes(far, root, trace) <= Nodes(far, root, trace + more)
  {
    assert Far(far, trace + more) == Far(far, trace) + Far(far, more);
    AddAppend([root], Far(far, trace), Far(far, more));
    AddExtends(Nodes(far, root, trace), Far(far, more));
  }

  // ----- distances -----

  ghost predicate Links<N, E>(out: N -> seq<E>, far: E -> N, m: N, n: N) {
    n in Far(far, out(m))
  }

  ghost predicate Path<N, E>(out: N -> seq<E>, far: E -> N, p: seq<N>, a: N, b: N) {
    && |p| > 0 && p[0] == a && p[|p| - 1] == b
    && forall i {:trigger p[i]} :: 0 <= i < |p| - 1 ==> Links(out, far, p[i], p[i + 1])
  }

  /** Some path of at most `k` edges leads there. */
  ghost predicate Within<N(!new), E>(out: N -> seq<E>, far: E -> N, root: N, n: N, k: nat) {
    exists p :: Path(out, far, p, root, n) && |p| <= k + 1
  }

  ghost predicate Reached<N(!new), E>(out: N -> seq<E>, far: E -> N, root: N, n: N) {
    exists p :: Path(out, far, p, root, n)
  }

  lemma WithinExtends<N(!new), E>(out: N -> seq<E>, far: E -> N, root: N, m: N, n: N, k: nat)
    requires Within(out, far, root, m, k) && Links(out, far, m, n)
    ensures Within(out, far, root, n, k + 1)
  {
    var p :| Path(out, far, p, root, m) && |p| <= k + 1;
    assert Path(out, far, p + [n], root, n);
  }

  lemma WithinSplits<N(!new), E>(out: N -> seq<E>, far: E -> N, root: N, n: N, k: nat) returns (m: N)
    requires Within(out, far, root, n, k + 1)
    ensures Within(out, far, root, n, k) || (Within(out, far, root, m, k) && Links(out, far, m, n))
  {
    var p :| Path(out, far, p, root, n) && |p| <= k + 2;
    m := root;
    if |p| == k + 2 {
      m := p[|p| - 2];
      assert Path(out, far, p[..|p| - 1], root, m);
    }
  }

  lemma WithinGrows<N(!new), E>(out: N -> seq<E>, far: E -> N, root: N, n: N, k: nat)
    requires Within(out, far, root, n, k)
    ensures Within(out, far, root, n, k + 1)
  {
  }

  lemma WithinGrowsTo<N(!new), E>(out: N -> seq<E>, far: E -> N, root: N, n: N, a: nat, b: nat)
    requires Within(out, far, root, n, a) && a <= b
    ensures Within(out, far, root, n, b)
  {
  }

  lemma WithinNext<N(!new), E>(out: N -> seq<E>, far: E -> N, root: N, n: N, k: nat)
    ensures Within(out, far, root, n, k + 1) <==>
            Within(out, far, root, n, k) || exists m :: Within(out, far, root, m, k) && Links(out, far, m, n)
  {
    hide *;
    if Within(out, far, root, n, k + 1) { var _ := WithinSplits(out, far, root, n, k); }
    if Within(out, far, root, n, k) { WithinGrows(out, far, root, n, k); }
    if m :| Within(out, far, root, m, k) && Links(out, far, m, n) { WithinExtends(out, far, root, m, n, k); }
  }

  /** A path from inside a closed list of nodes never leaves it. */
  lemma {:induction false} StaysInside<N(!new), E>(out: N -> seq<E>, far: E -> N, nodes: seq<N>, p: seq<N>, a: N, b: N)
    requires Path(out, far, p, a, b) && a in nodes
    requires forall m, n :: m in nodes && Links(out, far, m, n) ==> n in nodes
    ensures b in nodes
    decreases |p|
  {
    hide Links;
    if |p| > 1 {
      assert Links(out, far, p[|p| - 2], p[|p| - 1]);
      StaysInside(out, far, nodes, p[..|p| - 1], a, p[|p| - 2]);
    }
  }

  ghost predicate FromAny<N, E>(out: N -> seq<E>, ms: seq<N>, e: E) {
    exists m :: m in ms && e in out(m)
  }

  lemma {:induction false} EdgesOfMembers<N, E>(out: N -> seq<E>, currents: seq<N>, e: E)
    ensures e in EdgesOf(out, currents) <==> FromAny(out, currents, e)
  {
    if currents != [] {
      var before, last := currents[..|currents| - 1], currents[|currents| - 1];
      EdgesOfMembers(out, before, e);
      assert currents == before + [last];
    }
  }

  lemma FarMembers<N, E>(far: E -> N, es: seq<E>, n: N)
    ensures n in Far(far, es) <==> exists e :: e in es && far(e) == n
  {
    if n in Far(far, es) {
      var i :| 0 <= i < |es| && Far(far, es)[i] == n;
      assert es[i] in es && far(es[i]) == n;
    }
    if e :| e in es && far(e) == n {
      var i :| 0 <= i < |es| && es[i] == e;
      assert Far(far, es)[i] == n;
    }
  }

  lemma NodeMembers<N, E>(far: E -> N, root: N, trace: seq<E>, n: N)
    ensures n in Nodes(far, root, trace) <==> n == root || exists e :: e in trace && far(e) == n
    ensures Distinct(Nodes(far, root, trace))
  {
    AddExtends([root], Far(far, trace));
    FarMembers(far, trace, n);
  }

  /** The nodes whose edges the walk has followed: all but the last level. */
  function Expanded<N(==), E>(out: N -> seq<E>, far: E -> N, le: (N, N) -> bool, root: N, depth: nat): seq<N> {
    var p := Walk(out, far, le, root, depth);
    var nodes := Nodes(far, root, p.trace);
    nodes[..|nodes| - |p.level|]
  }

  lemma ExpandedAndLevel<N, E>(out: N -> seq<E>, far: E -> N, le: (N, N) -> bool, root: N, depth: nat)
    ensures Expanded(out, far, le, root, depth) + Walk(out, far, le, root, depth).level
            == Nodes(far, root, Walk(out, far, le, root, depth).trace)
  {
    hide Walk, Nodes;
  }

  lemma LevelNext<N, E>(out: N -> seq<E>, far: E -> N, le: (N, N) -> bool, root: N, depth: nat)
    ensures var known := Nodes(far, root, Walk(out, far, le, root, depth).trace);
      var q := Walk(out, far, le, root, depth + 1);
      known <= Nodes(far, root, q.trace) && q.level == Nodes(far, root, q.trace)[|known|..]
  {
    var p := Walk(out, far, le, root, depth);
    var more := EdgesOf(out, Sort(p.level, le));
    NodesGrow(far, root, p.trace, more);
    hide Nodes, EdgesOf, Sort;
  }

  lemma ExpandedNext<N, E>(out: N -> seq<E>, far: E -> N, le: (N, N) -> bool, root: N, depth: nat)
    ensures Expanded(out, far, le, root, depth + 1) == Nodes(far, root, Walk(out, far, le, root, depth).trace)
  {
    LevelNext(out, far, le, root, depth);
    hide Walk, Nodes;
  }

  lemma WalkNext<N, E>(out: N -> seq<E>, far: E -> N, le: (N, N) -> bool, root: N, depth: nat)
    ensures Walk(out, far, le, root, depth + 1).trace ==
            Walk(out, far, le, root, depth).trace + EdgesOf(out, Sort(Walk(out, far, le, root, depth).level, le))
  {
  }

  lemma WalkStart<N, E>(out: N -> seq<E>, far: E -> N, le: (N, N) -> bool, root: N)
    ensures Walk(out, far, le, root, 0) == Progress([], [root])
    ensures Nodes(far, root, []) == [root]
    ensures Expanded(out, far, le, root, 0) == []
    ensures forall e :: !FromAny(out, [], e)
  {
  }

  lemma WithinZero<N(!new), E>(out: N -> seq<E>, far: E -> N, root: N, n: N)
    ensures Within(out, far, root, n, 0) <==> n == root
  {
    assert Path(out, far, [root], root, root);
  }

  lemma FromEither<N, E>(out: N -> seq<E>, a: seq<N>, b: seq<N>, c: seq<N>, e: E)
    requires forall n :: n in c <==> n in b
    ensures FromAny(out, a + b, e) <==> FromAny(out, a, e) || FromAny(out, c, e)
  {
  }

  /** The edges followed are exactly those of the expanded nodes. */
  lemma {:induction false} TraceIsExpanded<N, E>(out: N -> seq<E>, far: E -> N, le: (N, N) -> bool, root: N, depth: nat,
                                                 e: E)
    ensures e in Walk(out, far, le, root, depth).trace <==> FromAny(out, Expanded(out, far, le, root, depth), e)
    decreases depth
  {
    hide Walk, Expanded, Nodes, Sort, EdgesOf, FromAny;
    if depth == 0 {
      WalkStart(out, far, le, root);
    } else {
      var p := Walk(out, far, le, root, depth - 1);
      TraceIsExpanded(out, far, le, root, depth - 1, e);
      ExpandedNext(out, far, le, root, depth - 1);
      ExpandedAndLevel(out, far, le, root, depth - 1);
      WalkNext(out, far, le, root, depth - 1);
      EdgesOfMembers(out, Sort(p.level, le), e);
      SortPermutes(p.level, le);
      FromEither(out, Expanded(out, far, le, root, depth - 1), p.level, Sort(p.level, le), e);
    }
  }

  /** A node is new to a level exactly when it is linked from the level before and not known yet. */
  lemma NodesNext<N(!new), E>(out: N -> seq<E>, far: E -> N, le: (N, N) -> bool, root: N, depth: nat, n: N)
    ensures var known := Nodes(far, root, Walk(out, far, le, root, depth).trace);
      n in Nodes(far, root, Walk(out, far, le, root, depth + 1).trace) <==>
        n in known || exists m :: m in known && Links(out, far, m, n)
  {
    hide Walk, Expanded, Sort, EdgesOf, Nodes, Far;
    var trace, next := Walk(out, far, le, root, depth).trace, Walk(out, far, le, root, depth + 1).trace;
    var known := Nodes(far, root, trace);
    NodeMembers(far, root, trace, n);
    NodeMembers(far, root, next, n);
    ExpandedNext(out, far, le, root, depth);
    WalkNext(out, far, le, root, depth);
    if e :| e in next && far(e) == n {
      TraceIsExpanded(out, far, le, root, depth + 1, e);
      var m :| m in known && e in out(m);
      FarMembers(far, out(m), n);
      assert Links(out, far, m, n);
    }
    if m :| m in known && Links(out, far, m, n) {
      FarMembers(far, out(m), n);
      var e :| e in out(m) && far(e) == n;
      TraceIsExpanded(out, far, le, root, depth + 1, e);
      assert FromAny(out, known, e);
    }
  }

  /** After `depth` levels the walk has exactly the nodes within that distance. */
  lemma {:induction false} WalkIsBall<N(!new), E>(out: N -> seq<E>, far: E -> N, le: (N, N) -> bool, root: N,
                                                  depth: nat, n: N)
    ensures n in Nodes(far, root, Walk(out, far, le, root, depth).trace) <==> Within(out, far, root, n, depth)
    decreases depth
  {
    hide *;
    if depth == 0 {
      WalkStart(out, far, le, root);
      WithinZero(out, far, root, n);
    } else {
      var known := Nodes(far, root, Walk(out, far, le, root, depth - 1).trace);
      NodesNext(out, far, le, root, depth - 1, n);
      WithinNext(out, far, root, n, depth - 1);
      forall m ensures m in known <==> Within(out, far, root, m, depth - 1) {
        WalkIsBall(out, far, le, root, depth - 1, m);
      }
    }
  }

  lemma InSecondPart<N>(a: seq<N>, b: seq<N>, n: N)
    requires Distinct(a + b)
    ensures n in b <==> n in a + b && n !in a
  {
    if n in b {
      var j :| 0 <= j < |b| && b[j] == n;
      forall i | 0 <= i < |a| ensures a[i] != n { assert (a + b)[i] != (a + b)[|a| + j]; }
    }
  }

  /** The level added last holds the nodes at exactly that distance. */
  lemma LevelIsShell<N(!new), E>(out: N -> seq<E>, far: E -> N, le: (N, N) -> bool, root: N, depth: nat, n: N)
    ensures n in Walk(out, far, le, root, depth).level <==>
            Within(out, far, root, n, depth) && (depth > 0 ==> !Within(out, far, root, n, depth - 1))
  {
    hide Walk, Nodes, Within, Expanded;
    var p := Walk(out, far, le, root, depth);
    WalkIsBall(out, far, le, root, depth, n);
    NodeMembers(far, root, p.trace, n);
    if depth == 0 {
      WalkStart(out, far, le, root);
    } else {
      WalkIsBall(out, far, le, root, depth - 1, n);
      ExpandedNext(out, far, le, root, depth - 1);
      ExpandedAndLevel(out, far, le, root, depth);
      InSecondPart(Expanded(out, far, le, root, depth), p.level, n);
    }
  }
}
