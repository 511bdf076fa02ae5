/**
 The invariant that the explicit-stack depth-first search of `_find_cycles` keeps, and the
 lemmas showing that each of its steps keeps it.

 Order on both stacks is order of discovery, so the proof works on sets and indices:
 `active` holds the nodes of the component stack, `path` those of the DFS stack, `seen[u]`
 the neighbours that the iterator of `u` has handed out, and `succ[u]` all its neighbours.
 Every active node climbs back to its owner: the deepest path node discovered no later.

 The lemmas need of reachability only that it is a preorder containing the edges, so they
 speak of any such relation `below`.
 */
module TarjanInvariant {

  datatype View<N(==)> = View(
    indices: map<N, nat>,
    low: map<N, nat>,
    active: set<N>,
    path: set<N>,
    seen: map<N, set<N>>,
    next: nat)

  type Graph<N(==)> = map<N, set<N>>

  /** Every neighbour is itself a node. */
  ghost predicate Total<N(!new)>(succ: Graph<N>) {
    forall u, w :: u in succ && w in succ[u] ==> w in succ
  }

  ghost predicate Chained<N>(below: set<(N, N)>, u: N, v: N, w: N) {
    (u, v) in below && (v, w) in below
  }

  ghost predicate Preorder<N(!new)>(succ: Graph<N>, below: set<(N, N)>) {
    && (forall u, w :: u in succ && w in succ[u] ==> (u, w) in below)
    && (forall u :: u in succ ==> (u, u) in below)
    && (forall u, v, w {:trigger Chained(below, u, v, w)} :: Chained(below, u, v, w) ==> (u, w) in below)
  }

  ghost predicate SameIndex<N>(s: View<N>, x: N, y: N) {
    x in s.indices && y in s.indices && s.indices[x] == s.indices[y]
  }

  ghost predicate Shape<N(!new)>(succ: Graph<N>, s: View<N>) {
    && s.indices.Keys <= succ.Keys
    && s.low.Keys == s.indices.Keys
    && s.seen.Keys == s.indices.Keys
    && s.path <= s.active <= s.indices.Keys
    && (forall x {:trigger s.indices[x]} :: x in s.indices ==> s.indices[x] < s.next)
    && (forall x, y {:trigger SameIndex(s, x, y)} :: SameIndex(s, x, y) ==> x == y)
    && (forall x {:trigger s.seen[x]} :: x in s.indices ==> s.seen[x] <= succ[x])
    && (forall x {:trigger s.seen[x]} :: x in s.indices && x !in s.path ==> s.seen[x] == succ[x])
  }

  /** `f` is the deepest path node discovered no later than the active node `u`. */
  ghost predicate Owned<N(!new)>(succ: Graph<N>, s: View<N>, u: N, f: N)
    requires Shape(succ, s)
  {
    && u in s.active && f in s.path && s.indices[f] <= s.indices[u]
    && forall g {:trigger g in s.path} :: g in s.path && s.indices[g] <= s.indices[u] ==> s.indices[g] <= s.indices[f]
  }

  ghost predicate Rooted<N(!new)>(succ: Graph<N>, s: View<N>, u: N)
    requires Shape(succ, s) && u in s.active
  {
    exists f {:trigger f in s.path} :: f in s.path && s.indices[f] <= s.indices[u]
  }

  ghost predicate AllRooted<N(!new)>(succ: Graph<N>, s: View<N>)
    requires Shape(succ, s)
  {
    forall u {:trigger Rooted(succ, s, u)} :: u in s.active ==> Rooted(succ, s, u)
  }

  /** Discovery order among active nodes is reachability, and each climbs back to its owner. */
  ghost predicate Linked<N(!new)>(succ: Graph<N>, below: set<(N, N)>, s: View<N>)
    requires Shape(succ, s)
  {
    && (forall u, f {:trigger Owned(succ, s, u, f)} :: Owned(succ, s, u, f) ==> (u, f) in below)
    && (forall u, v {:trigger (u, v) in below} ::
          u in s.active && v in s.active && s.indices[u] <= s.indices[v] ==> (u, v) in below)
  }

  ghost predicate LowWitness<N(!new)>(succ: Graph<N>, below: set<(N, N)>, s: View<N>, f: N, x: N)
    requires Shape(succ, s) && f in s.indices
  {
    x in s.active && s.indices[x] == s.low[f] && (f, x) in below
  }

  /** The lowlink of a path node is the index of an active node it reaches. */
  ghost predicate LowReached<N(!new)>(succ: Graph<N>, below: set<(N, N)>, s: View<N>)
    requires Shape(succ, s)
  {
    forall f {:trigger s.low[f]} :: f in s.path ==>
      s.low[f] <= s.indices[f] && exists x :: LowWitness(succ, below, s, f, x)
  }

  /** No active neighbour read so far lies below the lowlink of the reader's owner. */
  ghost predicate LowBounds<N(!new)>(succ: Graph<N>, s: View<N>)
    requires Shape(succ, s)
  {
    forall u, f, x {:trigger Owned(succ, s, u, f), x in s.seen[u]} ::
      Owned(succ, s, u, f) && x in s.active && x in s.seen[u] ==> s.low[f] <= s.indices[x]
  }

  ghost predicate Finished<N>(s: View<N>, u: N) {
    u in s.indices && u !in s.active
  }

  /** Neighbours read are discovered, and finished nodes only lead to finished nodes. */
  ghost predicate Explored<N(!new)>(succ: Graph<N>, s: View<N>)
    requires Shape(succ, s)
  {
    && (forall u {:trigger s.seen[u]} :: u in s.indices ==> s.seen[u] <= s.indices.Keys)
    && (forall u {:trigger Finished(s, u)} :: Finished(s, u) ==> succ[u] <= s.indices.Keys - s.active)
  }

  ghost predicate Inv<N(!new)>(succ: Graph<N>, below: set<(N, N)>, s: View<N>) {
    && Shape(succ, s)
    && AllRooted(succ, s)
    && Linked(succ, below, s)
    && LowReached(succ, below, s)
    && LowBounds(succ, s)
    && Explored(succ, s)
  }

  /** `t` is the top of the DFS stack: the path node discovered last. */
  ghost predicate IsTop<N(!new)>(succ: Graph<N>, s: View<N>, t: N)
    requires Shape(succ, s)
  {
    t in s.path && forall f {:trigger f in s.path} :: f in s.path ==> s.indices[f] <= s.indices[t]
  }

  /** `p` is the DFS stack entry just below the top `t`. */
  ghost predicate IsParent<N(!new)>(succ: Graph<N>, s: View<N>, t: N, p: N)
    requires Shape(succ, s) && t in s.indices
  {
    && p in s.path && s.indices[p] < s.indices[t]
    && forall f {:trigger f in s.path} :: f in s.path && f != t ==> s.indices[f] <= s.indices[p]
  }

  lemma {:induction false} Deepest<N(!new)>(succ: Graph<N>, s: View<N>, among: set<N>) returns (f: N)
    requires Shape(succ, s) && among <= s.path && among != {}
    ensures f in among && forall g {:trigger g in among} :: g in among ==> s.indices[g] <= s.indices[f]
  {
    var x :| x in among;
    if among == {x} {
      f := x;
    } else {
      f := Deepest(succ, s, among - {x});
      if s.indices[f] < s.indices[x] {
        forall g | g in among ensures s.indices[g] <= s.indices[x] {
          if g != x { assert g in among - {x}; }
        }
        f := x;
      } else {
        forall g | g in among ensures s.indices[g] <= s.indices[f] {
          if g != x { assert g in among - {x}; }
        }
      }
    }
  }

  lemma OwnerExists<N(!new)>(succ: Graph<N>, s: View<N>, u: N) returns (f: N)
    requires Shape(succ, s) && u in s.active && Rooted(succ, s, u)
    ensures Owned(succ, s, u, f)
  {
    var among := set g | g in s.path && s.indices[g] <= s.indices[u];
    var g :| g in s.path && s.indices[g] <= s.indices[u];
    assert g in among;
    f := Deepest(succ, s, among);
    forall g | g in s.path && s.indices[g] <= s.indices[u] ensures s.indices[g] <= s.indices[f] {
      assert g in among;
    }
  }

  /** Every active node reaches the top of the DFS stack. */
  lemma ActiveReachesTop<N(!new)>(succ: Graph<N>, below: set<(N, N)>, s: View<N>, t: N, u: N)
    requires Preorder(succ, below) && Shape(succ, s) && AllRooted(succ, s) && Linked(succ, below, s)
    requires IsTop(succ, s, t) && u in s.active
    ensures (u, t) in below
  {
    assert Rooted(succ, s, u);
    var f := OwnerExists(succ, s, u);
    assert Chained(below, u, f, t);
  }

  // ----- discovering a node -----

  ghost function Discover<N(!new)>(s: View<N>, w: N): View<N> {
    View(s.indices[w := s.next], s.low[w := s.next], s.active + {w}, s.path + {w}, s.seen[w := {}], s.next + 1)
  }

  ghost function ReadOne<N(!new)>(s: View<N>, t: N, w: N): View<N>
    requires t in s.seen
  {
    s.(seen := s.seen[t := s.seen[t] + {w}])
  }

  lemma EmptyInv<N(!new)>(succ: Graph<N>, below: set<(N, N)>, s: View<N>)
    requires s == View(map[], map[], {}, {}, map[], 0)
    ensures Inv(succ, below, s)
  {
  }

  lemma DiscoverShape<N(!new)>(succ: Graph<N>, s: View<N>, w: N)
    requires Shape(succ, s) && AllRooted(succ, s) && w in succ && w !in s.indices
    ensures Shape(succ, Discover(s, w)) && AllRooted(succ, Discover(s, w))
  {
    var n := Discover(s, w);
    forall x, y | SameIndex(n, x, y) ensures x == y {
      assert x == w || y == w || SameIndex(s, x, y);
    }
    assert Shape(succ, n);
    forall u | u in n.active ensures Rooted(succ, n, u) {
      if u == w {
        assert w in n.path;
      } else {
        assert Rooted(succ, s, u);
        var f :| f in s.path && s.indices[f] <= s.indices[u];
        assert f in n.path;
      }
    }
  }

  lemma DiscoverOwned<N(!new)>(succ: Graph<N>, s: View<N>, w: N, u: N, f: N)
    requires Shape(succ, s) && w !in s.indices
    requires Shape(succ, Discover(s, w)) && Owned(succ, Discover(s, w), u, f)
    ensures if u == w then f == w else Owned(succ, s, u, f)
  {
    var n := Discover(s, w);
    assert w in n.path;
    if u == w {
      assert SameIndex(n, u, f);
    } else {
      forall g | g in s.path && s.indices[g] <= s.indices[u] ensures s.indices[g] <= s.indices[f] {
        assert g in n.path;
      }
    }
  }

  lemma DiscoverLinked<N(!new)>(succ: Graph<N>, below: set<(N, N)>, s: View<N>, w: N)
    requires Shape(succ, s) && Linked(succ, below, s) && LowReached(succ, below, s)
    requires w !in s.indices && (w, w) in below
    requires forall u {:trigger u in s.active} :: u in s.active ==> (u, w) in below
    requires Shape(succ, Discover(s, w))
    ensures Linked(succ, below, Discover(s, w)) && LowReached(succ, below, Discover(s, w))
  {
    var n := Discover(s, w);
    forall u, f | Owned(succ, n, u, f) ensures (u, f) in below {
      DiscoverOwned(succ, s, w, u, f);
    }
    assert Linked(succ, below, n);
    forall f | f in n.path
      ensures n.low[f] <= n.indices[f] && exists x :: LowWitness(succ, below, n, f, x)
    {
      if f == w {
        assert LowWitness(succ, below, n, w, w);
      } else {
        assert s.low[f] <= s.indices[f];
        var x :| LowWitness(succ, below, s, f, x);
        assert LowWitness(succ, below, n, f, x);
      }
    }
  }

  lemma DiscoverBounds<N(!new)>(succ: Graph<N>, below: set<(N, N)>, s: View<N>, t: N, w: N)
    requires Shape(succ, s) && LowReached(succ, below, s) && LowBounds(succ, s)
    requires t in s.seen && w !in s.indices
    requires Shape(succ, ReadOne(s, t, w)) && Shape(succ, Discover(ReadOne(s, t, w), w))
    ensures LowBounds(succ, Discover(ReadOne(s, t, w), w))
  {
    var r := ReadOne(s, t, w);
    var n := Discover(r, w);
    forall u, f, x | Owned(succ, n, u, f) && x in n.active && x in n.seen[u] ensures n.low[f] <= n.indices[x] {
      DiscoverOwned(succ, r, w, u, f);
      assert u != w;
      assert Owned(succ, s, u, f);
      assert s.low[f] <= s.indices[f] < s.next;
      if x != w { assert x in s.seen[u]; }
    }
  }

  lemma DiscoverExplored<N(!new)>(succ: Graph<N>, s: View<N>, t: N, w: N)
    requires Shape(succ, s) && Explored(succ, s) && t in s.seen && w !in s.indices
    requires Shape(succ, Discover(ReadOne(s, t, w), w))
    ensures Explored(succ, Discover(ReadOne(s, t, w), w))
  {
    var n := Discover(ReadOne(s, t, w), w);
    forall u | u in n.indices ensures n.seen[u] <= n.indices.Keys {
      if u in s.indices { assert s.seen[u] <= s.indices.Keys; }
    }
    forall u | Finished(n, u) ensures succ[u] <= n.indices.Keys - n.active {
      assert Finished(s, u);
    }
  }

  /** Reading touches nothing but `seen`. */
  lemma ReadOneKeeps<N(!new)>(succ: Graph<N>, below: set<(N, N)>, s: View<N>, t: N, w: N)
    requires Shape(succ, s) && AllRooted(succ, s) && Linked(succ, below, s) && LowReached(succ, below, s)
    requires IsTop(succ, s, t) && w in succ[t]
    ensures t in s.seen
    ensures Shape(succ, ReadOne(s, t, w)) && AllRooted(succ, ReadOne(s, t, w))
    ensures Linked(succ, below, ReadOne(s, t, w)) && LowReached(succ, below, ReadOne(s, t, w))
    ensures IsTop(succ, ReadOne(s, t, w), t)
  {
    var n := ReadOne(s, t, w);
    assert forall x, y {:trigger SameIndex(n, x, y)} :: SameIndex(n, x, y) ==> SameIndex(s, x, y);
    assert Shape(succ, n);
    SameStacks(succ, below, s, n);
    forall f | f in n.path
      ensures n.low[f] <= n.indices[f] && exists x :: LowWitness(succ, below, n, f, x)
    {
      assert s.low[f] <= s.indices[f];
      var x :| LowWitness(succ, below, s, f, x);
      assert LowWitness(succ, below, n, f, x);
    }
  }

  /** Ownership depends on the indices and the two stacks only. */
  lemma SameStacks<N(!new)>(succ: Graph<N>, below: set<(N, N)>, s: View<N>, n: View<N>)
    requires Shape(succ, s) && AllRooted(succ, s) && Linked(succ, below, s) && Shape(succ, n)
    requires n.indices == s.indices && n.active == s.active && n.path == s.path
    ensures AllRooted(succ, n) && Linked(succ, below, n)
    ensures forall u, f {:trigger Owned(succ, n, u, f)} :: Owned(succ, n, u, f) ==> Owned(succ, s, u, f)
  {
    forall u | u in n.active ensures Rooted(succ, n, u) { assert Rooted(succ, s, u); }
    forall u, f | Owned(succ, n, u, f) ensures Owned(succ, s, u, f) {
    }
  }

  lemma DiscoverNeighbor<N(!new)>(succ: Graph<N>, below: set<(N, N)>, s: View<N>, t: N, w: N)
    requires Total(succ) && Preorder(succ, below) && Inv(succ, below, s)
    requires IsTop(succ, s, t) && w in succ[t] && w !in s.indices
    ensures t in s.seen && Inv(succ, below, Discover(ReadOne(s, t, w), w))
  {
    var r := ReadOne(s, t, w);
    ReadOneKeeps(succ, below, s, t, w);
    DiscoverShape(succ, r, w);
    forall u | u in r.active ensures (u, w) in below {
      ActiveReachesTop(succ, below, r, t, u);
      assert Chained(below, u, t, w);
    }
    DiscoverLinked(succ, below, r, w);
    DiscoverBounds(succ, below, s, t, w);
    DiscoverExplored(succ, s, t, w);
  }

  lemma DiscoverRootExplored<N(!new)>(succ: Graph<N>, s: View<N>, w: N)
    requires Shape(succ, s) && Explored(succ, s) && s.active == {} && s.path == {} && w !in s.indices
    requires Shape(succ, Discover(s, w))
    ensures LowBounds(succ, Discover(s, w)) && Explored(succ, Discover(s, w))
  {
    var n := Discover(s, w);
    assert LowBounds(succ, n);
    forall u | Finished(n, u) ensures succ[u] <= n.indices.Keys - n.active {
      assert Finished(s, u);
    }
  }

  lemma DiscoverRoot<N(!new)>(succ: Graph<N>, below: set<(N, N)>, s: View<N>, w: N)
    requires Preorder(succ, below) && Inv(succ, below, s)
    requires s.path == {} && w in succ && w !in s.indices
    ensures Inv(succ, below, Discover(s, w))
  {
    EmptyPath(succ, s);
    DiscoverShape(succ, s, w);
    DiscoverLinked(succ, below, s, w);
    DiscoverRootExplored(succ, s, w);
  }

  lemma RootOf<N(!new)>(succ: Graph<N>, s: View<N>, u: N) returns (f: N)
    requires Shape(succ, s) && AllRooted(succ, s) && u in s.active
    ensures f in s.path && s.indices[f] <= s.indices[u]
  {
    assert Rooted(succ, s, u);
    f :| f in s.path && s.indices[f] <= s.indices[u];
  }

  /** When the DFS stack is empty, so is the component stack. */
  lemma EmptyPath<N(!new)>(succ: Graph<N>, s: View<N>)
    requires Shape(succ, s) && AllRooted(succ, s) && s.path == {}
    ensures s.active == {}
  {
    if s.active != {} {
      var u :| u in s.active;
      var f := RootOf(succ, s, u);
    }
  }

  // ----- reading a neighbour that is already discovered -----

  ghost function Lower<N(!new)>(s: View<N>, f: N, bound: nat): View<N>
    requires f in s.low
  {
    s.(low := s.low[f := if bound < s.low[f] then bound else s.low[f]])
  }

  /** Lowering a lowlink to the index of an active node that is reached keeps lowlinks honest. */
  lemma LowerKeeps<N(!new)>(succ: Graph<N>, below: set<(N, N)>, s: View<N>, f: N, x: N)
    requires Shape(succ, s) && AllRooted(succ, s) && Linked(succ, below, s) && LowReached(succ, below, s)
    requires f in s.indices && x in s.active && (f, x) in below
    ensures Shape(succ, Lower(s, f, s.indices[x])) && AllRooted(succ, Lower(s, f, s.indices[x]))
    ensures Linked(succ, below, Lower(s, f, s.indices[x]))
    ensures LowReached(succ, below, Lower(s, f, s.indices[x]))
  {
    var n := Lower(s, f, s.indices[x]);
    assert forall x, y {:trigger SameIndex(n, x, y)} :: SameIndex(n, x, y) ==> SameIndex(s, x, y);
    assert Shape(succ, n);
    SameStacks(succ, below, s, n);
    forall g | g in n.path
      ensures n.low[g] <= n.indices[g] && exists y :: LowWitness(succ, below, n, g, y)
    {
      assert s.low[g] <= s.indices[g];
      var y :| LowWitness(succ, below, s, g, y);
      if n.low[g] == s.low[g] {
        assert LowWitness(succ, below, n, g, y);
      } else {
        assert LowWitness(succ, below, n, g, x);
      }
    }
  }

  ghost function ReadKnown<N(!new)>(s: View<N>, t: N, w: N): View<N>
    requires t in s.seen && t in s.low && w in s.indices
  {
    if w in s.active then Lower(ReadOne(s, t, w), t, s.indices[w]) else ReadOne(s, t, w)
  }

  lemma ReadKnownBounds<N(!new)>(succ: Graph<N>, s: View<N>, t: N, w: N)
    requires Shape(succ, s) && LowBounds(succ, s)
    requires IsTop(succ, s, t) && w in s.indices && Shape(succ, ReadKnown(s, t, w))
    ensures LowBounds(succ, ReadKnown(s, t, w))
  {
    var n := ReadKnown(s, t, w);
    forall u, f, x | Owned(succ, n, u, f) && x in n.active && x in n.seen[u] ensures n.low[f] <= n.indices[x] {
      assert Owned(succ, s, u, f);
      if u == t && x == w {
        assert SameIndex(s, f, t);
      } else {
        assert x in s.seen[u];
      }
    }
  }

  lemma ReadKnownExplored<N(!new)>(succ: Graph<N>, s: View<N>, t: N, w: N)
    requires Shape(succ, s) && Explored(succ, s) && t in s.indices && w in s.indices
    requires Shape(succ, ReadKnown(s, t, w))
    ensures Explored(succ, ReadKnown(s, t, w))
  {
    var n := ReadKnown(s, t, w);
    forall u | u in n.indices ensures n.seen[u] <= n.indices.Keys {
      assert s.seen[u] <= s.indices.Keys;
    }
    forall u | Finished(n, u) ensures succ[u] <= n.indices.Keys - n.active {
      assert Finished(s, u);
    }
  }

  lemma ReadKnownNeighbor<N(!new)>(succ: Graph<N>, below: set<(N, N)>, s: View<N>, t: N, w: N)
    requires Preorder(succ, below) && Inv(succ, below, s)
    requires IsTop(succ, s, t) && w in succ[t] && w in s.indices
    ensures t in s.seen && t in s.low && Inv(succ, below, ReadKnown(s, t, w))
  {
    var r := ReadOne(s, t, w);
    ReadOneKeeps(succ, below, s, t, w);
    if w in s.active { LowerKeeps(succ, below, r, t, w); }
    ReadKnownBounds(succ, s, t, w);
    ReadKnownExplored(succ, s, t, w);
  }

  // ----- popping a node that does not head its component -----

  ghost predicate Exhausted<N(!new)>(succ: Graph<N>, s: View<N>, t: N)
    requires Shape(succ, s)
  {
    IsTop(succ, s, t) && s.seen[t] == succ[t]
  }

  /** The last node left on the DFS stack always heads its component. */
  lemma BottomIsRoot<N(!new)>(succ: Graph<N>, below: set<(N, N)>, s: View<N>, t: N)
    requires Inv(succ, below, s) && s.path == {t}
    ensures s.low[t] == s.indices[t]
  {
    assert s.low[t] <= s.indices[t];
    var x :| LowWitness(succ, below, s, t, x);
    assert Rooted(succ, s, x);
    assert s.indices[x] <= s.indices[t];
  }

  ghost function PopPath<N(!new)>(s: View<N>, t: N): View<N> {
    s.(path := s.path - {t})
  }

  ghost function Retreat<N(!new)>(s: View<N>, t: N, p: N): View<N>
    requires t in s.low && p in s.low
  {
    Lower(PopPath(s, t), p, s.low[t])
  }

  lemma TopReachesParent<N(!new)>(succ: Graph<N>, below: set<(N, N)>, s: View<N>, t: N, p: N)
    requires Preorder(succ, below) && Inv(succ, below, s)
    requires IsTop(succ, s, t) && IsParent(succ, s, t, p) && s.low[t] != s.indices[t]
    ensures (t, p) in below
  {
    assert s.low[t] <= s.indices[t];
    var x :| LowWitness(succ, below, s, t, x);
    if s.indices[p] <= s.indices[x] { assert Owned(succ, s, x, p); }
    assert Chained(below, t, x, p);
  }

  lemma PopShape<N(!new)>(succ: Graph<N>, s: View<N>, t: N, p: N)
    requires Shape(succ, s) && AllRooted(succ, s) && Exhausted(succ, s, t) && IsParent(succ, s, t, p)
    ensures Shape(succ, PopPath(s, t)) && AllRooted(succ, PopPath(s, t))
  {
    var n := PopPath(s, t);
    assert forall x, y {:trigger SameIndex(n, x, y)} :: SameIndex(n, x, y) ==> SameIndex(s, x, y);
    assert Shape(succ, n);
    forall u | u in n.active ensures Rooted(succ, n, u) {
      assert Rooted(succ, s, u);
      var f :| f in s.path && s.indices[f] <= s.indices[u];
      assert if f == t then p in n.path else f in n.path;
    }
  }

  lemma PopOwned<N(!new)>(succ: Graph<N>, s: View<N>, t: N, p: N, u: N, f: N)
    requires Shape(succ, s) && IsTop(succ, s, t) && IsParent(succ, s, t, p)
    requires Shape(succ, PopPath(s, t)) && Owned(succ, PopPath(s, t), u, f)
    ensures Owned(succ, s, u, f) || (f == p && Owned(succ, s, u, t))
  {
    var n := PopPath(s, t);
    if s.indices[t] <= s.indices[u] {
      assert p in n.path;
      assert SameIndex(s, f, p);
      assert Owned(succ, s, u, t);
    } else {
      forall g | g in s.path && s.indices[g] <= s.indices[u] ensures s.indices[g] <= s.indices[f] {
        assert g in n.path;
      }
    }
  }

  lemma PopLinked<N(!new)>(succ: Graph<N>, below: set<(N, N)>, s: View<N>, t: N, p: N)
    requires Preorder(succ, below) && Shape(succ, s) && Linked(succ, below, s) && LowReached(succ, below, s)
    requires IsTop(succ, s, t) && IsParent(succ, s, t, p) && (t, p) in below && Shape(succ, PopPath(s, t))
    ensures Linked(succ, below, PopPath(s, t)) && LowReached(succ, below, PopPath(s, t))
  {
    var n := PopPath(s, t);
    forall u, f | Owned(succ, n, u, f) ensures (u, f) in below {
      PopOwned(succ, s, t, p, u, f);
      if f == p && Owned(succ, s, u, t) { assert Chained(below, u, t, p); }
    }
    assert Linked(succ, below, n);
    forall f | f in n.path
      ensures n.low[f] <= n.indices[f] && exists x :: LowWitness(succ, below, n, f, x)
    {
      assert s.low[f] <= s.indices[f];
      var x :| LowWitness(succ, below, s, f, x);
      assert LowWitness(succ, below, n, f, x);
    }
  }

  lemma RetreatBounds<N(!new)>(succ: Graph<N>, s: View<N>, t: N, p: N)
    requires Shape(succ, s) && LowBounds(succ, s) && IsTop(succ, s, t) && IsParent(succ, s, t, p)
    requires Shape(succ, PopPath(s, t)) && Shape(succ, Retreat(s, t, p))
    ensures LowBounds(succ, Retreat(s, t, p))
  {
    var n := Retreat(s, t, p);
    forall u, f, x | Owned(succ, n, u, f) && x in n.active && x in n.seen[u] ensures n.low[f] <= n.indices[x] {
      assert Owned(succ, PopPath(s, t), u, f);
      PopOwned(succ, s, t, p, u, f);
      hide Shape;
      assert x in s.seen[u];
    }
  }

  /** Popping a node below which its component continues hands its subtree to the parent. */
  lemma RetreatKeeps<N(!new)>(succ: Graph<N>, below: set<(N, N)>, s: View<N>, t: N, p: N)
    requires Preorder(succ, below) && Inv(succ, below, s)
    requires Exhausted(succ, s, t) && IsParent(succ, s, t, p) && s.low[t] != s.indices[t]
    ensures t in s.low && p in s.low && Inv(succ, below, Retreat(s, t, p))
  {
    TopReachesParent(succ, below, s, t, p);
    PopShape(succ, s, t, p);
    PopLinked(succ, below, s, t, p);
    assert s.low[t] <= s.indices[t];
    var x :| LowWitness(succ, below, s, t, x);
    assert Chained(below, p, t, x);
    LowerKeeps(succ, below, PopPath(s, t), p, x);
    RetreatBounds(succ, s, t, p);
    SameFinished(succ, s, Retreat(s, t, p));
  }

  lemma SameFinished<N(!new)>(succ: Graph<N>, s: View<N>, n: View<N>)
    requires Shape(succ, s) && Shape(succ, n) && Explored(succ, s)
    requires n.indices == s.indices && n.active == s.active && n.seen == s.seen
    ensures Explored(succ, n)
  {
    forall u | Finished(n, u) ensures succ[u] <= n.indices.Keys - n.active {
      assert Finished(s, u);
    }
  }

  // ----- closing a component -----

  ghost predicate AtRoot<N(!new)>(succ: Graph<N>, s: View<N>, t: N)
    requires Shape(succ, s)
  {
    Exhausted(succ, s, t) && s.low[t] == s.indices[t]
  }

  /** The nodes on the component stack from `t` upwards. */
  ghost function Members<N(!new)>(s: View<N>, t: N): set<N>
    requires t in s.indices && s.active <= s.indices.Keys
  {
    set u | u in s.active && s.indices[t] <= s.indices[u]
  }

  ghost function CloseComponent<N(!new)>(s: View<N>, t: N): View<N>
    requires t in s.indices && s.active <= s.indices.Keys
  {
    s.(active := s.active - Members(s, t), path := s.path - {t})
  }

  /** The popped members lead nowhere but to each other and to finished nodes. */
  lemma MembersLeadInside<N(!new)>(succ: Graph<N>, below: set<(N, N)>, s: View<N>, t: N, u: N, x: N)
    requires Shape(succ, s) && LowBounds(succ, s) && Explored(succ, s) && AtRoot(succ, s, t)
    requires u in Members(s, t) && x in succ[u]
    ensures x in Members(s, t) || Finished(s, x)
  {
    assert Owned(succ, s, u, t);
    assert u in s.path ==> SameIndex(s, u, t);
    assert x in s.seen[u];
  }

  /** Members of the component being closed are mutually reachable with its root. */
  lemma MembersMutual<N(!new)>(succ: Graph<N>, below: set<(N, N)>, s: View<N>, t: N, u: N)
    requires Preorder(succ, below) && Inv(succ, below, s) && AtRoot(succ, s, t)
    requires u in Members(s, t)
    ensures (t, u) in below && (u, t) in below
  {
    ActiveReachesTop(succ, below, s, t, u);
  }

  lemma CloseShape<N(!new)>(succ: Graph<N>, s: View<N>, t: N)
    requires Shape(succ, s) && AllRooted(succ, s) && Exhausted(succ, s, t)
    ensures Shape(succ, CloseComponent(s, t)) && AllRooted(succ, CloseComponent(s, t))
  {
    var n := CloseComponent(s, t);
    assert forall x, y {:trigger SameIndex(n, x, y)} :: SameIndex(n, x, y) ==> SameIndex(s, x, y);
    forall f | f in n.path ensures f in n.active {
      assert !SameIndex(s, f, t);
    }
    assert Shape(succ, n);
    forall u | u in n.active ensures Rooted(succ, n, u) {
      assert Rooted(succ, s, u);
      var f :| f in s.path && s.indices[f] <= s.indices[u];
      assert f in n.path;
    }
  }

  lemma CloseOwned<N(!new)>(succ: Graph<N>, s: View<N>, t: N, u: N, f: N)
    requires Shape(succ, s) && IsTop(succ, s, t)
    requires Shape(succ, CloseComponent(s, t)) && Owned(succ, CloseComponent(s, t), u, f)
    ensures Owned(succ, s, u, f)
  {
    var n := CloseComponent(s, t);
    forall g | g in s.path && s.indices[g] <= s.indices[u] ensures s.indices[g] <= s.indices[f] {
      assert g in n.path;
    }
  }

  lemma CloseLinked<N(!new)>(succ: Graph<N>, below: set<(N, N)>, s: View<N>, t: N)
    requires Shape(succ, s) && Linked(succ, below, s) && LowReached(succ, below, s) && IsTop(succ, s, t)
    requires Shape(succ, CloseComponent(s, t))
    ensures Linked(succ, below, CloseComponent(s, t)) && LowReached(succ, below, CloseComponent(s, t))
  {
    var n := CloseComponent(s, t);
    forall u, f | Owned(succ, n, u, f) ensures (u, f) in below {
      CloseOwned(succ, s, t, u, f);
    }
    assert Linked(succ, below, n);
    forall f | f in n.path
      ensures n.low[f] <= n.indices[f] && exists x :: LowWitness(succ, below, n, f, x)
    {
      assert s.low[f] <= s.indices[f] <= s.indices[t];
      var x :| LowWitness(succ, below, s, f, x);
      assert LowWitness(succ, below, n, f, x);
    }
  }

  lemma CloseExplored<N(!new)>(succ: Graph<N>, below: set<(N, N)>, s: View<N>, t: N)
    requires Shape(succ, s) && LowBounds(succ, s) && Explored(succ, s) && AtRoot(succ, s, t)
    requires Shape(succ, CloseComponent(s, t))
    ensures LowBounds(succ, CloseComponent(s, t)) && Explored(succ, CloseComponent(s, t))
  {
    var n := CloseComponent(s, t);
    forall u, f, x | Owned(succ, n, u, f) && x in n.active && x in n.seen[u] ensures n.low[f] <= n.indices[x] {
      CloseOwned(succ, s, t, u, f);
      assert x in s.seen[u];
    }
    assert LowBounds(succ, n);
    forall u | Finished(n, u) ensures succ[u] <= n.indices.Keys - n.active {
      if u in Members(s, t) {
        forall x | x in succ[u] ensures x in n.indices.Keys - n.active {
          MembersLeadInside(succ, below, s, t, u, x);
        }
      } else {
        assert Finished(s, u);
      }
    }
  }

  lemma CloseKeeps<N(!new)>(succ: Graph<N>, below: set<(N, N)>, s: View<N>, t: N)
    requires Inv(succ, below, s) && AtRoot(succ, s, t)
    ensures Inv(succ, below, CloseComponent(s, t))
  {
    CloseShape(succ, s, t);
    CloseLinked(succ, below, s, t);
    CloseExplored(succ, below, s, t);
  }
}
