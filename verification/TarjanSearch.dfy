/**
 The search state of `_find_cycles` as the loop holds it: two stacks kept as lists, a DFS
 stack entry being a node and the position of its neighbour iterator. Each step of the loop
 keeps `Searching`, the conjunction of the search invariant and of what has been collected.
 */
module TarjanSearch {
  import opened Ordering
  import opened TarjanInvariant
  import D = Digraph
  import CycleReport

  datatype Frame<N> = Frame(node: N, pos: nat)

  type Adjacency<N(==)> = map<N, seq<N>>

  ghost function SuccOf<N(!new)>(adj: Adjacency<N>): Graph<N> {
    map u | u in adj :: Elements(adj[u])
  }

  ghost predicate ByIndex<N(!new)>(indices: map<N, nat>, s: seq<N>) {
    && (forall i :: 0 <= i < |s| ==> s[i] in indices)
    && (forall i, j :: 0 <= i < j < |s| ==> indices[s[i]] < indices[s[j]])
  }

  ghost function NodesOf<N>(frames: seq<Frame<N>>): (r: seq<N>)
    ensures |r| == |frames|
  {
    seq(|frames|, i requires 0 <= i < |frames| => frames[i].node)
  }

  ghost predicate FrameReads<N(!new)>(adj: Adjacency<N>, s: View<N>, f: Frame<N>) {
    && f.node in adj && f.node in s.seen && f.pos <= |adj[f.node]|
    && s.seen[f.node] == Elements(adj[f.node][..f.pos])
  }

  /** The two lists are the active and the path nodes in order of discovery. */
  ghost predicate Tracks<N(!new)>(adj: Adjacency<N>, s: View<N>, stack: seq<N>, frames: seq<Frame<N>>) {
    && ByIndex(s.indices, stack) && Elements(stack) == s.active
    && ByIndex(s.indices, NodesOf(frames)) && Elements(NodesOf(frames)) == s.path
    && (forall k {:trigger frames[k]} :: 0 <= k < |frames| ==> FrameReads(adj, s, frames[k]))
  }

  lemma TopFrame<N(!new)>(adj: Adjacency<N>, s: View<N>, stack: seq<N>, frames: seq<Frame<N>>)
    requires Shape(SuccOf(adj), s) && Tracks(adj, s, stack, frames) && frames != []
    ensures IsTop(SuccOf(adj), s, frames[|frames| - 1].node)
  {
    var nodes := NodesOf(frames);
    var t := nodes[|nodes| - 1];
    assert t in Elements(nodes);
    forall f | f in s.path ensures s.indices[f] <= s.indices[t] {
      assert f in Elements(nodes);
      var i :| 0 <= i < |nodes| && nodes[i] == f;
    }
  }

  lemma ParentFrame<N(!new)>(adj: Adjacency<N>, s: View<N>, stack: seq<N>, frames: seq<Frame<N>>)
    requires Shape(SuccOf(adj), s) && Tracks(adj, s, stack, frames) && |frames| > 1
    ensures frames[|frames| - 1].node in s.indices
    ensures IsParent(SuccOf(adj), s, frames[|frames| - 1].node, frames[|frames| - 2].node)
  {
    var nodes := NodesOf(frames);
    var k := |nodes| - 2;
    assert nodes[k + 1] == frames[k + 1].node && nodes[k] == frames[k].node;
    assert nodes[k] in Elements(nodes);
    forall f | f in s.path && f != nodes[k + 1] ensures s.indices[f] <= s.indices[nodes[k]] {
      assert f in Elements(nodes);
      var i :| 0 <= i < |nodes| && nodes[i] == f;
    }
  }

  /** What lies on the component stack from `t` upwards are the members of its component. */
  lemma StackSplit<N(!new)>(adj: Adjacency<N>, s: View<N>, rest: seq<N>, members: seq<N>)
    requires Shape(SuccOf(adj), s) && ByIndex(s.indices, rest + members) && Elements(rest + members) == s.active
    requires members != []
    ensures members[0] in s.indices
    ensures Elements(members) == Members(s, members[0])
    ensures Elements(rest) == s.active - Members(s, members[0])
    ensures Distinct(members) && ByIndex(s.indices, rest)
  {
    var stack := rest + members;
    var t := members[0];
    assert stack[|rest|] == t;
    forall i | 0 <= i < |rest| ensures rest[i] in s.active - Members(s, t) {
      assert stack[i] == rest[i];
      assert rest[i] in Elements(stack);
    }
    forall i | 0 <= i < |members| ensures members[i] in Members(s, t) {
      assert stack[|rest| + i] == members[i];
      assert members[i] in Elements(stack);
    }
    forall u | u in s.active ensures u in rest || u in members {
      assert u in Elements(stack);
    }
    forall i, j | 0 <= i < j < |members| ensures members[i] != members[j] {
      assert stack[|rest| + i] == members[i] && stack[|rest| + j] == members[j];
    }
    forall i, j | 0 <= i < j < |rest| ensures s.indices[rest[i]] < s.indices[rest[j]] {
      assert stack[i] == rest[i] && stack[j] == rest[j];
    }
  }

  // ----- the lists after each step -----

  lemma TracksDiscover<N(!new)>(adj: Adjacency<N>, s: View<N>, stack: seq<N>, frames: seq<Frame<N>>, w: N)
    requires Shape(SuccOf(adj), s) && Tracks(adj, s, stack, frames) && w in adj && w !in s.indices
    ensures Tracks(adj, Discover(s, w), stack + [w], frames + [Frame(w, 0)])
  {
    var n := Discover(s, w);
    assert NodesOf(frames + [Frame(w, 0)]) == NodesOf(frames) + [w];
    ListsDiscover(adj, s, n, stack, s.active, w);
    ListsDiscover(adj, s, n, NodesOf(frames), s.path, w);
    hide ByIndex, Shape;
    forall k | 0 <= k < |frames| + 1 ensures FrameReads(adj, n, (frames + [Frame(w, 0)])[k]) {
      if k < |frames| {
        assert FrameReads(adj, s, frames[k]);
        assert frames[k].node != w by { assert NodesOf(frames)[k] in Elements(NodesOf(frames)); }
      }
    }
  }

  /** A list of nodes in order of discovery stays one when the next node is put at its end. */
  lemma ListsDiscover<N(!new)>(adj: Adjacency<N>, s: View<N>, n: View<N>, nodes: seq<N>, members: set<N>, w: N)
    requires Shape(SuccOf(adj), s) && w !in s.indices && n.indices == s.indices[w := s.next]
    requires ByIndex(s.indices, nodes) && Elements(nodes) == members
    ensures ByIndex(n.indices, nodes + [w]) && Elements(nodes + [w]) == members + {w}
    ensures w !in members
  {
    forall i | 0 <= i < |nodes| ensures nodes[i] in s.indices && s.indices[nodes[i]] < s.next { }
    hide Shape;
  }

  lemma TracksRead<N(!new)>(adj: Adjacency<N>, s: View<N>, stack: seq<N>, frames: seq<Frame<N>>, k: nat)
    requires Shape(SuccOf(adj), s) && Tracks(adj, s, stack, frames) && k == |frames| - 1
    requires frames[k].pos < |adj[frames[k].node]|
    ensures frames[k].node in s.seen
    ensures Tracks(adj, ReadOne(s, frames[k].node, adj[frames[k].node][frames[k].pos]), stack,
                   frames[k := Frame(frames[k].node, frames[k].pos + 1)])
  {
    var t, pos := frames[k].node, frames[k].pos;
    assert FrameReads(adj, s, frames[k]);
    var n := ReadOne(s, t, adj[t][pos]);
    var after := frames[k := Frame(t, pos + 1)];
    assert NodesOf(after) == NodesOf(frames);
    assert adj[t][..pos + 1] == adj[t][..pos] + [adj[t][pos]];
    forall j | 0 <= j < |after| ensures FrameReads(adj, n, after[j]) {
      if j < k {
        assert FrameReads(adj, s, frames[j]);
        assert NodesOf(frames)[j] == frames[j].node && NodesOf(frames)[k] == t;
      }
    }
  }

  lemma TracksPop<N(!new)>(adj: Adjacency<N>, s: View<N>, stack: seq<N>, frames: seq<Frame<N>>, k: nat)
    requires Shape(SuccOf(adj), s) && Tracks(adj, s, stack, frames) && k == |frames| - 1
    ensures Tracks(adj, PopPath(s, frames[k].node), stack, frames[..k])
  {
    hide Shape;
    var nodes := NodesOf(frames);
    assert NodesOf(frames[..k]) == nodes[..k];
    var n := PopPath(s, frames[k].node);
    assert nodes[k] == frames[k].node;
    PopLast(s.indices, nodes, k);
    forall j | 0 <= j < k ensures FrameReads(adj, n, frames[..k][j]) {
      assert FrameReads(adj, s, frames[j]);
    }
  }

  lemma PopLast<N(!new)>(indices: map<N, nat>, nodes: seq<N>, k: nat)
    requires ByIndex(indices, nodes) && k == |nodes| - 1
    ensures ByIndex(indices, nodes[..k]) && Elements(nodes[..k]) == Elements(nodes) - {nodes[k]}
  {
    assert nodes == nodes[..k] + [nodes[k]];
    forall i | 0 <= i < k ensures nodes[..k][i] != nodes[k] { assert indices[nodes[i]] < indices[nodes[k]]; }
  }

  // ----- the whole invariant -----

  ghost function Closure<N(!new)>(nodes: set<N>, edges: D.Edges<N>): set<(N, N)> {
    set u, w | u in nodes && w in nodes && D.Reaches(edges, u, w) :: (u, w)
  }

  ghost predicate Lists<N(!new)>(adj: Adjacency<N>, edges: D.Edges<N>) {
    && (forall u, w :: u in adj && w in adj[u] ==> (u, w) in edges)
    && (forall e :: e in edges ==> e.0 in adj && e.1 in adj && e.1 in adj[e.0])
    && (forall u :: u in adj ==> Distinct(adj[u]))
  }

  lemma ClosureIsPreorder<N(!new)>(adj: Adjacency<N>, edges: D.Edges<N>)
    requires Lists(adj, edges)
    ensures Total(SuccOf(adj)) && Preorder(SuccOf(adj), Closure(adj.Keys, edges))
  {
    var below := Closure(adj.Keys, edges);
    forall u, w | u in adj && w in Elements(adj[u]) ensures w in adj && (u, w) in below {
      assert (u, w) in edges;
      D.ReachesByEdge(edges, u, w);
    }
    forall u | u in adj ensures (u, u) in below { D.ReachesSelf(edges, u); }
    forall u, v, w | Chained(below, u, v, w) ensures (u, w) in below {
      D.ReachesTrans(edges, u, v, w);
    }
  }

  /** The members popped at a root are exactly its strongly connected component. */
  lemma MembersAreComponent<N(!new)>(adj: Adjacency<N>, edges: D.Edges<N>, s: View<N>, t: N)
    requires Lists(adj, edges) && Inv(SuccOf(adj), Closure(adj.Keys, edges), s) && AtRoot(SuccOf(adj), s, t)
    ensures Members(s, t) == D.Component(adj.Keys, edges, t)
    ensures Members(s, t) !! s.indices.Keys - s.active
  {
    var succ, below := SuccOf(adj), Closure(adj.Keys, edges);
    ClosureIsPreorder(adj, edges);
    forall u | u in Members(s, t) ensures u in D.Component(adj.Keys, edges, t) {
      MembersMutual(succ, below, s, t, u);
    }
    var done := s.indices.Keys - s.active;
    var inside := Members(s, t) + done;
    forall e | e in edges && e.0 in inside ensures e.1 in inside && (e.0 in done ==> e.1 in done) {
      assert e.1 in succ[e.0];
      if e.0 in done { assert Finished(s, e.0); }
      else { MembersLeadInside(succ, below, s, t, e.0, e.1); }
    }
    forall u | u in D.Component(adj.Keys, edges, t) ensures u in Members(s, t) {
      D.ClosedContainsReach(edges, inside, t, u);
      if u in done { D.ClosedContainsReach(edges, done, u, t); }
    }
  }

  ghost predicate Searching(adj: Adjacency<string>, edges: D.Edges<string>, s: View<string>,
                            stack: seq<string>, frames: seq<Frame<string>>, cycles: seq<seq<string>>) {
    && Lists(adj, edges)
    && Inv(SuccOf(adj), Closure(adj.Keys, edges), s)
    && Tracks(adj, s, stack, frames)
    && CycleReport.Collected(adj.Keys, edges, s.indices.Keys - s.active, cycles)
  }

  lemma SearchStarts(adj: Adjacency<string>, edges: D.Edges<string>, s: View<string>)
    requires Lists(adj, edges) && s == View(map[], map[], {}, {}, map[], 0)
    ensures Searching(adj, edges, s, [], [], [])
  {
    EmptyInv(SuccOf(adj), Closure(adj.Keys, edges), s);
    assert Tracks(adj, s, [], []);
  }

  /** A discovered node is active, so no node is finished by discovering one. */
  lemma DiscoverOpens<N(!new)>(succ: Graph<N>, s: View<N>, w: N)
    requires Shape(succ, s) && w !in s.indices
    ensures Discover(s, w).indices.Keys - Discover(s, w).active == s.indices.Keys - s.active
  {
  }

  lemma StepRoot(adj: Adjacency<string>, edges: D.Edges<string>, s: View<string>,
                 stack: seq<string>, cycles: seq<seq<string>>, w: string)
    requires Searching(adj, edges, s, stack, [], cycles) && w in adj && w !in s.indices
    ensures Searching(adj, edges, Discover(s, w), stack + [w], [Frame(w, 0)], cycles)
  {
    hide Linked, LowReached, LowBounds, Explored, Preorder, CycleReport.Collected;
    ClosureIsPreorder(adj, edges);
    assert s.path == {};
    DiscoverRoot(SuccOf(adj), Closure(adj.Keys, edges), s, w);
    TracksDiscover(adj, s, stack, [], w);
    assert [] + [Frame(w, 0)] == [Frame(w, 0)];
    DiscoverOpens(SuccOf(adj), s, w);
    hide Tracks, Shape, Lists;
  }

  /** The DFS stack after its top iterator has handed out one more neighbour. */
  function Advance<N>(frames: seq<Frame<N>>): seq<Frame<N>>
    requires frames != []
  {
    var k := |frames| - 1;
    frames[k := Frame(frames[k].node, frames[k].pos + 1)]
  }

  ghost predicate Offers<N(!new)>(adj: Adjacency<N>, frames: seq<Frame<N>>, t: N, w: N) {
    && frames != [] && frames[|frames| - 1].node == t && t in adj
    && frames[|frames| - 1].pos < |adj[t]| && adj[t][frames[|frames| - 1].pos] == w
  }

  lemma ReadTracked<N(!new)>(adj: Adjacency<N>, s: View<N>, stack: seq<N>, frames: seq<Frame<N>>, t: N, w: N)
    requires Shape(SuccOf(adj), s) && Tracks(adj, s, stack, frames) && Offers(adj, frames, t, w)
    ensures IsTop(SuccOf(adj), s, t) && w in SuccOf(adj)[t] && t in s.seen
    ensures Tracks(adj, ReadOne(s, t, w), stack, Advance(frames))
  {
    TopFrame(adj, s, stack, frames);
    TracksRead(adj, s, stack, frames, |frames| - 1);
  }

  lemma DiscoverTracked<N(!new)>(adj: Adjacency<N>, succ: Graph<N>, below: set<(N, N)>, s: View<N>,
                                 stack: seq<N>, frames: seq<Frame<N>>, t: N, w: N)
    requires Total(succ) && Preorder(succ, below) && Inv(succ, below, s) && succ == SuccOf(adj)
    requires IsTop(succ, s, t) && w in succ[t] && w !in s.indices && t in s.seen
    requires Tracks(adj, ReadOne(s, t, w), stack, frames)
    ensures Inv(succ, below, Discover(ReadOne(s, t, w), w))
    ensures Tracks(adj, Discover(ReadOne(s, t, w), w), stack + [w], frames + [Frame(w, 0)])
  {
    hide Linked, LowReached, LowBounds, Explored, Preorder;
    DiscoverNeighbor(succ, below, s, t, w);
    ReadOneKeeps(succ, below, s, t, w);
    TracksDiscover(adj, ReadOne(s, t, w), stack, frames, w);
  }

  lemma KnownTracked<N(!new)>(adj: Adjacency<N>, succ: Graph<N>, below: set<(N, N)>, s: View<N>,
                              stack: seq<N>, frames: seq<Frame<N>>, t: N, w: N)
    requires Preorder(succ, below) && Inv(succ, below, s)
    requires IsTop(succ, s, t) && w in succ[t] && w in s.indices && t in s.seen
    requires Tracks(adj, ReadOne(s, t, w), stack, frames)
    ensures t in s.low && Inv(succ, below, ReadKnown(s, t, w))
    ensures Tracks(adj, ReadKnown(s, t, w), stack, frames)
  {
    hide Inv, Preorder, Tracks;
    ReadKnownNeighbor(succ, below, s, t, w);
    TracksSame(adj, ReadOne(s, t, w), ReadKnown(s, t, w), stack, frames);
  }

  lemma StepDiscover(adj: Adjacency<string>, edges: D.Edges<string>, s: View<string>,
                     stack: seq<string>, frames: seq<Frame<string>>, cycles: seq<seq<string>>, t: string, w: string)
    requires Searching(adj, edges, s, stack, frames, cycles) && Offers(adj, frames, t, w) && w !in s.indices
    ensures t in s.seen
    ensures Searching(adj, edges, Discover(ReadOne(s, t, w), w), stack + [w], Advance(frames) + [Frame(w, 0)], cycles)
  {
    hide Linked, LowReached, LowBounds, Explored, Preorder, Lists, CycleReport.Collected;
    ClosureIsPreorder(adj, edges);
    ReadTracked(adj, s, stack, frames, t, w);
    DiscoverTracked(adj, SuccOf(adj), Closure(adj.Keys, edges), s, stack, Advance(frames), t, w);
    DiscoverOpens(SuccOf(adj), s, w);
    hide Tracks, Shape;
  }

  lemma StepKnown(adj: Adjacency<string>, edges: D.Edges<string>, s: View<string>,
                  stack: seq<string>, frames: seq<Frame<string>>, cycles: seq<seq<string>>, t: string, w: string)
    requires Searching(adj, edges, s, stack, frames, cycles) && Offers(adj, frames, t, w) && w in s.indices
    ensures t in s.seen && t in s.low
    ensures Searching(adj, edges, ReadKnown(s, t, w), stack, Advance(frames), cycles)
  {
    ClosureIsPreorder(adj, edges);
    ReadTracked(adj, s, stack, frames, t, w);
    KnownTracked(adj, SuccOf(adj), Closure(adj.Keys, edges), s, stack, Advance(frames), t, w);
  }

  lemma TracksSame<N(!new)>(adj: Adjacency<N>, s: View<N>, n: View<N>, stack: seq<N>, frames: seq<Frame<N>>)
    requires Tracks(adj, s, stack, frames)
    requires n.indices == s.indices && n.active == s.active && n.path == s.path && n.seen == s.seen
    ensures Tracks(adj, n, stack, frames)
  {
    forall k | 0 <= k < |frames| ensures FrameReads(adj, n, frames[k]) { assert FrameReads(adj, s, frames[k]); }
  }

  ghost predicate Drained<N(!new)>(adj: Adjacency<N>, frames: seq<Frame<N>>, t: N) {
    frames != [] && frames[|frames| - 1].node == t && t in adj && frames[|frames| - 1].pos == |adj[t]|
  }

  lemma DrainedIsExhausted<N(!new)>(adj: Adjacency<N>, s: View<N>, stack: seq<N>, frames: seq<Frame<N>>, t: N)
    requires Shape(SuccOf(adj), s) && Tracks(adj, s, stack, frames) && Drained(adj, frames, t)
    ensures Exhausted(SuccOf(adj), s, t)
  {
    TopFrame(adj, s, stack, frames);
    assert FrameReads(adj, s, frames[|frames| - 1]);
    assert adj[t][..|adj[t]|] == adj[t];
  }

  /** A drained node that is not the head of its component has a parent to fold into. */
  lemma StepRetreat(adj: Adjacency<string>, edges: D.Edges<string>, s: View<string>,
                    stack: seq<string>, frames: seq<Frame<string>>, cycles: seq<seq<string>>, t: string, k: nat)
    requires Searching(adj, edges, s, stack, frames, cycles) && Drained(adj, frames, t) && k == |frames| - 1
    requires t in s.low && t in s.indices && s.low[t] != s.indices[t]
    ensures k > 0 && frames[k - 1].node in s.low && t in s.active
    ensures Searching(adj, edges, Retreat(s, t, frames[k - 1].node), stack, frames[..k], cycles)
  {
    var succ, below := SuccOf(adj), Closure(adj.Keys, edges);
    ClosureIsPreorder(adj, edges);
    DrainedIsExhausted(adj, s, stack, frames, t);
    if k == 0 {
      assert NodesOf(frames) == [t];
      assert s.path == {t};
      BottomIsRoot(succ, below, s, t);
      assert false;
    }
    ParentFrame(adj, s, stack, frames);
    var p := frames[k - 1].node;
    RetreatKeeps(succ, below, s, t, p);
    TracksPop(adj, s, stack, frames, k);
    TracksSame(adj, PopPath(s, t), Retreat(s, t, p), stack, frames[..k]);
  }

  lemma CloseTracked<N(!new)>(adj: Adjacency<N>, s: View<N>, rest: seq<N>, members: seq<N>,
                              frames: seq<Frame<N>>, t: N)
    requires Shape(SuccOf(adj), s) && Tracks(adj, s, rest + members, frames) && Drained(adj, frames, t)
    requires t in s.indices && members != [] && members[0] == t
    ensures Tracks(adj, CloseComponent(s, t), rest, frames[..|frames| - 1])
    ensures Elements(members) == Members(s, t) && Distinct(members)
  {
    hide FrameReads, ByIndex, Members, Elements, Distinct;
    StackSplit(adj, s, rest, members);
    TracksPop(adj, s, rest + members, frames, |frames| - 1);
    TracksRest(adj, PopPath(s, t), CloseComponent(s, t), rest + members, rest, frames[..|frames| - 1]);
  }

  lemma MembersRecorded(adj: Adjacency<string>, edges: D.Edges<string>, s: View<string>, members: seq<string>,
                        cycles: seq<seq<string>>, t: string, sorted: seq<string>)
    requires Lists(adj, edges) && Inv(SuccOf(adj), Closure(adj.Keys, edges), s) && AtRoot(SuccOf(adj), s, t)
    requires CycleReport.Collected(adj.Keys, edges, s.indices.Keys - s.active, cycles)
    requires Elements(members) == Members(s, t) && Distinct(members)
    requires Ascending(sorted) && Elements(sorted) == Elements(members)
    ensures CycleReport.Collected(adj.Keys, edges, s.indices.Keys - s.active + Members(s, t),
              if |members| > 1 || (t, t) in edges then cycles + [sorted] else cycles)
  {
    MembersAreComponent(adj, edges, s, t);
    DistinctLength(members);
    CycleReport.CollectComponent(adj.Keys, edges, s.indices.Keys - s.active, cycles, t, sorted, Members(s, t));
  }

  /** Popping the members of a component records its cycle and closes it for good. */
  lemma StepClose(adj: Adjacency<string>, edges: D.Edges<string>, s: View<string>,
                  rest: seq<string>, members: seq<string>, frames: seq<Frame<string>>, cycles: seq<seq<string>>,
                  t: string, sorted: seq<string>)
    requires Searching(adj, edges, s, rest + members, frames, cycles) && Drained(adj, frames, t)
    requires t in s.low && t in s.indices && s.low[t] == s.indices[t]
    requires members != [] && members[0] == t && Ascending(sorted) && Elements(sorted) == Elements(members)
    ensures Searching(adj, edges, CloseComponent(s, t), rest, frames[..|frames| - 1],
              if |members| > 1 || (t, t) in edges then cycles + [sorted] else cycles)
  {
    hide Linked, LowReached, LowBounds, Explored, AllRooted, Lists, CycleReport.Collected;
    DrainedIsExhausted(adj, s, rest + members, frames, t);
    CloseKeeps(SuccOf(adj), Closure(adj.Keys, edges), s, t);
    CloseTracked(adj, s, rest, members, frames, t);
    MembersRecorded(adj, edges, s, members, cycles, t, sorted);
    var n := CloseComponent(s, t);
    assert n.indices.Keys - n.active == s.indices.Keys - s.active + Members(s, t);
  }

  lemma TracksRest<N(!new)>(adj: Adjacency<N>, s: View<N>, n: View<N>, stack: seq<N>, rest: seq<N>,
                            frames: seq<Frame<N>>)
    requires Tracks(adj, s, stack, frames) && ByIndex(s.indices, rest) && Elements(rest) == n.active
    requires n.indices == s.indices && n.path == s.path && n.seen == s.seen
    ensures Tracks(adj, n, rest, frames)
  {
    forall k | 0 <= k < |frames| ensures FrameReads(adj, n, frames[k]) { assert FrameReads(adj, s, frames[k]); }
  }

  lemma {:induction false} DistinctLength<N>(s: seq<N>)
    requires Distinct(s)
    ensures |Elements(s)| == |s|
  {
    if s != [] {
      var k := |s| - 1;
      DistinctLength(s[..k]);
      assert Elements(s) == Elements(s[..k]) + {s[k]} by {
        assert s == s[..k] + [s[k]];
      }
      assert s[k] !in Elements(s[..k]);
    }
  }

  lemma SomeElement<N>(s: seq<N>)
    requires s != []
    ensures Elements(s) != {}
  {
    assert s[0] in Elements(s);
  }

  /** When the DFS stack is empty, every discovered node is closed. */
  lemma SearchSettled(adj: Adjacency<string>, edges: D.Edges<string>, s: View<string>,
                      stack: seq<string>, cycles: seq<seq<string>>)
    requires Searching(adj, edges, s, stack, [], cycles)
    ensures stack == [] && s.active == {}
    ensures CycleReport.Collected(adj.Keys, edges, s.indices.Keys, cycles)
    ensures forall u {:trigger s.seen[u]} :: u in s.indices ==> s.seen[u] == Elements(adj[u])
  {
    assert s.path == {};
    EmptyPath(SuccOf(adj), s);
    if stack != [] { SomeElement(stack); }
    assert s.indices.Keys - s.active == s.indices.Keys;
  }
}
