/** Cycle detection for the architecture report: iterative Tarjan over the file graph. */
module FindCycles {
  import opened Ordering
  import opened TarjanSearch
  import Inv = TarjanInvariant
  import D = Digraph
  import CycleReport

  /** One adjacency list per node, listing the targets of its edges in arbitrary order. */
  method BuildAdjacency(fileEdges: set<(string, string)>, nodePaths: set<string>)
    returns (adjacency: map<string, seq<string>>)
    requires forall e :: e in fileEdges ==> e.0 in nodePaths && e.1 in nodePaths
    ensures adjacency.Keys == nodePaths && Lists(adjacency, fileEdges)
  {
    adjacency := map path | path in nodePaths :: [];
    var rest := fileEdges;
    while rest != {}
      invariant rest <= fileEdges && adjacency.Keys == nodePaths
      invariant Lists(adjacency, fileEdges - rest)
      decreases rest
    {
      var e :| e in rest;
      rest := rest - {e};
      assert e.1 !in adjacency[e.0];
      assert e == (e.0, e.1);
      adjacency := adjacency[e.0 := adjacency[e.0] + [e.1]];
    }
    assert fileEdges - rest == fileEdges;
  }

  /** Pops the component stack down to and including `node`. */
  method PopComponent(componentStack: seq<string>, active: set<string>, node: string)
    returns (rest: seq<string>, activeRest: set<string>, component: seq<string>)
    requires node in componentStack && Elements(componentStack) == active
    ensures rest < componentStack && componentStack[|rest|] == node && node !in componentStack[|rest| + 1..]
    ensures activeRest == active - Elements(componentStack[|rest|..])
    ensures multiset(component) == multiset(componentStack[|rest|..])
  {
    rest, activeRest, component := componentStack, active, [];
    while true
      invariant rest <= componentStack && node in rest && node !in componentStack[|rest|..]
      invariant activeRest == active - Elements(componentStack[|rest|..])
      invariant multiset(component) == multiset(componentStack[|rest|..])
      decreases |rest|
    {
      var member := rest[|rest| - 1];
      assert rest == rest[..|rest| - 1] + [member];
      rest := rest[..|rest| - 1];
      assert componentStack[|rest|..] == [member] + componentStack[|rest| + 1..];
      assert Elements(componentStack[|rest|..]) == {member} + Elements(componentStack[|rest| + 1..]);
      activeRest := activeRest - {member};
      component := component + [member];
      if member == node { break; }
    }
  }

  /** The log holds every neighbour read so far, each once. */
  ghost predicate Logged(s: Inv.View<string>, looks: seq<(string, string)>) {
    && Distinct(looks)
    && (forall r :: r in looks <==> r.0 in s.seen && r.1 in s.seen[r.0])
  }

  /** Reading one more neighbour of `t` adds one more pair to the log of looks. */
  lemma LogRead(adj: Adjacency<string>, edges: D.Edges<string>, s: Inv.View<string>, stack: seq<string>,
                frames: seq<Frame<string>>, cycles: seq<seq<string>>, looks: seq<(string, string)>, t: string,
                w: string)
    requires Searching(adj, edges, s, stack, frames, cycles) && Offers(adj, frames, t, w) && Logged(s, looks)
    ensures w in adj && t in s.seen && Logged(Inv.ReadOne(s, t, w), looks + [(t, w)])
  {
    OfferIsNew(adj, edges, s, stack, frames, cycles, t, w);
    hide Searching, Offers;
    assert (t, w) !in looks;
    LogOneMore(s, looks, t, w);
  }

  lemma LogOneMore(s: Inv.View<string>, looks: seq<(string, string)>, t: string, w: string)
    requires Logged(s, looks) && t in s.seen && (t, w) !in looks
    ensures Logged(Inv.ReadOne(s, t, w), looks + [(t, w)])
  {
    DistinctGrows(looks, (t, w));
    var more := looks + [(t, w)];
    var n := Inv.ReadOne(s, t, w);
    hide Distinct;
    forall r ensures r in more <==> r.0 in n.seen && r.1 in n.seen[r.0] {
      assert r in more <==> r in looks || r == (t, w);
    }
  }

  lemma OfferIsNew(adj: Adjacency<string>, edges: D.Edges<string>, s: Inv.View<string>, stack: seq<string>,
                   frames: seq<Frame<string>>, cycles: seq<seq<string>>, t: string, w: string)
    requires Searching(adj, edges, s, stack, frames, cycles) && Offers(adj, frames, t, w)
    ensures w in adj && t in s.seen && w !in s.seen[t]
  {
    hide Inv.Inv, CycleReport.Collected;
    assert w in adj[t] && (t, w) in edges;
    var k := |frames| - 1;
    assert FrameReads(adj, s, frames[k]);
    var pos := frames[k].pos;
    assert Distinct(adj[t]) && adj[t][pos] == w;
    assert w !in adj[t][..pos];
  }

  lemma LogSame(s: Inv.View<string>, n: Inv.View<string>, looks: seq<(string, string)>)
    requires Logged(s, looks) && n.seen == s.seen
    ensures Logged(n, looks)
  {
  }

  lemma LogDiscover(adj: Adjacency<string>, edges: D.Edges<string>, s: Inv.View<string>, stack: seq<string>,
                    frames: seq<Frame<string>>, cycles: seq<seq<string>>, looks: seq<(string, string)>, w: string)
    requires Searching(adj, edges, s, stack, frames, cycles) && w !in s.indices && Logged(s, looks)
    ensures Logged(Inv.Discover(s, w), looks)
  {
    assert w !in s.seen;
  }

  lemma LogDiscoverRead(adj: Adjacency<string>, edges: D.Edges<string>, s: Inv.View<string>, stack: seq<string>,
                        frames: seq<Frame<string>>, cycles: seq<seq<string>>, looks: seq<(string, string)>,
                        t: string, w: string)
    requires Searching(adj, edges, s, stack, frames, cycles) && w !in s.indices && t in s.indices && t in s.seen
    requires Logged(Inv.ReadOne(s, t, w), looks)
    ensures Logged(Inv.Discover(Inv.ReadOne(s, t, w), w), looks)
  {
    assert w !in s.seen;
  }

  /** The local variables of the search. */
  datatype Search = Search(
    indices: map<string, nat>,
    lowlinks: map<string, nat>,
    active: set<string>,
    componentStack: seq<string>,
    dfsStack: seq<Frame<string>>,
    cycles: seq<seq<string>>,
    nextIndex: nat)

  /** The variables hold what the snapshot `s` says, and the search invariant holds of it. */
  ghost predicate Consistent(adj: Adjacency<string>, edges: D.Edges<string>, v: Search, s: Inv.View<string>,
                             looks: seq<(string, string)>) {
    && s.indices == v.indices && s.low == v.lowlinks && s.active == v.active && s.next == v.nextIndex
    && Searching(adj, edges, s, v.componentStack, v.dfsStack, v.cycles)
    && Logged(s, looks)
  }

  /** Starts a depth-first walk at an undiscovered node. */
  method Begin(adj: Adjacency<string>, edges: D.Edges<string>, v: Search, start: string,
               ghost s: Inv.View<string>, ghost looks: seq<(string, string)>)
    returns (v': Search, ghost s': Inv.View<string>)
    requires Consistent(adj, edges, v, s, looks) && v.dfsStack == [] && start in adj && start !in v.indices
    ensures Consistent(adj, edges, v', s', looks)
    ensures v'.indices.Keys == v.indices.Keys + {start} && v'.dfsStack == [Frame(start, 0)]
  {
    hide Searching, Logged;
    StepRoot(adj, edges, s, v.componentStack, v.cycles, start);
    LogDiscover(adj, edges, s, v.componentStack, [], v.cycles, looks, start);
    s' := Inv.Discover(s, start);
    v' := Search(v.indices[start := v.nextIndex], v.lowlinks[start := v.nextIndex], v.active + {start},
                 v.componentStack + [start], [Frame(start, 0)], v.cycles, v.nextIndex + 1);
  }

  /** The top iterator is exhausted: pops it, closes its component if it heads one, else folds into the parent. */
  method Leave(adj: Adjacency<string>, edges: D.Edges<string>, v: Search,
               ghost s: Inv.View<string>, ghost looks: seq<(string, string)>)
    returns (v': Search, ghost s': Inv.View<string>)
    requires Consistent(adj, edges, v, s, looks)
    requires v.dfsStack != [] && Drained(adj, v.dfsStack, v.dfsStack[|v.dfsStack| - 1].node)
    ensures Consistent(adj, edges, v', s', looks)
    ensures v'.indices == v.indices && |v'.dfsStack| == |v.dfsStack| - 1
  {
    hide Searching, Logged, Inv.Members;
    v', s' := v, s;
    var top := |v.dfsStack| - 1;
    var node := v.dfsStack[top].node;
    FrameFacts(adj, edges, s, v.componentStack, v.dfsStack, v.cycles);
    v' := v'.(dfsStack := v.dfsStack[..top]);
    if v.lowlinks[node] == v.indices[node] {
      var rest, activeRest, component := PopComponent(v.componentStack, v.active, node);
      ghost var members := v.componentStack[|rest|..];
      assert v.componentStack == rest + members;
      ComponentSorts(adj, edges, s, rest, members, v.dfsStack, v.cycles, component);
      var cycle := Sort(component, StrLe);
      StepClose(adj, edges, s, rest, members, v.dfsStack, v.cycles, node, cycle);
      s' := Inv.CloseComponent(s, node);
      LogSame(s, s', looks);
      v' := v'.(componentStack := rest, active := activeRest);
      if |component| > 1 || (node, node) in edges {
        v' := v'.(cycles := v.cycles + [cycle]);
      }
      assert node in Elements(members);
    } else {
      StepRetreat(adj, edges, s, v.componentStack, v.dfsStack, v.cycles, node, top);
      s' := Inv.Retreat(s, node, v.dfsStack[top - 1].node);
      LogSame(s, s', looks);
    }
    if v'.dfsStack != [] && node in v'.active {
      var parent := v.dfsStack[top - 1].node;
      v' := v'.(lowlinks := v.lowlinks[parent := Min(v.lowlinks[parent], v.lowlinks[node])]);
    }
  }

  /** Reads the next neighbour of the top node and descends into it if it is new. */
  method ReadNeighbor(adj: Adjacency<string>, edges: D.Edges<string>, v: Search,
                      ghost s: Inv.View<string>, ghost looks: seq<(string, string)>)
    returns (v': Search, ghost s': Inv.View<string>, ghost looks': seq<(string, string)>)
    requires Consistent(adj, edges, v, s, looks) && v.dfsStack != []
    requires var f := v.dfsStack[|v.dfsStack| - 1]; f.node in adj && f.pos < |adj[f.node]|
    ensures Consistent(adj, edges, v', s', looks') && v'.dfsStack != []
    ensures (v'.indices == v.indices && v'.dfsStack == Advance(v.dfsStack))
            || v.indices.Keys < v'.indices.Keys <= adj.Keys
  {
    hide Searching, Logged;
    var Frame(node, pos) := v.dfsStack[|v.dfsStack| - 1];
    FrameFacts(adj, edges, s, v.componentStack, v.dfsStack, v.cycles);
    var neighbor := adj[node][pos];
    LogRead(adj, edges, s, v.componentStack, v.dfsStack, v.cycles, looks, node, neighbor);
    looks' := looks + [(node, neighbor)];
    v' := v.(dfsStack := Advance(v.dfsStack));
    if neighbor !in v.indices {
      StepDiscover(adj, edges, s, v.componentStack, v.dfsStack, v.cycles, node, neighbor);
      LogDiscoverRead(adj, edges, s, v.componentStack, v.dfsStack, v.cycles, looks', node, neighbor);
      s' := Inv.Discover(Inv.ReadOne(s, node, neighbor), neighbor);
      v' := Search(v.indices[neighbor := v.nextIndex], v.lowlinks[neighbor := v.nextIndex], v.active + {neighbor},
                   v.componentStack + [neighbor], Advance(v.dfsStack) + [Frame(neighbor, 0)], v.cycles,
                   v.nextIndex + 1);
    } else {
      StepKnown(adj, edges, s, v.componentStack, v.dfsStack, v.cycles, node, neighbor);
      s' := Inv.ReadKnown(s, node, neighbor);
      LogSame(Inv.ReadOne(s, node, neighbor), s', looks');
      if neighbor in v.active {
        v' := v'.(lowlinks := v.lowlinks[node := Min(v.lowlinks[node], v.indices[neighbor])]);
      }
    }
  }

  /**
   Every file cycle, each with its full membership in ascending order, cycles in order of
   first member. The log `looks` shows that the search looks at every edge exactly once.
   */
  method FindCycles(fileEdges: set<(string, string)>, nodePaths: set<string>)
    returns (report: seq<seq<string>>, ghost looks: seq<(string, string)>)
    requires forall e :: e in fileEdges ==> e.0 in nodePaths && e.1 in nodePaths
    ensures CycleReport.Report(nodePaths, fileEdges, report)
    ensures Distinct(looks) && Elements(looks) == fileEdges
  {
    hide Consistent, CycleReport.Report;
    var adj := BuildAdjacency(fileEdges, nodePaths);
    var v := Search(map[], map[], {}, [], [], [], 0);
    ghost var s;
    looks := [];
    s := SearchBegins(adj, fileEdges, v);

    var starts := nodePaths;
    while starts != {}
      invariant starts <= nodePaths && nodePaths - starts <= v.indices.Keys
      invariant Consistent(adj, fileEdges, v, s, looks) && v.dfsStack == []
      decreases starts
    {
      var start :| start in starts;
      starts := starts - {start};
      if start !in v.indices {
        v, s := Begin(adj, fileEdges, v, start, s, looks);
        while v.dfsStack != []
          invariant nodePaths - starts <= v.indices.Keys
          invariant Consistent(adj, fileEdges, v, s, looks)
          decreases adj.Keys - v.indices.Keys, |v.dfsStack|,
                    if v.dfsStack != [] then Unread(adj, v.dfsStack[|v.dfsStack| - 1]) else 0
        {
          var top := v.dfsStack[|v.dfsStack| - 1];
          ConsistentFrame(adj, fileEdges, v, s, looks);
          if top.pos == |adj[top.node]| {
            v, s := Leave(adj, fileEdges, v, s, looks);
          } else {
            v, s, looks := ReadNeighbor(adj, fileEdges, v, s, looks);
          }
        }
      }
    }
    assert nodePaths - starts == nodePaths;
    SearchEnds(adj, fileEdges, v, s, looks);
    CycleReport.SortedIsReport(nodePaths, fileEdges, v.cycles);
    report := Sort(v.cycles, CycleReport.ByFirstMember);
  }

  lemma SearchBegins(adj: Adjacency<string>, edges: D.Edges<string>, v: Search) returns (s: Inv.View<string>)
    requires Lists(adj, edges) && v == Search(map[], map[], {}, [], [], [], 0)
    ensures Consistent(adj, edges, v, s, [])
  {
    s := Inv.View(map[], map[], {}, {}, map[], 0);
    SearchStarts(adj, edges, s);
  }

  lemma ConsistentFrame(adj: Adjacency<string>, edges: D.Edges<string>, v: Search, s: Inv.View<string>,
                        looks: seq<(string, string)>)
    requires Consistent(adj, edges, v, s, looks) && v.dfsStack != []
    ensures var f := v.dfsStack[|v.dfsStack| - 1]; f.node in adj && f.pos <= |adj[f.node]|
  {
    FrameFacts(adj, edges, s, v.componentStack, v.dfsStack, v.cycles);
  }

  lemma SearchEnds(adj: Adjacency<string>, edges: D.Edges<string>, v: Search, s: Inv.View<string>,
                   looks: seq<(string, string)>)
    requires Consistent(adj, edges, v, s, looks) && v.dfsStack == [] && adj.Keys <= v.indices.Keys
    ensures CycleReport.Collected(adj.Keys, edges, adj.Keys, v.cycles)
    ensures Distinct(looks) && Elements(looks) == edges
  {
    SearchSettled(adj, edges, s, v.componentStack, v.cycles);
    assert v.indices.Keys == adj.Keys;
    AllRead(adj, edges, s, looks);
  }

  function Unread(adj: Adjacency<string>, f: Frame<string>): int {
    if f.node in adj then |adj[f.node]| - f.pos else 0
  }

  lemma FrameFacts(adj: Adjacency<string>, edges: D.Edges<string>, s: Inv.View<string>, stack: seq<string>,
                   frames: seq<Frame<string>>, cycles: seq<seq<string>>)
    requires Searching(adj, edges, s, stack, frames, cycles) && frames != []
    ensures s.low.Keys == s.indices.Keys && s.seen.Keys == s.indices.Keys
    ensures var f := frames[|frames| - 1];
      && f.node in adj && f.node in s.indices && f.node in s.low && f.pos <= |adj[f.node]|
      && f.node in s.active && f.node in stack && Elements(stack) == s.active
      && s.indices.Keys <= adj.Keys
  {
    var f := frames[|frames| - 1];
    assert FrameReads(adj, s, f);
    TopFrame(adj, s, stack, frames);
    assert f.node in Elements(stack);
  }

  lemma ComponentSorts(adj: Adjacency<string>, edges: D.Edges<string>, s: Inv.View<string>, rest: seq<string>,
                       members: seq<string>, frames: seq<Frame<string>>, cycles: seq<seq<string>>,
                       component: seq<string>)
    requires Searching(adj, edges, s, rest + members, frames, cycles)
    requires members != [] && multiset(component) == multiset(members)
    ensures Ascending(Sort(component, StrLe)) && Elements(Sort(component, StrLe)) == Elements(members)
    ensures |component| == |members| && members[0] in s.indices && s.active <= s.indices.Keys
    ensures s.active - Elements(members) == s.active - Inv.Members(s, members[0])
  {
    StackSplit(adj, s, rest, members);
    DistinctMultiplicity(members);
    DistinctMultiplicity(component);
    SameMembers(component, members);
    SortedStringsAscend(component);
  }

  lemma AllRead(adj: Adjacency<string>, edges: D.Edges<string>, s: Inv.View<string>, looks: seq<(string, string)>)
    requires Lists(adj, edges) && Logged(s, looks) && s.indices.Keys == adj.Keys && s.seen.Keys == adj.Keys
    requires forall u {:trigger s.seen[u]} :: u in s.indices ==> s.seen[u] == Elements(adj[u])
    ensures Elements(looks) == edges
  {
    forall r ensures r in looks <==> r in edges {
      if r in looks {
        assert r.1 in adj[r.0];
        assert r == (r.0, r.1);
      }
      if r in edges { assert r.1 in s.seen[r.0]; }
    }
  }
}
