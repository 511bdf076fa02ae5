/**
 What the `cycles` field of an architecture report means: the non-trivial strongly connected
 components of the file graph, each listed once in ascending order, in order of first member.
 */
module CycleReport {
  import opened Digraph
  import opened Ordering

  /** More than one file, or one file that imports itself. */
  ghost predicate NonTrivial(nodes: set<string>, edges: Edges<string>, v: string) {
    |Component(nodes, edges, v)| > 1 || (v, v) in edges
  }

  ghost predicate Lists(nodes: set<string>, edges: Edges<string>, c: seq<string>, v: string) {
    v in nodes && Ascending(c) && Elements(c) == Component(nodes, edges, v)
  }

  /** `c` is the sorted membership of the cycle through `v`. */
  ghost predicate CycleThrough(nodes: set<string>, edges: Edges<string>, c: seq<string>, v: string) {
    Lists(nodes, edges, c, v) && NonTrivial(nodes, edges, v)
  }

  ghost predicate IsCycle(nodes: set<string>, edges: Edges<string>, c: seq<string>) {
    exists v :: CycleThrough(nodes, edges, c, v)
  }

  ghost predicate CycleWithin(nodes: set<string>, edges: Edges<string>, done: set<string>, c: seq<string>) {
    exists v :: v in done && CycleThrough(nodes, edges, c, v)
  }

  ghost predicate Covered(nodes: set<string>, edges: Edges<string>, cycles: seq<seq<string>>, v: string) {
    exists c :: c in cycles && Lists(nodes, edges, c, v)
  }

  /** Exactly the cycles through the nodes of `done`, in any order, each once. */
  ghost predicate Collected(nodes: set<string>, edges: Edges<string>, done: set<string>, cycles: seq<seq<string>>) {
    && (forall c {:trigger CycleWithin(nodes, edges, done, c)} :: c in cycles ==> CycleWithin(nodes, edges, done, c))
    && (forall v {:trigger Covered(nodes, edges, cycles, v)} ::
          v in done && NonTrivial(nodes, edges, v) ==> Covered(nodes, edges, cycles, v))
    && Distinct(cycles)
  }

  function FirstMember(c: seq<string>): string {
    if c == [] then "" else c[0]
  }

  predicate ByFirstMember(c: seq<string>, d: seq<string>) {
    StrLe(FirstMember(c), FirstMember(d))
  }

  ghost predicate Report(nodes: set<string>, edges: Edges<string>, cycles: seq<seq<string>>) {
    && Collected(nodes, edges, nodes, cycles)
    && (forall i, j :: 0 <= i < j < |cycles| ==> StrLess(FirstMember(cycles[i]), FirstMember(cycles[j])))
  }

  lemma SelfInComponent(nodes: set<string>, edges: Edges<string>, v: string)
    requires v in nodes
    ensures v in Component(nodes, edges, v)
  {
    ReachesSelf(edges, v);
  }

  lemma ComponentOfMember(nodes: set<string>, edges: Edges<string>, v: string, w: string)
    requires v in nodes && w in Component(nodes, edges, v)
    ensures Component(nodes, edges, w) == Component(nodes, edges, v)
    ensures NonTrivial(nodes, edges, v) <==> NonTrivial(nodes, edges, w)
  {
    ComponentShared(nodes, edges, v, w);
    SelfInComponent(nodes, edges, v);
    SelfInComponent(nodes, edges, w);
    if v != w {
      var c := Component(nodes, edges, v);
      assert {v, w} <= c;
      assert c == {v, w} + (c - {v, w});
      assert |c| >= 2;
    }
  }

  /** Distinct cycles share no node. */
  lemma CyclesDisjoint(nodes: set<string>, edges: Edges<string>, c: seq<string>, d: seq<string>, x: string)
    requires IsCycle(nodes, edges, c) && IsCycle(nodes, edges, d) && x in c && x in d
    ensures c == d
  {
    var v :| CycleThrough(nodes, edges, c, v);
    var w :| CycleThrough(nodes, edges, d, w);
    assert x in Elements(c) && x in Elements(d);
    ComponentOfMember(nodes, edges, v, x);
    ComponentOfMember(nodes, edges, w, x);
    AscendingUnique(c, d);
  }

  lemma CycleNotEmpty(nodes: set<string>, edges: Edges<string>, c: seq<string>)
    requires IsCycle(nodes, edges, c)
    ensures c != [] && FirstMember(c) in c
  {
    var v :| CycleThrough(nodes, edges, c, v);
    SelfInComponent(nodes, edges, v);
    assert v in Elements(c);
  }

  lemma CollectWithin(nodes: set<string>, edges: Edges<string>, done: set<string>, all: set<string>, c: seq<string>)
    requires CycleWithin(nodes, edges, done, c) && done <= all
    ensures CycleWithin(nodes, edges, all, c)
  {
    var v :| v in done && CycleThrough(nodes, edges, c, v);
    assert v in all;
  }

  lemma CoverStays(nodes: set<string>, edges: Edges<string>, cycles: seq<seq<string>>, c: seq<string>, v: string)
    requires Covered(nodes, edges, cycles, v)
    ensures Covered(nodes, edges, cycles + [c], v)
  {
    var d :| d in cycles && Lists(nodes, edges, d, v);
    assert d in cycles + [c];
  }

  lemma CoverMember(nodes: set<string>, edges: Edges<string>, cycles: seq<seq<string>>, t: string, c: seq<string>,
                    v: string)
    requires Lists(nodes, edges, c, t) && v in Component(nodes, edges, t)
    ensures Covered(nodes, edges, cycles + [c], v)
    ensures NonTrivial(nodes, edges, t) <==> NonTrivial(nodes, edges, v)
  {
    ComponentOfMember(nodes, edges, t, v);
    assert c in cycles + [c] && Lists(nodes, edges, c, v);
  }

  lemma CollectMore(nodes: set<string>, edges: Edges<string>, done: set<string>, cycles: seq<seq<string>>,
                    members: set<string>, c: seq<string>)
    requires Collected(nodes, edges, done, cycles) && c !in cycles && CycleWithin(nodes, edges, members, c)
    requires forall v {:trigger Covered(nodes, edges, cycles + [c], v)} ::
               v in members ==> Covered(nodes, edges, cycles + [c], v)
    ensures Collected(nodes, edges, done + members, cycles + [c])
  {
    var after, all := cycles + [c], done + members;
    forall d | d in after ensures CycleWithin(nodes, edges, all, d) {
      if d in cycles {
        assert CycleWithin(nodes, edges, done, d);
        CollectWithin(nodes, edges, done, all, d);
      } else {
        CollectWithin(nodes, edges, members, all, c);
      }
    }
    forall v | v in all && NonTrivial(nodes, edges, v) ensures Covered(nodes, edges, after, v) {
      if v in done {
        assert Covered(nodes, edges, cycles, v);
        CoverStays(nodes, edges, cycles, c, v);
      }
    }
  }

  /** Closing one more component extends the collection by its cycle, if it is one. */
  lemma CollectComponent(nodes: set<string>, edges: Edges<string>, done: set<string>, cycles: seq<seq<string>>,
                         t: string, c: seq<string>, members: set<string>)
    requires Collected(nodes, edges, done, cycles) && done <= nodes && t in nodes
    requires members == Component(nodes, edges, t) && Lists(nodes, edges, c, t) && members !! done
    ensures NonTrivial(nodes, edges, t) ==> Collected(nodes, edges, done + members, cycles + [c])
    ensures !NonTrivial(nodes, edges, t) ==> Collected(nodes, edges, done + members, cycles)
  {
    SelfInComponent(nodes, edges, t);
    forall v | v in members
      ensures NonTrivial(nodes, edges, t) <==> NonTrivial(nodes, edges, v)
      ensures Covered(nodes, edges, cycles + [c], v)
    {
      CoverMember(nodes, edges, cycles, t, c, v);
    }
    if NonTrivial(nodes, edges, t) {
      NewCycle(nodes, edges, done, cycles, t, c);
      assert CycleThrough(nodes, edges, c, t);
      CollectMore(nodes, edges, done, cycles, members, c);
    } else {
      forall d | d in cycles ensures CycleWithin(nodes, edges, done + members, d) {
        assert CycleWithin(nodes, edges, done, d);
        CollectWithin(nodes, edges, done, done + members, d);
      }
    }
  }

  lemma NewCycle(nodes: set<string>, edges: Edges<string>, done: set<string>, cycles: seq<seq<string>>,
                 t: string, c: seq<string>)
    requires Collected(nodes, edges, done, cycles) && done <= nodes
    requires Lists(nodes, edges, c, t) && Component(nodes, edges, t) !! done
    ensures c !in cycles
  {
    if CycleWithin(nodes, edges, done, c) {
      var v :| v in done && CycleThrough(nodes, edges, c, v);
      SelfInComponent(nodes, edges, v);
    }
  }

  lemma ByFirstMemberIsTotalPreorder()
    ensures TotalPreorder(ByFirstMember)
  {
    forall c, d ensures ByFirstMember(c, d) || ByFirstMember(d, c) { StrLeTotal(FirstMember(c), FirstMember(d)); }
    forall c, d, e | ByFirstMember(c, d) && ByFirstMember(d, e) ensures ByFirstMember(c, e) {
      StrLeTransitive(FirstMember(c), FirstMember(d), FirstMember(e));
    }
  }

  /** What is collected does not depend on the order of the list. */
  lemma CollectedInAnyOrder(nodes: set<string>, edges: Edges<string>, done: set<string>, cycles: seq<seq<string>>,
                            r: seq<seq<string>>)
    requires Collected(nodes, edges, done, cycles) && Distinct(r) && forall c :: c in r <==> c in cycles
    ensures Collected(nodes, edges, done, r)
  {
    hide CycleWithin, NonTrivial, Lists, Distinct;
    forall v | v in done && NonTrivial(nodes, edges, v) ensures Covered(nodes, edges, r, v) {
      assert Covered(nodes, edges, cycles, v);
      var c :| c in cycles && Lists(nodes, edges, c, v);
      assert c in r;
    }
  }

  /** Sorting the collected cycles by first member gives the report. */
  lemma SortedIsReport(nodes: set<string>, edges: Edges<string>, cycles: seq<seq<string>>)
    requires Collected(nodes, edges, nodes, cycles)
    ensures Report(nodes, edges, Sort(cycles, ByFirstMember))
  {
    hide CycleWithin, Covered, NonTrivial, Sort;
    var r := Sort(cycles, ByFirstMember);
    SortPermutes(cycles, ByFirstMember);
    DistinctMultiplicity(cycles);
    DistinctMultiplicity(r);
    ByFirstMemberIsTotalPreorder();
    SortOrders(cycles, ByFirstMember);
    CollectedInAnyOrder(nodes, edges, nodes, cycles, r);
    forall i, j | 0 <= i < j < |r| ensures StrLess(FirstMember(r[i]), FirstMember(r[j])) {
      assert ByFirstMember(r[i], r[j]) && r[i] != r[j];
      assert r[i] in cycles && r[j] in cycles;
      FirstMembersDiffer(nodes, edges, r[i], r[j]);
    }
  }

  lemma FirstMembersDiffer(nodes: set<string>, edges: Edges<string>, c: seq<string>, d: seq<string>)
    requires CycleWithin(nodes, edges, nodes, c) && CycleWithin(nodes, edges, nodes, d) && c != d
    ensures FirstMember(c) != FirstMember(d)
  {
    assert IsCycle(nodes, edges, c) && IsCycle(nodes, edges, d);
    CycleNotEmpty(nodes, edges, c);
    CycleNotEmpty(nodes, edges, d);
    if FirstMember(c) == FirstMember(d) { CyclesDisjoint(nodes, edges, c, d, FirstMember(c)); }
  }

  ghost function FirstMembers(cycles: seq<seq<string>>): (r: seq<string>)
    ensures |r| == |cycles|
  {
    seq(|cycles|, i requires 0 <= i < |cycles| => FirstMember(cycles[i]))
  }

  lemma ReportMembersAgree(nodes: set<string>, edges: Edges<string>, a: seq<seq<string>>, b: seq<seq<string>>,
                           c: seq<string>)
    requires Report(nodes, edges, a) && Report(nodes, edges, b) && c in a
    ensures c in b
  {
    assert CycleWithin(nodes, edges, nodes, c);
    var v :| v in nodes && CycleThrough(nodes, edges, c, v);
    assert Covered(nodes, edges, b, v);
    var d :| d in b && Lists(nodes, edges, d, v);
    AscendingUnique(c, d);
  }

  /** The graph alone determines the report: iteration order cannot show in it. */
  lemma ReportUnique(nodes: set<string>, edges: Edges<string>, a: seq<seq<string>>, b: seq<seq<string>>)
    requires Report(nodes, edges, a) && Report(nodes, edges, b)
    ensures a == b
  {
    var fa, fb := FirstMembers(a), FirstMembers(b);
    forall x | x in fa ensures x in fb {
      var i :| 0 <= i < |fa| && fa[i] == x;
      ReportMembersAgree(nodes, edges, a, b, a[i]);
      var j :| 0 <= j < |b| && b[j] == a[i];
      assert fb[j] == x;
    }
    forall x | x in fb ensures x in fa {
      var i :| 0 <= i < |fb| && fb[i] == x;
      ReportMembersAgree(nodes, edges, b, a, b[i]);
      var j :| 0 <= j < |a| && a[j] == b[i];
      assert fa[j] == x;
    }
    AscendingUnique(fa, fb);
    forall i | 0 <= i < |a| ensures a[i] == b[i] {
      ReportMembersAgree(nodes, edges, a, b, a[i]);
      var j :| 0 <= j < |b| && b[j] == a[i];
      assert fa[i] == fb[i] && fb[j] == fa[i];
      assert i == j;
    }
  }

  /** Every cycle of a report is complete, and no two share a file. */
  lemma ReportDisjoint(nodes: set<string>, edges: Edges<string>, cycles: seq<seq<string>>, i: int, j: int, x: string)
    requires Report(nodes, edges, cycles) && 0 <= i < |cycles| && 0 <= j < |cycles|
    requires x in cycles[i] && x in cycles[j]
    ensures i == j
    ensures Elements(cycles[i]) == Component(nodes, edges, x)
  {
    assert cycles[i] in cycles && cycles[j] in cycles;
    assert CycleWithin(nodes, edges, nodes, cycles[i]) && CycleWithin(nodes, edges, nodes, cycles[j]);
    var v :| v in nodes && CycleThrough(nodes, edges, cycles[i], v);
    assert IsCycle(nodes, edges, cycles[i]) && IsCycle(nodes, edges, cycles[j]);
    CyclesDisjoint(nodes, edges, cycles[i], cycles[j], x);
    assert x in Elements(cycles[i]);
    ComponentOfMember(nodes, edges, v, x);
  }
}
