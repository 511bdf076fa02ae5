/**
 Which top-level classes of a file count as Protocol or ABC classes: those that name the marker
 themselves, and those whose bases lead to such a class by name.
 */
module ClassContexts {

  /** A class definition: its name, the names of its bases, and whether its metaclass is `ABCMeta`. */
  datatype ClassDef = ClassDef(name: string, bases: set<string>, abcMeta: bool)

  datatype Context = Context(isProtocol: bool, isAbc: bool)

  datatype Marker = Protocol | Abc

  /** The class names the marker among its bases, or its metaclass makes it an ABC. */
  ghost predicate Seeded(c: ClassDef, marker: Marker) {
    match marker
    case Protocol => "Protocol" in c.bases
    case Abc => "ABC" in c.bases || c.abcMeta
  }

  predicate Has(context: Context, marker: Marker) {
    match marker case Protocol => context.isProtocol case Abc => context.isAbc
  }

  // ----- what the flags mean -----

  /** Class `i` names a base that some class called so, possibly one of several, could be. */
  ghost predicate Extends(classes: seq<ClassDef>, i: nat, j: nat) {
    i < |classes| && j < |classes| && classes[j].name in classes[i].bases
  }

  /** Base edges lead from `i` along the chain to a seeded class. */
  ghost predicate Chain(classes: seq<ClassDef>, marker: Marker, p: seq<nat>, i: nat) {
    && |p| > 0 && p[0] == i && p[|p| - 1] < |classes| && Seeded(classes[p[|p| - 1]], marker)
    && forall a, b {:trigger p[a], p[b]} :: 0 <= a && b == a + 1 && b < |p| ==> Extends(classes, p[a], p[b])
  }

  ghost predicate Derives(classes: seq<ClassDef>, marker: Marker, i: nat) {
    exists p :: Chain(classes, marker, p, i)
  }

  // ----- rounds -----

  ghost function Names(classes: seq<ClassDef>, flagged: set<nat>): set<string> {
    set i | i in flagged && i < |classes| :: classes[i].name
  }

  /** One more round: also the classes with a base name among the names of those flagged. */
  ghost function Step(classes: seq<ClassDef>, before: set<nat>): set<nat> {
    before + set i | 0 <= i < |classes| && Names(classes, before) * classes[i].bases != {}
  }

  /** The classes flagged after `k` rounds. */
  ghost function Flagged(classes: seq<ClassDef>, marker: Marker, k: nat): (s: set<nat>)
    ensures forall i :: i in s ==> i < |classes|
  {
    if k == 0 then set i | 0 <= i < |classes| && Seeded(classes[i], marker)
    else Step(classes, Flagged(classes, marker, k - 1))
  }

  lemma FlaggedStep(classes: seq<ClassDef>, marker: Marker, k: nat)
    ensures Flagged(classes, marker, k + 1) == Step(classes, Flagged(classes, marker, k))
  {
  }

  lemma FlaggedNext(classes: seq<ClassDef>, marker: Marker, k: nat, i: nat)
    ensures i in Flagged(classes, marker, k + 1) <==>
            i in Flagged(classes, marker, k) || exists j :: j in Flagged(classes, marker, k) && Extends(classes, i, j)
  {
    var before := Flagged(classes, marker, k);
    FlaggedStep(classes, marker, k);
    hide Flagged;
    if i < |classes| && Names(classes, before) * classes[i].bases != {} {
      var n :| n in Names(classes, before) * classes[i].bases;
      var j :| j in before && j < |classes| && classes[j].name == n;
      assert Extends(classes, i, j);
    }
    if j :| j in before && Extends(classes, i, j) {
      assert classes[j].name in Names(classes, before) * classes[i].bases;
    }
  }

  lemma {:induction false} FlaggedDerives(classes: seq<ClassDef>, marker: Marker, k: nat, i: nat)
    requires i in Flagged(classes, marker, k)
    ensures Derives(classes, marker, i)
    decreases k
  {
    hide Flagged, Extends, Derives;
    if k == 0 {
      SeedDerives(classes, marker, i);
    } else {
      FlaggedNext(classes, marker, k - 1, i);
      if i in Flagged(classes, marker, k - 1) {
        FlaggedDerives(classes, marker, k - 1, i);
      } else {
        var j :| j in Flagged(classes, marker, k - 1) && Extends(classes, i, j);
        FlaggedDerives(classes, marker, k - 1, j);
        ChainPrepend(classes, marker, i, j);
      }
    }
  }

  lemma SeedDerives(classes: seq<ClassDef>, marker: Marker, i: nat)
    requires i in Flagged(classes, marker, 0)
    ensures Derives(classes, marker, i)
  {
    assert Chain(classes, marker, [i], i);
  }

  lemma ChainPrepend(classes: seq<ClassDef>, marker: Marker, i: nat, j: nat)
    requires Extends(classes, i, j) && Derives(classes, marker, j)
    ensures Derives(classes, marker, i)
  {
    hide Extends;
    var p :| Chain(classes, marker, p, j);
    assert Chain(classes, marker, [i] + p, i);
  }

  lemma {:induction false} ChainFlagged(classes: seq<ClassDef>, marker: Marker, p: seq<nat>, i: nat)
    requires Chain(classes, marker, p, i)
    ensures i in Flagged(classes, marker, |p| - 1)
    decreases |p|
  {
    if |p| > 1 {
      hide Flagged, Extends;
      assert Extends(classes, p[0], p[1]);
      assert Chain(classes, marker, p[1..], p[1]);
      ChainFlagged(classes, marker, p[1..], p[1]);
      FlaggedNext(classes, marker, |p| - 2, i);
    }
  }

  // ----- as many rounds as classes suffice -----

  lemma {:induction false} StaysStable(classes: seq<ClassDef>, marker: Marker, a: nat, b: nat)
    requires a <= b && Flagged(classes, marker, a + 1) == Flagged(classes, marker, a)
    ensures Flagged(classes, marker, b) == Flagged(classes, marker, a)
    decreases b
  {
    hide Flagged, Step;
    if a < b {
      StaysStable(classes, marker, a, b - 1);
      FlaggedStep(classes, marker, a);
      FlaggedStep(classes, marker, b - 1);
    }
  }

  /** Until it is stable, a round flags at least one more class. */
  lemma {:induction false} GrowsOrStable(classes: seq<ClassDef>, marker: Marker, k: nat)
    ensures Flagged(classes, marker, k + 1) == Flagged(classes, marker, k) || |Flagged(classes, marker, k + 1)| > k
    decreases k
  {
    hide Flagged;
    var before, after := Flagged(classes, marker, k), Flagged(classes, marker, k + 1);
    assert before <= after by { FlaggedGrows(classes, marker, k); }
    if before != after {
      StrictlyMore(before, after);
      if k > 0 {
        GrowsOrStable(classes, marker, k - 1);
        if Flagged(classes, marker, k) == Flagged(classes, marker, k - 1) {
          StaysStable(classes, marker, k - 1, k + 1);
        }
      }
    }
  }

  lemma FlaggedGrows(classes: seq<ClassDef>, marker: Marker, k: nat)
    ensures Flagged(classes, marker, k) <= Flagged(classes, marker, k + 1)
  {
  }

  lemma StrictlyMore(a: set<nat>, b: set<nat>)
    requires a < b
    ensures |a| < |b|
  {
    assert b == a + (b - a);
  }

  lemma {:induction false} BoundedSet(s: set<nat>, n: nat)
    requires forall i :: i in s ==> i < n
    ensures |s| <= n
  {
    if n > 0 {
      BoundedSet(s - {n - 1}, n - 1);
      assert s <= (s - {n - 1}) + {n - 1};
      if n - 1 in s { assert |s - {n - 1}| == |s| - 1; } else { assert s - {n - 1} == s; }
    } else {
      assert s == {};
    }
  }

  lemma StableAfterAll(classes: seq<ClassDef>, marker: Marker, k: nat)
    requires k >= |classes|
    ensures Flagged(classes, marker, k) == Flagged(classes, marker, |classes|)
  {
    hide Flagged;
    var n := |classes|;
    GrowsOrStable(classes, marker, n);
    BoundedSet(Flagged(classes, marker, n + 1), n);
    StaysStable(classes, marker, n, k);
  }

  /** Once stable, or after as many rounds as there are classes, the flags are the least fixed point. */
  lemma FixedPoint(classes: seq<ClassDef>, marker: Marker, k: nat, i: nat)
    requires Flagged(classes, marker, k + 1) == Flagged(classes, marker, k) || k >= |classes|
    ensures i in Flagged(classes, marker, k) <==> Derives(classes, marker, i)
  {
    hide Flagged;
    if i in Flagged(classes, marker, k) { FlaggedDerives(classes, marker, k, i); }
    if Derives(classes, marker, i) {
      var p :| Chain(classes, marker, p, i);
      ChainFlagged(classes, marker, p, i);
      if Flagged(classes, marker, k + 1) == Flagged(classes, marker, k) {
        if k <= |p| - 1 {
          StaysStable(classes, marker, k, |p| - 1);
        } else {
          FlaggedMonotone(classes, marker, |p| - 1, k);
        }
      } else {
        StableAfterAll(classes, marker, k);
        FlaggedMonotone(classes, marker, |p| - 1, |p| - 1 + k);
        StableAfterAll(classes, marker, |p| - 1 + k);
      }
    }
  }

  lemma {:induction false} FlaggedMonotone(classes: seq<ClassDef>, marker: Marker, a: nat, b: nat)
    requires a <= b
    ensures Flagged(classes, marker, a) <= Flagged(classes, marker, b)
    decreases b
  {
    hide Flagged;
    if a < b {
      FlaggedMonotone(classes, marker, a, b - 1);
      FlaggedGrows(classes, marker, b - 1);
    }
  }

  // ----- the loop -----

  ghost predicate AfterRounds(classes: seq<ClassDef>, contexts: seq<Context>, k: nat) {
    |contexts| == |classes| && forall i, m: Marker {:trigger Has(contexts[i], m)} ::
      0 <= i < |classes| ==> (Has(contexts[i], m) <==> i in Flagged(classes, m, k))
  }

  lemma RoundFlags(classes: seq<ClassDef>, contexts: seq<Context>, k: nat, i: nat, c: Context)
    requires AfterRounds(classes, contexts, k) && i < |classes|
    requires c == Context(contexts[i].isProtocol
                          || Names(classes, Flagged(classes, Protocol, k)) * classes[i].bases != {},
                          contexts[i].isAbc || Names(classes, Flagged(classes, Abc, k)) * classes[i].bases != {})
    ensures forall m: Marker :: Has(c, m) <==> i in Flagged(classes, m, k + 1)
  {
    FlaggedStep(classes, Protocol, k);
    FlaggedStep(classes, Abc, k);
    hide Flagged, Names;
    assert Has(contexts[i], Protocol) == contexts[i].isProtocol && Has(contexts[i], Abc) == contexts[i].isAbc;
    forall m: Marker ensures Has(c, m) <==> i in Flagged(classes, m, k + 1) {
      match m case Protocol => case Abc =>
    }
  }

  /** One round: the names are those flagged when it starts. */
  method Round(classes: seq<ClassDef>, contexts: seq<Context>, ghost k: nat)
    returns (updated: seq<Context>, changed: bool)
    requires AfterRounds(classes, contexts, k)
    ensures AfterRounds(classes, updated, k + 1)
    ensures !changed ==> updated == contexts
  {
    hide Flagged, Names;
    var protocolNames := set i | 0 <= i < |classes| && contexts[i].isProtocol :: classes[i].name;
    var abcNames := set i | 0 <= i < |classes| && contexts[i].isAbc :: classes[i].name;
    NamesFlagged(classes, contexts, k, protocolNames, abcNames);
    updated, changed := contexts, false;
    for i := 0 to |classes|
      invariant |updated| == |classes|
      invariant !changed ==> updated == contexts
      invariant forall j :: i <= j < |classes| ==> updated[j] == contexts[j]
      invariant forall j, m: Marker {:trigger Has(updated[j], m)} ::
                0 <= j < i ==> (Has(updated[j], m) <==> j in Flagged(classes, m, k + 1))
    {
      var c := Context(contexts[i].isProtocol || protocolNames * classes[i].bases != {},
                       contexts[i].isAbc || abcNames * classes[i].bases != {});
      assert forall m: Marker :: Has(c, m) <==> i in Flagged(classes, m, k + 1)
        by { RoundFlags(classes, contexts, k, i, c); }
      if c != updated[i] {
        updated, changed := updated[i := c], true;
      }
    }
  }

  lemma NamesFlagged(classes: seq<ClassDef>, contexts: seq<Context>, k: nat, protocolNames: set<string>,
                     abcNames: set<string>)
    requires AfterRounds(classes, contexts, k)
    requires protocolNames == set i | 0 <= i < |classes| && contexts[i].isProtocol :: classes[i].name
    requires abcNames == set i | 0 <= i < |classes| && contexts[i].isAbc :: classes[i].name
    ensures protocolNames == Names(classes, Flagged(classes, Protocol, k))
    ensures abcNames == Names(classes, Flagged(classes, Abc, k))
  {
    forall i | 0 <= i < |classes|
      ensures contexts[i].isProtocol <==> i in Flagged(classes, Protocol, k)
      ensures contexts[i].isAbc <==> i in Flagged(classes, Abc, k)
    {
      assert Has(contexts[i], Protocol) == contexts[i].isProtocol && Has(contexts[i], Abc) == contexts[i].isAbc;
    }
  }

  /**
   At most as many rounds as classes, fewer if a round changes nothing: a class then carries a
   flag if and only if base edges lead from it to a seeded class, duplicate names and cycles included.
   */
  method ClassContexts(classes: seq<ClassDef>) returns (contexts: seq<Context>, rounds: nat)
    ensures |contexts| == |classes| && rounds <= |classes|
    ensures forall i, m: Marker {:trigger Has(contexts[i], m)} ::
              0 <= i < |classes| ==> (Has(contexts[i], m) <==> Derives(classes, m, i))
  {
    hide Flagged, Derives;
    contexts := seq(|classes|, i requires 0 <= i < |classes| =>
                    Context("Protocol" in classes[i].bases, "ABC" in classes[i].bases || classes[i].abcMeta));
    SeedsFirst(classes, contexts);
    rounds := 0;
    var changed := true;
    while rounds < |classes| && changed
      invariant rounds <= |classes|
      invariant AfterRounds(classes, contexts, rounds)
      invariant !changed ==> rounds > 0 && forall m: Marker, k: nat {:trigger Flagged(classes, m, k)} ::
                               k + 1 == rounds ==> Flagged(classes, m, rounds) == Flagged(classes, m, k)
      decreases |classes| - rounds
    {
      ghost var before := contexts;
      contexts, changed := Round(classes, contexts, rounds);
      if !changed { SameContexts(classes, before, rounds); }
      rounds := rounds + 1;
    }
    forall i, m: Marker | 0 <= i < |classes| ensures Has(contexts[i], m) <==> Derives(classes, m, i) {
      if rounds < |classes| { LastRoundIdle(classes, m, rounds); }
      FixedPoint(classes, m, rounds, i);
    }
  }

  lemma LastRoundIdle(classes: seq<ClassDef>, marker: Marker, rounds: nat)
    requires rounds > 0 && Flagged(classes, marker, rounds) == Flagged(classes, marker, rounds - 1)
    ensures Flagged(classes, marker, rounds + 1) == Flagged(classes, marker, rounds)
  {
    hide Flagged;
    StaysStable(classes, marker, rounds - 1, rounds + 1);
  }

  lemma SeedsFirst(classes: seq<ClassDef>, contexts: seq<Context>)
    requires |contexts| == |classes|
    requires forall i :: 0 <= i < |classes| ==>
               contexts[i] == Context("Protocol" in classes[i].bases, "ABC" in classes[i].bases || classes[i].abcMeta)
    ensures AfterRounds(classes, contexts, 0)
  {
  }

  lemma SameContexts(classes: seq<ClassDef>, contexts: seq<Context>, k: nat)
    requires AfterRounds(classes, contexts, k) && AfterRounds(classes, contexts, k + 1)
    ensures forall m: Marker :: Flagged(classes, m, k + 1) == Flagged(classes, m, k)
  {
    forall m: Marker ensures Flagged(classes, m, k + 1) == Flagged(classes, m, k) {
      forall i ensures i in Flagged(classes, m, k + 1) <==> i in Flagged(classes, m, k) {
        if 0 <= i < |classes| { assert Has(contexts[i], m) <==> i in Flagged(classes, m, k); }
      }
    }
  }
}
