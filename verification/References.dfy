/** What a deferred reference means, told by the symbols that qualify for it. */
module References {
  import opened Wrappers
  import opened Facts
  import opened ModulePaths
  import opened Indexer
  import opened IndexFile

  ghost predicate Defines(syms: Symbols, id: SymbolId, kind: string, qualname: string, modulePath: string) {
    id in syms && syms[id].kind == kind && syms[id].qualname == qualname
    && ModulePathMatches(syms[id].path, modulePath)
  }

  /** A class of that name in a matching file, and a method of it in the same file. */
  ghost predicate BaseDefines(syms: Symbols, base: SymbolId, id: SymbolId, modulePath: string, baseName: string,
                              methodName: string) {
    && Defines(syms, base, "class", baseName, modulePath)
    && id in syms && syms[id].kind == "method" && syms[id].qualname == baseName + "." + methodName
    && syms[id].path == syms[base].path
  }

  /**
   The symbol may be meant, by way of `via`: the base class for a method of an imported base, else
   the symbol itself. A plain call means a function of the module it was imported from, a call
   through an imported name a function of the submodule of that name.
   */
  ghost predicate Qualifies(syms: Symbols, d: Deferred, via: SymbolId, id: SymbolId) {
    match d
    case Call(_, modulePath, name, None) => via == id && Defines(syms, id, "function", name, modulePath)
    case Call(_, modulePath, name, Some(attribute)) =>
      via == id && Defines(syms, id, "function", attribute, modulePath + "." + name)
    case Inherit(_, modulePath, name) => via == id && Defines(syms, id, "class", name, modulePath)
    case Override(_, modulePath, baseName, methodName) => BaseDefines(syms, via, id, modulePath, baseName, methodName)
    case SelfCall(_, Some((modulePath, baseName)), methodName) =>
      BaseDefines(syms, via, id, modulePath, baseName, methodName)
    case SelfCall(_, None, _) => false
  }

  /** A relation of the reference's kind from its source and place. */
  ghost predicate RefersFrom(d: Deferred, k: RelationKey) {
    && k.source == d.origin.source && k.siteFile == d.origin.siteFile
    && k.siteLine == d.origin.siteLine && k.siteCol == d.origin.siteCol
    && k.predicate_ == match d
                       case Call(_, _, _, _) => "calls"
                       case Inherit(_, _, _) => "inherits"
                       case Override(_, _, _, _) => "overrides"
                       case SelfCall(_, _, _) => "calls"
  }

  ghost predicate AtMostOne(syms: Symbols, d: Deferred) {
    forall v, id, w, other :: Qualifies(syms, d, v, id) && Qualifies(syms, d, w, other) ==> v == w && id == other
  }

  /** What a reference contributes: one relation per qualifying symbol, certain if only one qualifies. */
  ghost predicate Contributes(syms: Symbols, d: Deferred, k: RelationKey, c: RelationContent) {
    && RefersFrom(d, k) && (exists via :: Qualifies(syms, d, via, k.target))
    && c.provider == d.origin.provider && c.version == d.origin.version
    && c.confidence == if AtMostOne(syms, d) then EXTRACTED else AMBIGUOUS
  }

  /** Calling through an imported submodule means what importing the function from it and calling it means. */
  lemma ThroughSubmodule(syms: Symbols, o: Origin, modulePath: string, name: string, attribute: string)
    ensures Resolve(syms, Call(o, modulePath, name, Some(attribute))) ==
            Resolve(syms, Call(o, modulePath + "." + name, attribute, None))
  {
  }

  lemma OneElement<T>(s: set<T>, x: T)
    requires x in s
    ensures |s| == 1 <==> forall y, z :: y in s && z in s ==> y == z
  {
    if |s| == 1 {
      assert |s - {x}| == 0;
      forall y, z | y in s && z in s ensures y == z {
        assert y !in s - {x} && z !in s - {x};
      }
    }
    if forall y, z :: y in s && z in s ==> y == z {
      assert s == {x};
    }
  }

  lemma Emitted(o: Origin, predicate_: string, targets: set<SymbolId>, count: nat, k: RelationKey)
    ensures k in Emit(o, predicate_, targets, count) <==>
            && k.target in targets && k.source == o.source && k.siteFile == o.siteFile
            && k.siteLine == o.siteLine && k.siteCol == o.siteCol && k.predicate_ == predicate_
    ensures k in Emit(o, predicate_, targets, count) ==>
              Emit(o, predicate_, targets, count)[k] ==
              RelationContent(if count == 1 then EXTRACTED else AMBIGUOUS, o.provider, o.version)
  {
    EmittedKey(o, predicate_, targets, count, k);
  }

  /** The candidates of a reference that names its target directly. */
  lemma DirectlyNamed(syms: Symbols, d: Deferred, found: set<SymbolId>, k: RelationKey)
    requires forall id :: id in found <==> Qualifies(syms, d, id, id)
    requires forall via, id :: Qualifies(syms, d, via, id) ==> via == id
    ensures k.target in found <==> exists via :: Qualifies(syms, d, via, k.target)
    ensures k.target in found ==> (|found| == 1 <==> AtMostOne(syms, d))
  {
    hide Qualifies;
    if k.target in found {
      OneElement(found, k.target);
      if AtMostOne(syms, d) {
        forall y, z | y in found && z in found ensures y == z {
          assert Qualifies(syms, d, y, y) && Qualifies(syms, d, z, z);
        }
      }
    }
  }

  /** The candidates of a reference to a method of an imported base. */
  lemma ByWayOfBase(syms: Symbols, d: Deferred, found: set<(SymbolId, SymbolId)>, k: RelationKey)
    requires forall via, id :: (via, id) in found <==> Qualifies(syms, d, via, id)
    ensures k.target in Targets(found) <==> exists via :: Qualifies(syms, d, via, k.target)
    ensures k.target in Targets(found) ==> (|found| == 1 <==> AtMostOne(syms, d))
  {
    hide Qualifies;
    if k.target in Targets(found) {
      var p :| p in found && p.1 == k.target;
      assert (p.0, k.target) in found;
      OneElement(found, p);
      if AtMostOne(syms, d) {
        forall y, z | y in found && z in found ensures y == z {
          assert (y.0, y.1) in found && (z.0, z.1) in found;
          assert Qualifies(syms, d, y.0, y.1) && Qualifies(syms, d, z.0, z.1);
        }
      } else {
        var v, id, w, other :| Qualifies(syms, d, v, id) && Qualifies(syms, d, w, other) && (v != w || id != other);
        assert (v, id) in found && (w, other) in found;
      }
    }
    if via :| Qualifies(syms, d, via, k.target) { assert (via, k.target) in found; }
  }

  lemma CandidateQualifies(syms: Symbols, qualname: string, kind: string, modulePath: string, id: SymbolId)
    ensures id in Candidates(syms, qualname, kind, modulePath) <==> Defines(syms, id, kind, qualname, modulePath)
  {
  }

  lemma BaseMethodQualifies(syms: Symbols, modulePath: string, baseName: string, methodName: string, b: SymbolId,
                            id: SymbolId)
    ensures (b, id) in BaseMethods(syms, modulePath, baseName, methodName) <==>
            BaseDefines(syms, b, id, modulePath, baseName, methodName)
  {
    CandidateQualifies(syms, baseName, "class", modulePath, b);
    hide Candidates, ModulePathMatches;
  }

  /** For each kind of reference: which relations it resolves to, and how certain they are. */
  lemma ResolvesExactly(syms: Symbols, d: Deferred, k: RelationKey)
    ensures k in Resolve(syms, d) <==> RefersFrom(d, k) && exists via :: Qualifies(syms, d, via, k.target)
    ensures k in Resolve(syms, d) ==> Contributes(syms, d, k, Resolve(syms, d)[k])
  {
    match d
    case Call(_, _, _, None) => PlainCallResolves(syms, d, k);
    case Call(_, _, _, Some(_)) => AttributeCallResolves(syms, d, k);
    case Inherit(_, _, _) => InheritResolves(syms, d, k);
    case Override(_, _, _, _) => OverrideResolves(syms, d, k);
    case SelfCall(_, Some(_), _) => SelfCallResolves(syms, d, k);
    case SelfCall(_, None, _) =>
  }

  ghost predicate ResolvesAt(syms: Symbols, d: Deferred, k: RelationKey) {
    && (k in Resolve(syms, d) <==> RefersFrom(d, k) && exists via :: Qualifies(syms, d, via, k.target))
    && (k in Resolve(syms, d) ==> Contributes(syms, d, k, Resolve(syms, d)[k]))
  }

  lemma PlainCallResolves(syms: Symbols, d: Deferred, k: RelationKey)
    requires d.Call? && d.attribute.None?
    ensures ResolvesAt(syms, d, k)
  {
    var c := Candidates(syms, d.name, "function", d.modulePath);
    forall id ensures id in c <==> Qualifies(syms, d, id, id) {
      CandidateQualifies(syms, d.name, "function", d.modulePath, id);
    }
    DirectlyNamed(syms, d, c, k);
    Emitted(d.origin, "calls", c, |c|, k);
    hide Candidates, Emit, Qualifies, AtMostOne;
  }

  lemma AttributeCallResolves(syms: Symbols, d: Deferred, k: RelationKey)
    requires d.Call? && d.attribute.Some?
    ensures ResolvesAt(syms, d, k)
  {
    var c := Candidates(syms, d.attribute.value, "function", d.modulePath + "." + d.name);
    forall id ensures id in c <==> Qualifies(syms, d, id, id) {
      CandidateQualifies(syms, d.attribute.value, "function", d.modulePath + "." + d.name, id);
    }
    DirectlyNamed(syms, d, c, k);
    Emitted(d.origin, "calls", c, |c|, k);
    hide Candidates, Emit, Qualifies, AtMostOne;
  }

  lemma InheritResolves(syms: Symbols, d: Deferred, k: RelationKey)
    requires d.Inherit?
    ensures ResolvesAt(syms, d, k)
  {
    var c := Candidates(syms, d.name, "class", d.modulePath);
    forall id ensures id in c <==> Qualifies(syms, d, id, id) {
      CandidateQualifies(syms, d.name, "class", d.modulePath, id);
    }
    DirectlyNamed(syms, d, c, k);
    Emitted(d.origin, "inherits", c, |c|, k);
    hide Candidates, Emit, Qualifies, AtMostOne;
  }

  lemma OverrideResolves(syms: Symbols, d: Deferred, k: RelationKey)
    requires d.Override?
    ensures ResolvesAt(syms, d, k)
  {
    var m := BaseMethods(syms, d.modulePath, d.baseName, d.methodName);
    forall b, id ensures (b, id) in m <==> Qualifies(syms, d, b, id) {
      BaseMethodQualifies(syms, d.modulePath, d.baseName, d.methodName, b, id);
    }
    ByWayOfBase(syms, d, m, k);
    Emitted(d.origin, "overrides", Targets(m), |m|, k);
    hide BaseMethods, Emit, Qualifies, AtMostOne, Targets;
  }

  lemma SelfCallResolves(syms: Symbols, d: Deferred, k: RelationKey)
    requires d.SelfCall? && d.importedBase.Some?
    ensures ResolvesAt(syms, d, k)
  {
    var (modulePath, baseName) := d.importedBase.value;
    var m := BaseMethods(syms, modulePath, baseName, d.methodName);
    forall b, id ensures (b, id) in m <==> Qualifies(syms, d, b, id) {
      BaseMethodQualifies(syms, modulePath, baseName, d.methodName, b, id);
    }
    ByWayOfBase(syms, d, m, k);
    Emitted(d.origin, "calls", Targets(m), |m|, k);
    hide BaseMethods, Emit, Qualifies, AtMostOne, Targets;
  }

  // ----- how many relations a reference gives -----

  ghost function Pairs(syms: Symbols, d: Deferred): set<(SymbolId, SymbolId)> {
    set via, id | via in syms && id in syms && Qualifies(syms, d, via, id) :: (via, id)
  }

  ghost function Doubled(ids: set<SymbolId>): set<(SymbolId, SymbolId)> {
    set id | id in ids :: (id, id)
  }

  lemma {:induction false} DoubledSize(ids: set<SymbolId>)
    ensures |Doubled(ids)| == |ids|
  {
    if ids != {} {
      var x :| x in ids;
      DoubledSize(ids - {x});
      assert Doubled(ids) == Doubled(ids - {x}) + {(x, x)};
    }
  }

  lemma DirectPairs(syms: Symbols, d: Deferred, found: set<SymbolId>)
    requires forall id :: id in found <==> Qualifies(syms, d, id, id)
    requires forall via, id :: Qualifies(syms, d, via, id) ==> via == id && id in syms
    ensures |Pairs(syms, d)| == |found|
  {
    hide Qualifies;
    forall p ensures p in Pairs(syms, d) <==> p in Doubled(found) { assert p == (p.0, p.1); }
    assert Pairs(syms, d) == Doubled(found);
    DoubledSize(found);
  }

  /** The relations written for a reference are as many as there are ways to qualify for it. */
  lemma CountsQualifying(syms: Symbols, d: Deferred)
    ensures CandidateCount(syms, d) == |Pairs(syms, d)|
  {
    hide Candidates, BaseMethods, ModulePathMatches;
    match d
    case Call(_, modulePath, name, None) =>
      forall id { CandidateQualifies(syms, name, "function", modulePath, id); }
      DirectPairs(syms, d, Candidates(syms, name, "function", modulePath));
    case Call(_, modulePath, name, Some(attribute)) =>
      forall id { CandidateQualifies(syms, attribute, "function", modulePath + "." + name, id); }
      DirectPairs(syms, d, Candidates(syms, attribute, "function", modulePath + "." + name));
    case Inherit(_, modulePath, name) =>
      forall id { CandidateQualifies(syms, name, "class", modulePath, id); }
      DirectPairs(syms, d, Candidates(syms, name, "class", modulePath));
    case Override(_, modulePath, baseName, methodName) =>
      BasePairs(syms, d, modulePath, baseName, methodName);
    case SelfCall(_, Some((modulePath, baseName)), methodName) =>
      BasePairs(syms, d, modulePath, baseName, methodName);
    case SelfCall(_, None, _) =>
      assert Pairs(syms, d) == {};
  }

  lemma BasePairs(syms: Symbols, d: Deferred, modulePath: string, baseName: string, methodName: string)
    requires forall via, id ::
               Qualifies(syms, d, via, id) <==> BaseDefines(syms, via, id, modulePath, baseName, methodName)
    ensures Pairs(syms, d) == BaseMethods(syms, modulePath, baseName, methodName)
  {
    var m := BaseMethods(syms, modulePath, baseName, methodName);
    forall p ensures p in Pairs(syms, d) <==> p in m {
      assert p == (p.0, p.1);
      BaseMethodQualifies(syms, modulePath, baseName, methodName, p.0, p.1);
    }
  }

  // ----- all the references of a file -----

  lemma {:induction false} CallsWhereExactly(calls: seq<Deferred>, attribute: bool, d: Deferred)
    ensures d in CallsWhere(calls, attribute) <==> d in calls && d.Call? && d.attribute.Some? == attribute
  {
    if calls != [] {
      CallsWhereExactly(calls[..|calls| - 1], attribute, d);
      assert calls == calls[..|calls| - 1] + [calls[|calls| - 1]];
    }
  }

  ghost predicate Mentions(ex: Extraction, d: Deferred) {
    (d in ex.calls && d.Call?) || d in ex.inherits || d in ex.overrides || d in ex.selfCalls
  }

  lemma ItemsExactly(ex: Extraction, d: Deferred)
    ensures d in Items(ex) <==> Mentions(ex, d)
  {
    CallsWhereExactly(ex.calls, false, d);
    CallsWhereExactly(ex.calls, true, d);
    hide CallsWhere;
  }

  lemma {:induction false} ResolveAllExactly(syms: Symbols, items: seq<Deferred>, k: RelationKey)
    ensures k in ResolveAll(syms, items) <==> exists d :: d in items && k in Resolve(syms, d)
    ensures k in ResolveAll(syms, items) ==>
              Resolved(syms, items, Claim(k, ResolveAll(syms, items)[k]))
  {
    hide Resolve;
    if items != [] {
      var before, last := items[..|items| - 1], items[|items| - 1];
      ResolveAllExactly(syms, before, k);
      assert items == before + [last];
      if k in Resolve(syms, last) {
        assert last in items && Held(Resolve(syms, last), Claim(k, ResolveAll(syms, items)[k]));
      } else if k in ResolveAll(syms, before) {
        var d :| d in before && Held(Resolve(syms, d), Claim(k, ResolveAll(syms, before)[k]));
        assert d in items;
      }
    }
  }

  /** Some reference of the file resolves to the relation. */
  ghost predicate Deferredly(ex: Extraction, syms: Symbols, k: RelationKey) {
    exists d, via :: Mentions(ex, d) && RefersFrom(d, k) && Qualifies(syms, d, via, k.target)
  }

  ghost predicate Extracted(ex: Extraction, k: RelationKey) {
    exists c :: c in ex.relations && c.key == k
  }

  /**
   The relations a file has: exactly those extracted from it, and for each of its references, of
   whatever kind, those to the symbols that qualify; each with what the extractor or a reference says.
   */
  lemma NewRelationsExactly(ex: Extraction, syms: Symbols, k: RelationKey)
    ensures k in NewRelations(ex, syms) <==> Extracted(ex, k) || Deferredly(ex, syms, k)
    ensures k in NewRelations(ex, syms) ==>
              || Claim(k, NewRelations(ex, syms)[k]) in ex.relations
              || exists d :: Mentions(ex, d) && Contributes(syms, d, k, NewRelations(ex, syms)[k])
  {
    hide Resolve, Items, Qualifies, ClaimMap;
    ClaimMapKeys(ex.relations, k);
    ResolveAllExactly(syms, Items(ex), k);
    if k in ResolveAll(syms, Items(ex)) {
      var d :| d in Items(ex) && Held(Resolve(syms, d), Claim(k, ResolveAll(syms, Items(ex))[k]));
      ItemsExactly(ex, d);
      ResolvesExactly(syms, d, k);
    }
    if Deferredly(ex, syms, k) {
      var d, via :| Mentions(ex, d) && RefersFrom(d, k) && Qualifies(syms, d, via, k.target);
      ItemsExactly(ex, d);
      ResolvesExactly(syms, d, k);
    }
  }
}
