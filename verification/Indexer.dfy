/**
 Reconciling the index with one file, as a function of the live contents: deferred references
 are resolved against the symbols known so far, what the file no longer says is dropped, and
 so is every relation to a symbol that went away.
 */
module Indexer {
  import opened Facts
  import opened ModulePaths

  type Symbols = map<SymbolId, SymbolContent>
  type Relations = map<RelationKey, RelationContent>

  /** The live contents of the index. */
  datatype Index = Index(symbols: Symbols, relations: Relations)

  // ----- resolving deferred references -----

  function Candidates(syms: Symbols, qualname: string, kind: string, modulePath: string): set<SymbolId> {
    set id | id in syms && syms[id].qualname == qualname && syms[id].kind == kind
             && ModulePathMatches(syms[id].path, modulePath)
  }

  /** Imported base classes paired with their own methods of the given name, in the same file. */
  function BaseMethods(syms: Symbols, modulePath: string, baseName: string,
                       methodName: string): set<(SymbolId, SymbolId)> {
    set b, m | b in Candidates(syms, baseName, "class", modulePath) && m in syms
               && syms[m].qualname == syms[b].qualname + "." + methodName && syms[m].kind == "method"
               && syms[m].path == syms[b].path :: (b, m)
  }

  function Targets(pairs: set<(SymbolId, SymbolId)>): set<SymbolId> {
    set p | p in pairs :: p.1
  }

  /** One relation per target; a single candidate is certain, several are ambiguous. */
  function Emit(o: Origin, predicate_: string, targets: set<SymbolId>, count: nat): Relations {
    map t | t in targets ::
      KeyAt(o, t, predicate_) := RelationContent(if count == 1 then EXTRACTED else AMBIGUOUS, o.provider, o.version)
  }

  function Resolve(syms: Symbols, d: Deferred): Relations {
    match d
    case Call(o, modulePath, name, None) =>
      var c := Candidates(syms, name, "function", modulePath);
      Emit(o, "calls", c, |c|)
    case Call(o, modulePath, name, Some(attribute)) =>
      var c := Candidates(syms, attribute, "function", modulePath + "." + name);
      Emit(o, "calls", c, |c|)
    case Inherit(o, modulePath, name) =>
      var c := Candidates(syms, name, "class", modulePath);
      Emit(o, "inherits", c, |c|)
    case Override(o, modulePath, baseName, methodName) =>
      var m := BaseMethods(syms, modulePath, baseName, methodName);
      Emit(o, "overrides", Targets(m), |m|)
    case SelfCall(o, Some((modulePath, baseName)), methodName) =>
      var m := BaseMethods(syms, modulePath, baseName, methodName);
      Emit(o, "calls", Targets(m), |m|)
    case SelfCall(_, None, _) => map[]
  }

  function ResolveAll(syms: Symbols, items: seq<Deferred>): Relations {
    if items == [] then map[]
    else ResolveAll(syms, items[..|items| - 1]) + Resolve(syms, items[|items| - 1])
  }

  function ClaimMap<K, C>(claims: seq<Claim<K, C>>): map<K, C> {
    if claims == [] then map[]
    else ClaimMap(claims[..|claims| - 1])[claims[|claims| - 1].key := claims[|claims| - 1].content]
  }

  function CallsWhere(calls: seq<Deferred>, attribute: bool): seq<Deferred> {
    if calls == [] then []
    else
      var c := calls[|calls| - 1];
      CallsWhere(calls[..|calls| - 1], attribute) + (if c.Call? && c.attribute.Some? == attribute then [c] else [])
  }

  /** The deferred references in the order they are resolved. */
  function Items(ex: Extraction): seq<Deferred> {
    CallsWhere(ex.calls, false) + CallsWhere(ex.calls, true) + ex.inherits + ex.overrides + ex.selfCalls
  }

  /** The last-written new relation per key, resolved against the given symbols. */
  function NewRelations(ex: Extraction, syms: Symbols): Relations {
    ClaimMap(ex.relations) + ResolveAll(syms, Items(ex))
  }

  // ----- reconciling -----

  function RemovedSymbols(ix: Index, path: string, ex: Extraction): set<SymbolId> {
    (set id | id in ix.symbols && ix.symbols[id].path == path) - ClaimMap(ex.symbols).Keys
  }

  /** Relations sited in the file that its new text no longer supports. */
  function Unsupported(ix: Index, path: string, ex: Extraction, pruneInferred: bool): set<RelationKey> {
    (set k | k in ix.relations && k.siteFile == path && (pruneInferred || ix.relations[k].confidence != INFERRED))
    - NewRelations(ex, ix.symbols).Keys
  }

  function Pointing(relations: Relations, targets: set<SymbolId>): set<RelationKey> {
    set k | k in relations && k.target in targets
  }

  /** The relations left after the same-site diff, before invalidation. */
  function Diffed(ix: Index, path: string, ex: Extraction, pruneInferred: bool): Relations {
    (ix.relations + NewRelations(ex, ix.symbols)) - Unsupported(ix, path, ex, pruneInferred)
  }

  function IndexOne(ix: Index, path: string, ex: Extraction, pruneInferred: bool): Index {
    var removed := RemovedSymbols(ix, path, ex);
    var diffed := Diffed(ix, path, ex, pruneInferred);
    Index((ix.symbols + ClaimMap(ex.symbols)) - removed, diffed - Pointing(diffed, removed))
  }

  function Tombstoned(ix: Index, path: string, ex: Extraction, pruneInferred: bool): nat {
    |Unsupported(ix, path, ex, pruneInferred)|
    + |Pointing(Diffed(ix, path, ex, pruneInferred), RemovedSymbols(ix, path, ex))|
  }

  // ----- what the extractor promises of a file -----

  /** Symbol ids start with the path of their file; nothing after that path contains a colon. */
  predicate OwnedBy(id: SymbolId, path: string) {
    |path| < |id| && id[..|path|] == path && id[|path|] == ':' && ':' !in id[|path| + 1..]
  }

  function LastColon(s: string): int {
    if s == "" then -1 else if s[|s| - 1] == ':' then |s| - 1 else LastColon(s[..|s| - 1])
  }

  lemma {:induction false} OwnerEndsAtLastColon(id: SymbolId, path: string)
    requires OwnedBy(id, path)
    ensures LastColon(id) == |path|
  {
    if |id| > |path| + 1 {
      var shorter := id[..|id| - 1];
      assert id[|path| + 1..][|id| - 2 - |path|] == id[|id| - 1];
      assert shorter[|path| + 1..] == id[|path| + 1..][..|id| - 2 - |path|];
      OwnerEndsAtLastColon(shorter, path);
    }
  }

  lemma OwnerUnique(id: SymbolId, p: string, q: string)
    requires OwnedBy(id, p) && OwnedBy(id, q)
    ensures p == q
  {
    OwnerEndsAtLastColon(id, p);
    OwnerEndsAtLastColon(id, q);
  }

  function OriginOf(d: Deferred): Origin {
    match d
    case Call(o, _, _, _) => o
    case Inherit(o, _, _) => o
    case Override(o, _, _, _) => o
    case SelfCall(o, _, _) => o
  }

  /** Everything extracted from a file is sited in it, and its symbols are its own. */
  ghost predicate Local(path: string, ex: Extraction) {
    && (forall c :: c in ex.symbols ==> c.content.path == path && OwnedBy(c.key, path))
    && (forall c :: c in ex.relations ==> c.key.siteFile == path)
    && (forall d :: d in Items(ex) ==> OriginOf(d).siteFile == path)
  }

  function PredicateOf(d: Deferred): string {
    match d
    case Call(_, _, _, _) => "calls"
    case Inherit(_, _, _) => "inherits"
    case Override(_, _, _, _) => "overrides"
    case SelfCall(_, _, _) => "calls"
  }

  /** Whatever the reference resolves to has this qualified name. */
  ghost predicate Refers(d: Deferred, qualname: string) {
    match d
    case Call(_, _, name, None) => qualname == name
    case Call(_, _, _, Some(attribute)) => qualname == attribute
    case Inherit(_, _, name) => qualname == name
    case Override(_, _, baseName, methodName) => qualname == baseName + ("." + methodName)
    case SelfCall(_, Some((_, baseName)), methodName) => qualname == baseName + ("." + methodName)
    case SelfCall(_, None, _) => false
  }

  /** A relation with this key would have the reference's source, predicate and site. */
  predicate AtSpot(d: Deferred, k: RelationKey) {
    k == KeyAt(OriginOf(d), k.target, PredicateOf(d))
  }

  predicate SameSpot(c: Deferred, d: Deferred) {
    AtSpot(c, KeyAt(OriginOf(d), "", PredicateOf(d)))
  }

  /** Two imported bases of one class that may both have the method. */
  predicate OtherBase(c: Deferred, d: Deferred) {
    match (c, d)
    case (Override(_, _, b1, m1), Override(_, _, b2, m2)) => m1 == m2 && b1 != b2
    case (SelfCall(_, Some((_, b1)), m1), SelfCall(_, Some((_, b2)), m2)) => m1 == m2 && b1 != b2
    case _ => false
  }

  ghost predicate DistinctKeys<K, C>(claims: seq<Claim<K, C>>) {
    forall i, j :: 0 <= i < j < |claims| ==> claims[i].key != claims[j].key
  }

  /** No key is claimed with two contents. */
  ghost predicate OneContent<K(!new), C(!new)>(claims: seq<Claim<K, C>>) {
    forall c, d :: c in claims && d in claims && c.key == d.key ==> c.content == d.content
  }

  /**
   The extractor never says two things of one relation or symbol. Redefinitions are numbered, so
   ids are distinct. At one place there is one reference, if not several imported bases under
   different names. A base is deferred only if no class of the file has its name, so nothing the
   file's own classes resolve at that place is called what the deferred reference looks for.
   */
  ghost predicate SpeaksOnce(ex: Extraction) {
    && DistinctKeys(ex.symbols)
    && OneContent(ex.relations)
    && (forall c, d :: c in Items(ex) && d in Items(ex) && SameSpot(c, d) ==> c == d || OtherBase(c, d))
    && (forall c, d :: c in ex.relations && d in Items(ex) && AtSpot(d, c.key) ==>
          exists s :: s in ex.symbols && s.key == c.key.target && !Refers(d, s.content.qualname))
  }

  lemma {:induction false} ClaimMapKeys<K, C>(claims: seq<Claim<K, C>>, k: K)
    ensures k in ClaimMap(claims) ==> Claim(k, ClaimMap(claims)[k]) in claims
    ensures (exists c :: c in claims && c.key == k) ==> k in ClaimMap(claims)
  {
    if claims != [] {
      var last := claims[|claims| - 1];
      ClaimMapKeys(claims[..|claims| - 1], k);
      assert claims == claims[..|claims| - 1] + [last];
    }
  }

  lemma {:induction false} ResolveAllSited(syms: Symbols, items: seq<Deferred>, path: string, k: RelationKey)
    requires forall d :: d in items ==> OriginOf(d).siteFile == path
    requires k in ResolveAll(syms, items)
    ensures k.siteFile == path
  {
    if items != [] {
      var last := items[|items| - 1];
      assert last in items;
      if k in Resolve(syms, last) { assert k.siteFile == OriginOf(last).siteFile; }
      else { ResolveAllSited(syms, items[..|items| - 1], path, k); }
    }
  }

  lemma NewRelationsSited(path: string, ex: Extraction, syms: Symbols, k: RelationKey)
    requires Local(path, ex) && k in NewRelations(ex, syms)
    ensures k.siteFile == path
  {
    if k in ResolveAll(syms, Items(ex)) {
      ResolveAllSited(syms, Items(ex), path, k);
    } else {
      ClaimMapKeys(ex.relations, k);
    }
  }

  /** With distinct keys the claim map holds every claim. */
  lemma {:induction false} ClaimMapHolds<K, C>(claims: seq<Claim<K, C>>, c: Claim<K, C>)
    requires DistinctKeys(claims) && c in claims
    ensures c.key in ClaimMap(claims) && ClaimMap(claims)[c.key] == c.content
  {
    var before, last := claims[..|claims| - 1], claims[|claims| - 1];
    assert claims == before + [last];
    if c in before { ClaimMapHolds(before, c); }
  }

  lemma EmittedKey(o: Origin, predicate_: string, targets: set<SymbolId>, count: nat, k: RelationKey)
    ensures k in Emit(o, predicate_, targets, count) <==> k.target in targets && k == KeyAt(o, k.target, predicate_)
  {
  }

  lemma BaseMethodName(syms: Symbols, modulePath: string, baseName: string, methodName: string, t: SymbolId)
    requires t in Targets(BaseMethods(syms, modulePath, baseName, methodName))
    ensures t in syms && syms[t].qualname == baseName + ("." + methodName)
  {
    assert baseName + "." + methodName == baseName + ("." + methodName);
  }

  /** A reference resolves to symbols of the name it refers to, at its own place. */
  lemma ResolvesToNamed(syms: Symbols, d: Deferred, k: RelationKey)
    requires k in Resolve(syms, d)
    ensures AtSpot(d, k) && k.target in syms && Refers(d, syms[k.target].qualname)
  {
    hide Emit, KeyAt, BaseMethods, Targets, ModulePathMatches;
    match d
    case Call(o, modulePath, name, None) =>
      var c := Candidates(syms, name, "function", modulePath);
      EmittedKey(o, "calls", c, |c|, k);
    case Call(o, modulePath, name, Some(attribute)) =>
      var c := Candidates(syms, attribute, "function", modulePath + "." + name);
      EmittedKey(o, "calls", c, |c|, k);
    case Inherit(o, modulePath, name) =>
      var c := Candidates(syms, name, "class", modulePath);
      EmittedKey(o, "inherits", c, |c|, k);
    case Override(o, modulePath, baseName, methodName) =>
      var m := BaseMethods(syms, modulePath, baseName, methodName);
      EmittedKey(o, "overrides", Targets(m), |m|, k);
      BaseMethodName(syms, modulePath, baseName, methodName, k.target);
    case SelfCall(o, Some((modulePath, baseName)), methodName) =>
      var m := BaseMethods(syms, modulePath, baseName, methodName);
      EmittedKey(o, "calls", Targets(m), |m|, k);
      BaseMethodName(syms, modulePath, baseName, methodName, k.target);
    case SelfCall(_, None, _) =>
  }

  /** References at one place that resolve to the same relation are the same reference. */
  lemma SameRelationSameItem(ex: Extraction, syms: Symbols, c: Deferred, d: Deferred, k: RelationKey)
    requires SpeaksOnce(ex) && c in Items(ex) && d in Items(ex)
    requires k in Resolve(syms, c) && k in Resolve(syms, d)
    ensures c == d
  {
    hide Items, Resolve, Refers;
    ResolvesToNamed(syms, c, k);
    ResolvesToNamed(syms, d, k);
    assert SameSpot(c, d);
    if OtherBase(c, d) { NamesDiffer(c, d, syms[k.target].qualname); }
  }

  lemma NamesDiffer(c: Deferred, d: Deferred, qualname: string)
    requires OtherBase(c, d)
    ensures !(Refers(c, qualname) && Refers(d, qualname))
  {
    match (c, d)
    case (Override(_, _, b1, m), Override(_, _, b2, _)) => SameSuffix(b1, b2, "." + m);
    case (SelfCall(_, Some((_, b1)), m), SelfCall(_, Some((_, b2)), _)) => SameSuffix(b1, b2, "." + m);
  }

  lemma SameSuffix(a: string, b: string, suffix: string)
    ensures a + suffix == b + suffix ==> a == b
  {
    if a + suffix == b + suffix {
      assert |a| == |b|;
      assert a == (a + suffix)[..|a|] && b == (b + suffix)[..|b|];
    }
  }

  /** No deferred reference resolves to a relation the file itself resolves. */
  lemma ExtractedIsNotDeferred(ex: Extraction, syms: Symbols, c: Claim<RelationKey, RelationContent>, d: Deferred)
    requires SpeaksOnce(ex) && syms + ClaimMap(ex.symbols) == syms
    requires c in ex.relations && d in Items(ex)
    ensures c.key !in Resolve(syms, d)
  {
    hide Items, Resolve, ClaimMap, Refers;
    if AtSpot(d, c.key) {
      var s :| s in ex.symbols && s.key == c.key.target && !Refers(d, s.content.qualname);
      ClaimMapHolds(ex.symbols, s);
      assert (syms + ClaimMap(ex.symbols))[s.key] == s.content;
    }
    if c.key in Resolve(syms, d) { ResolvesToNamed(syms, d, c.key); }
  }

  lemma DistinctIsOneContent<K(!new), C(!new)>(claims: seq<Claim<K, C>>)
    requires DistinctKeys(claims)
    ensures OneContent(claims)
  {
    forall c, d | c in claims && d in claims && c.key == d.key ensures c.content == d.content {
      ClaimMapHolds(claims, c);
      ClaimMapHolds(claims, d);
    }
  }

  // ----- what one call leaves behind -----

  /**
   A relation survives exactly when its target did and it is either newly written or was live
   and not subject to the diff: sited elsewhere, or inferred and protected from pruning.
   */
  lemma RelationsAfter(ix: Index, path: string, ex: Extraction, pruneInferred: bool, k: RelationKey)
    ensures var after := IndexOne(ix, path, ex, pruneInferred).relations;
      var written := NewRelations(ex, ix.symbols);
      && (k in after <==>
            && k.target !in RemovedSymbols(ix, path, ex)
            && (k in written
                || (k in ix.relations
                    && (k.siteFile != path || (!pruneInferred && ix.relations[k].confidence == INFERRED)))))
      && (k in after ==> after[k] == if k in written then written[k] else ix.relations[k])
  {
  }

  /** Of the file's own relations exactly the new ones remain, and inferred ones when they are protected. */
  lemma SitedRelationsAfter(ix: Index, path: string, ex: Extraction, pruneInferred: bool, k: RelationKey)
    requires k.siteFile == path
    ensures var after := IndexOne(ix, path, ex, pruneInferred).relations;
      k in after <==>
        && k.target !in RemovedSymbols(ix, path, ex)
        && (k in NewRelations(ex, ix.symbols)
            || (!pruneInferred && k in ix.relations && ix.relations[k].confidence == INFERRED))
  {
    RelationsAfter(ix, path, ex, pruneInferred, k);
  }

  /** No live relation anywhere targets a symbol this call removed. */
  lemma NothingDangles(ix: Index, path: string, ex: Extraction, pruneInferred: bool, k: RelationKey)
    requires k in IndexOne(ix, path, ex, pruneInferred).relations
    ensures k.target !in RemovedSymbols(ix, path, ex)
    ensures k.target in ix.symbols ==> k.target in IndexOne(ix, path, ex, pruneInferred).symbols
  {
  }

  lemma SizeWithout<K, V>(m: map<K, V>, keys: set<K>)
    requires keys <= m.Keys
    ensures |m - keys| == |m| - |keys|
  {
    assert (m - keys).Keys == m.Keys - keys;
    assert |(m - keys).Keys| == |m.Keys| - |keys|;
  }

  /** The tombstone count reported is exact: what was live or new, less what is live now. */
  lemma TombstonesCounted(ix: Index, path: string, ex: Extraction, pruneInferred: bool)
    ensures |IndexOne(ix, path, ex, pruneInferred).relations| ==
            |ix.relations.Keys + NewRelations(ex, ix.symbols).Keys| - Tombstoned(ix, path, ex, pruneInferred)
  {
    var all := ix.relations + NewRelations(ex, ix.symbols);
    assert all.Keys == ix.relations.Keys + NewRelations(ex, ix.symbols).Keys;
    assert |all| == |all.Keys|;
    SizeWithout(all, Unsupported(ix, path, ex, pruneInferred));
    var diffed := Diffed(ix, path, ex, pruneInferred);
    SizeWithout(diffed, Pointing(diffed, RemovedSymbols(ix, path, ex)));
  }
}
