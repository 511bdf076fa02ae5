/** Symbols and relations, the facts the index stores, and what an extractor reports of one file. */
module Facts {
  import opened Wrappers
  import FactTable

  datatype Confidence = EXTRACTED | INFERRED | AMBIGUOUS

  /** Lower is more certain. */
  function ConfidenceRank(c: Confidence): nat {
    match c case EXTRACTED => 0 case INFERRED => 1 case AMBIGUOUS => 2
  }

  datatype SymbolContent = SymbolContent(
    path: string,
    qualname: string,
    kind: string,
    startLine: int,
    startCol: int,
    endLine: int,
    endCol: int,
    isStub: bool,
    confidence: Confidence,
    provider: string,
    version: string)

  type SymbolId = string
  type Symbol = FactTable.Fact<SymbolId, SymbolContent>
  type SymbolTable = FactTable.Table<SymbolId, SymbolContent>

  datatype RelationKey = RelationKey(
    source: string,
    target: string,
    predicate_: string,
    siteFile: string,
    siteLine: int,
    siteCol: int)

  datatype RelationContent = RelationContent(confidence: Confidence, provider: string, version: string)

  type Relation = FactTable.Fact<RelationKey, RelationContent>
  type RelationTable = FactTable.Table<RelationKey, RelationContent>

  /** Who refers, from where, as observed by which tool. */
  datatype Origin = Origin(source: string, siteFile: string, siteLine: int, siteCol: int, provider: string,
                           version: string)

  /** References a single file cannot resolve by itself. */
  datatype Deferred =
    | Call(origin: Origin, modulePath: string, name: string, attribute: Option<string>)
    | Inherit(origin: Origin, modulePath: string, name: string)
    | Override(origin: Origin, modulePath: string, baseName: string, methodName: string)
    | SelfCall(origin: Origin, importedBase: Option<(string, string)>, methodName: string)

  datatype Claim<K, C> = Claim(key: K, content: C)

  /** What the extractor reports of one parseable file, times of observation aside. */
  datatype Extraction = Extraction(
    symbols: seq<Claim<SymbolId, SymbolContent>>,
    relations: seq<Claim<RelationKey, RelationContent>>,
    calls: seq<Deferred>,
    inherits: seq<Deferred>,
    overrides: seq<Deferred>,
    selfCalls: seq<Deferred>)

  function KeyAt(o: Origin, target: string, predicate_: string): RelationKey {
    RelationKey(o.source, target, predicate_, o.siteFile, o.siteLine, o.siteCol)
  }

  function Stamp<K, C>(claims: seq<Claim<K, C>>, at: string): (facts: seq<FactTable.Fact<K, C>>)
    ensures |facts| == |claims|
  {
    seq(|claims|, i requires 0 <= i < |claims| => FactTable.Fact(claims[i].key, claims[i].content, at))
  }
}
