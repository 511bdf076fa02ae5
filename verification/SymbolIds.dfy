/**
 The ids the extractor gives the symbols of one file: path, qualified name and kind, and from its
 second occurrence on a definition's number.
 */
module SymbolIds {
  import opened Wrappers
  import opened Ordering
  import opened Facts
  import opened Indexer

  /** A definition as the extractor comes upon it. */
  datatype Definition = Definition(qualname: string, kind: string)

  function Decimal(n: nat): string {
    if n < 10 then [('0' as int + n) as char] else Decimal(n / 10) + [('0' as int + n % 10) as char]
  }

  function NumberSuffix(ordinal: Option<nat>): string {
    match ordinal case None => "" case Some(n) => "@" + Decimal(n)
  }

  function LocalName(d: Definition, ordinal: Option<nat>): string {
    d.qualname + "#" + (d.kind + NumberSuffix(ordinal))
  }

  function BuildSymbolId(path: string, d: Definition, ordinal: Option<nat>): SymbolId {
    (path + ":") + LocalName(d, ordinal)
  }

  const MODULE := Definition("", "module")

  /** Names are identifiers, of a class and its method joined by a dot; kinds come from a fixed list. */
  predicate Named(d: Definition) {
    && ':' !in d.qualname && '#' !in d.qualname
    && (d.kind == "module" || d.kind == "function" || d.kind == "class" || d.kind == "method")
  }

  /** Its number among the definitions of the same name and kind so far; the first goes without. */
  function Ordinal(defs: seq<Definition>, i: nat): Option<nat>
    requires i < |defs|
  {
    var n := multiset(defs[..i + 1])[defs[i]];
    if n > 1 then Some(n) else None
  }

  // ----- ids tell definitions apart -----

  lemma {:induction false} DecimalDigits(n: nat)
    ensures forall c :: c in Decimal(n) ==> '0' <= c <= '9'
    ensures |Decimal(n)| > 0 && (|Decimal(n)| == 1 <==> n < 10)
  {
    if n >= 10 { DecimalDigits(n / 10); }
  }

  lemma {:induction false} DecimalInjective(m: nat, n: nat)
    requires Decimal(m) == Decimal(n)
    ensures m == n
  {
    DecimalDigits(m);
    DecimalDigits(n);
    if m >= 10 {
      var a, b := Decimal(m), Decimal(n);
      assert a[|a| - 1] == b[|b| - 1];
      assert a[..|a| - 1] == Decimal(m / 10) && b[..|b| - 1] == Decimal(n / 10);
      DecimalInjective(m / 10, n / 10);
    }
  }

  function Before(s: string, sep: char): string {
    if s == "" || s[0] == sep then "" else [s[0]] + Before(s[1..], sep)
  }

  lemma {:induction false} BeforeFirst(a: string, b: string, sep: char)
    requires sep !in a
    ensures Before(a + [sep] + b, sep) == a
  {
    var s := a + [sep] + b;
    if a != "" {
      assert s[1..] == a[1..] + [sep] + b;
      BeforeFirst(a[1..], b, sep);
    }
  }

  /** The first separator tells what comes before it from what comes after. */
  lemma SplitUnique(a: string, b: string, c: string, d: string, sep: char)
    requires sep !in a && sep !in c && a + [sep] + b == c + [sep] + d
    ensures a == c && b == d
  {
    BeforeFirst(a, b, sep);
    BeforeFirst(c, d, sep);
    SamePrefix(a + [sep], b, d);
  }

  lemma SamePrefix(p: string, x: string, y: string)
    requires p + x == p + y
    ensures x == y
  {
    assert (p + x)[|p|..] == x && (p + y)[|p|..] == y;
  }

  lemma SuffixUnique(k: string, m: Option<nat>, l: string, n: Option<nat>)
    requires '@' !in k && '@' !in l && k + NumberSuffix(m) == l + NumberSuffix(n)
    ensures k == l && m == n
  {
    var s := k + NumberSuffix(m);
    assert m.Some? <==> '@' in s by { if m.Some? { assert s[|k|] == '@'; } }
    assert n.Some? <==> '@' in s by { if n.Some? { assert s[|l|] == '@'; } }
    if m.None? {
      assert s == k && s == l;
    } else {
      assert s == k + ['@'] + Decimal(m.value) == l + ['@'] + Decimal(n.value);
      SplitUnique(k, Decimal(m.value), l, Decimal(n.value), '@');
      DecimalInjective(m.value, n.value);
    }
  }

  lemma BuildInjective(path: string, d: Definition, m: Option<nat>, e: Definition, n: Option<nat>)
    requires Named(d) && Named(e) && BuildSymbolId(path, d, m) == BuildSymbolId(path, e, n)
    ensures d == e && m == n
  {
    hide LocalName;
    SamePrefix(path + ":", LocalName(d, m), LocalName(e, n));
    LocalNameInjective(d, m, e, n);
  }

  lemma LocalNameInjective(d: Definition, m: Option<nat>, e: Definition, n: Option<nat>)
    requires Named(d) && Named(e) && LocalName(d, m) == LocalName(e, n)
    ensures d == e && m == n
  {
    hide NumberSuffix;
    SplitUnique(d.qualname, d.kind + NumberSuffix(m), e.qualname, e.kind + NumberSuffix(n), '#');
    KindIsPlain(d);
    KindIsPlain(e);
    SuffixUnique(d.kind, m, e.kind, n);
  }

  lemma KindIsPlain(d: Definition)
    requires Named(d)
    ensures '@' !in d.kind && ':' !in d.kind
  {
  }

  /** Every id belongs to the file it is built for. */
  lemma BuildOwned(path: string, d: Definition, n: Option<nat>)
    requires Named(d)
    ensures OwnedBy(BuildSymbolId(path, d, n), path)
  {
    KindIsPlain(d);
    NoColon(d, n);
    hide LocalName, Named;
    var id := BuildSymbolId(path, d, n);
    assert id[|path| + 1..] == LocalName(d, n);
  }

  lemma NoColon(d: Definition, n: Option<nat>)
    requires ':' !in d.qualname && ':' !in d.kind
    ensures ':' !in LocalName(d, n)
  {
    if n.Some? { DecimalDigits(n.value); }
    hide Decimal;
  }

  lemma LaterIsNumberedHigher(defs: seq<Definition>, i: nat, j: nat)
    requires i < j < |defs| && defs[i] == defs[j]
    ensures Ordinal(defs, i) != Ordinal(defs, j)
  {
    assert defs[..j + 1] == defs[..i + 1] + defs[i + 1..j] + [defs[j]];
    assert defs[..i + 1] == defs[..i] + [defs[i]];
  }

  /** The counts hold how often each definition has occurred. */
  ghost predicate Counts(counts: map<Definition, nat>, defs: seq<Definition>) {
    forall d :: (if d in counts then counts[d] else 0) == multiset(defs)[d]
  }

  lemma NothingCounted()
    ensures Counts(map[], [])
  {
  }

  lemma CountNext(counts: map<Definition, nat>, defs: seq<Definition>, i: nat)
    requires i < |defs| && Counts(counts, defs[..i])
    ensures var n := (if defs[i] in counts then counts[defs[i]] else 0) + 1;
      && Counts(counts[defs[i] := n], defs[..i + 1])
      && Ordinal(defs, i) == if n > 1 then Some(n) else None
  {
    assert defs[..i + 1] == defs[..i] + [defs[i]];
    assert multiset(defs[..i + 1]) == multiset(defs[..i]) + multiset{defs[i]};
  }

  /** The ids of one file, the module's own and then those of its definitions in order. */
  method NumberSymbols(path: string, defs: seq<Definition>) returns (ids: seq<SymbolId>)
    ensures |ids| == |defs| + 1 && ids[0] == BuildSymbolId(path, MODULE, None)
    ensures forall i :: 0 <= i < |defs| ==> ids[i + 1] == BuildSymbolId(path, defs[i], Ordinal(defs, i))
    ensures (forall d :: d in defs ==> ':' !in d.qualname && '#' !in d.qualname
                                       && (d.kind == "function" || d.kind == "class" || d.kind == "method")) ==>
              Distinct(ids) && forall id :: id in ids ==> OwnedBy(id, path)
  {
    hide BuildSymbolId, Named, Distinct, OwnedBy, Ordinal, Counts;
    ids := [BuildSymbolId(path, MODULE, None)];
    var seenCounts: map<Definition, nat> := map[];
    NothingCounted();
    for i := 0 to |defs|
      invariant |ids| == i + 1 && ids[0] == BuildSymbolId(path, MODULE, None)
      invariant forall k :: 0 <= k < i ==> ids[k + 1] == BuildSymbolId(path, defs[k], Ordinal(defs, k))
      invariant Counts(seenCounts, defs[..i])
    {
      var d := defs[i];
      CountNext(seenCounts, defs, i);
      seenCounts := seenCounts[d := (if d in seenCounts then seenCounts[d] else 0) + 1];
      var ordinal := if seenCounts[d] > 1 then Some(seenCounts[d]) else None;
      ids := ids + [BuildSymbolId(path, d, ordinal)];
    }
    if forall d :: d in defs ==> ':' !in d.qualname && '#' !in d.qualname
                                 && (d.kind == "function" || d.kind == "class" || d.kind == "method") {
      AllNamed(defs);
      IdsTellApart(path, defs, ids);
    }
  }

  lemma AllNamed(defs: seq<Definition>)
    requires forall d :: d in defs ==> ':' !in d.qualname && '#' !in d.qualname
                                       && (d.kind == "function" || d.kind == "class" || d.kind == "method")
    ensures forall d :: d in defs ==> Named(d) && d.kind != "module"
  {
  }

  lemma IdsTellApart(path: string, defs: seq<Definition>, ids: seq<SymbolId>)
    requires forall d :: d in defs ==> Named(d) && d.kind != "module"
    requires |ids| == |defs| + 1 && ids[0] == BuildSymbolId(path, MODULE, None)
    requires forall i :: 0 <= i < |defs| ==> ids[i + 1] == BuildSymbolId(path, defs[i], Ordinal(defs, i))
    ensures Distinct(ids) && forall id :: id in ids ==> OwnedBy(id, path)
  {
    hide BuildSymbolId, Ordinal, OwnedBy;
    forall i, j | 0 <= i < j < |ids| ensures ids[i] != ids[j] {
      if ids[i] == ids[j] {
        if i == 0 {
          BuildInjective(path, MODULE, None, defs[j - 1], Ordinal(defs, j - 1));
        } else {
          BuildInjective(path, defs[i - 1], Ordinal(defs, i - 1), defs[j - 1], Ordinal(defs, j - 1));
          LaterIsNumberedHigher(defs, i - 1, j - 1);
        }
      }
    }
    forall id | id in ids ensures OwnedBy(id, path) {
      var i :| 0 <= i < |ids| && ids[i] == id;
      if i == 0 { BuildOwned(path, MODULE, None); }
      else { BuildOwned(path, defs[i - 1], Ordinal(defs, i - 1)); }
    }
  }

  /** For example the module of a file, a method in it, and its twelfth definition. */
  lemma IdFormat()
    ensures BuildSymbolId("a/b.py", MODULE, None) == "a/b.py:#module"
    ensures BuildSymbolId("a/b.py", Definition("C.m", "method"), None) == "a/b.py:C.m#method"
    ensures BuildSymbolId("a/b.py", Definition("C.m", "method"), Some(12)) == "a/b.py:C.m#method@12"
  {
    assert Decimal(1) == "1";
    assert Decimal(12) == Decimal(1) + "2";
  }
}
