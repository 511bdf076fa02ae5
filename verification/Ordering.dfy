/** Total orders and the stable sort that Python's `sorted` and `list.sort` perform. */
module Ordering {

  /** Lexicographic order on strings, character code by character code. */
  predicate StrLe(a: string, b: string) {
    if a == "" then true
    else if b == "" then false
    else if a[0] != b[0] then a[0] < b[0]
    else StrLe(a[1..], b[1..])
  }

  predicate StrLess(a: string, b: string) {
    StrLe(a, b) && a != b
  }

  ghost predicate TotalPreorder<T(!new)>(le: (T, T) -> bool) {
    && (forall a, b :: le(a, b) || le(b, a))
    && (forall a, b, c :: le(a, b) && le(b, c) ==> le(a, c))
  }

  lemma {:induction false} StrLeTotal(a: string, b: string)
    ensures StrLe(a, b) || StrLe(b, a)
    ensures StrLe(a, b) && StrLe(b, a) ==> a == b
  {
    if a != "" && b != "" && a[0] == b[0] {
      StrLeTotal(a[1..], b[1..]);
      assert a == [a[0]] + a[1..];
      assert b == [b[0]] + b[1..];
    }
  }

  lemma {:induction false} StrLeTransitive(a: string, b: string, c: string)
    requires StrLe(a, b) && StrLe(b, c)
    ensures StrLe(a, c)
  {
    if a != "" && b != "" && c != "" && a[0] == b[0] && b[0] == c[0] {
      StrLeTransitive(a[1..], b[1..], c[1..]);
    }
  }

  lemma StrLeCons(x: char, a: string, y: char, b: string)
    ensures StrLe([x] + a, [y] + b) <==> if x != y then x < y else StrLe(a, b)
  {
    assert ([x] + a)[1..] == a && ([y] + b)[1..] == b;
  }

  lemma {:induction false} SameStart(same: string, u: string, v: string)
    ensures StrLe(same + u, same + v) <==> StrLe(u, v)
  {
    hide StrLe;
    if same == "" {
      assert same + u == u && same + v == v;
    } else {
      var c, rest := same[0], same[1..];
      SameStart(rest, u, v);
      StrLeCons(c, rest + u, c, rest + v);
      assert same + u == [c] + (rest + u) && same + v == [c] + (rest + v);
    }
  }

  /** The first characters that differ decide. */
  lemma FirstCharacterDecides(same: string, x: char, a: string, y: char, b: string)
    requires x != y
    ensures StrLe(same + ([x] + a), same + ([y] + b)) <==> x < y
  {
    hide StrLe;
    SameStart(same, [x] + a, [y] + b);
    StrLeCons(x, a, y, b);
  }

  /** A string comes before what it is a prefix of. */
  lemma {:induction false} PrefixFirst(s: string, more: string)
    ensures StrLe(s, s + more)
  {
    if s != "" {
      PrefixFirst(s[1..], more);
      assert (s + more)[1..] == s[1..] + more;
    }
  }

  lemma StrLeIsTotalPreorder()
    ensures TotalPreorder(StrLe)
  {
    forall a, b ensures StrLe(a, b) || StrLe(b, a) { StrLeTotal(a, b); }
    forall a, b, c | StrLe(a, b) && StrLe(b, c) ensures StrLe(a, c) { StrLeTransitive(a, b, c); }
  }

  function Min(a: nat, b: nat): nat {
    if b < a then b else a
  }

  // ----- stable insertion sort -----

  function Insert<T>(x: T, s: seq<T>, le: (T, T) -> bool): seq<T> {
    if s == [] then [x]
    else if le(x, s[0]) then [x] + s
    else [s[0]] + Insert(x, s[1..], le)
  }

  function Sort<T>(s: seq<T>, le: (T, T) -> bool): seq<T> {
    if s == [] then [] else Insert(s[0], Sort(s[1..], le), le)
  }

  ghost predicate Ordered<T>(s: seq<T>, le: (T, T) -> bool) {
    forall i, j :: 0 <= i < j < |s| ==> le(s[i], s[j])
  }

  lemma {:induction false} InsertPermutes<T>(x: T, s: seq<T>, le: (T, T) -> bool)
    ensures multiset(Insert(x, s, le)) == multiset(s) + multiset{x}
  {
    if s != [] {
      assert s == [s[0]] + s[1..];
      if !le(x, s[0]) { InsertPermutes(x, s[1..], le); }
    }
  }

  /** Sorting only rearranges. */
  lemma {:induction false} SortPermutes<T>(s: seq<T>, le: (T, T) -> bool)
    ensures multiset(Sort(s, le)) == multiset(s)
    ensures |Sort(s, le)| == |s|
    ensures forall x :: x in Sort(s, le) <==> x in s
  {
    if s != [] {
      SortPermutes(s[1..], le);
      InsertPermutes(s[0], Sort(s[1..], le), le);
      assert s == [s[0]] + s[1..];
    }
    SameMembers(Sort(s, le), s);
  }

  lemma SameMembers<T>(s: seq<T>, t: seq<T>)
    requires multiset(s) == multiset(t)
    ensures |s| == |t|
    ensures forall x :: x in s <==> x in t
  {
    assert |s| == |multiset(s)| == |multiset(t)| == |t|;
    forall x ensures x in s <==> x in t {
      assert x in s <==> x in multiset(s);
      assert x in t <==> x in multiset(t);
    }
  }

  lemma {:induction false} InsertOrdered<T(!new)>(x: T, s: seq<T>, le: (T, T) -> bool)
    requires TotalPreorder(le) && Ordered(s, le)
    ensures Ordered(Insert(x, s, le), le)
  {
    if s != [] && !le(x, s[0]) {
      InsertOrdered(x, s[1..], le);
      InsertPermutes(x, s[1..], le);
      var r := Insert(x, s[1..], le);
      forall i | 0 <= i < |r| ensures le(s[0], r[i]) {
        assert r[i] in multiset(r);
        assert r[i] == x || r[i] in s[1..];
      }
    }
  }

  /** Sorting by a total preorder orders. */
  lemma {:induction false} SortOrders<T(!new)>(s: seq<T>, le: (T, T) -> bool)
    requires TotalPreorder(le)
    ensures Ordered(Sort(s, le), le)
  {
    if s != [] {
      SortOrders(s[1..], le);
      InsertOrdered(s[0], Sort(s[1..], le), le);
    }
  }

  /** The first element stays first exactly when nothing belongs strictly before it. */
  lemma FirstStays<T(!new)>(s: seq<T>, le: (T, T) -> bool)
    requires TotalPreorder(le) && s != []
    ensures |Sort(s, le)| == |s|
    ensures Sort(s, le)[0] == s[0] <==> forall y :: y in s ==> le(s[0], y)
  {
    SortPermutes(s, le);
    SortPermutes(s[1..], le);
    SortOrders(s, le);
    var sorted := Sort(s, le);
    if sorted[0] == s[0] {
      forall y | y in s ensures le(s[0], y) {
        assert y in sorted;
      }
    }
    if (forall y :: y in s ==> le(s[0], y)) && |s| > 1 {
      assert Sort(s[1..], le)[0] in s[1..];
    }
  }

  // ----- strictly ascending string lists -----

  ghost predicate Ascending(s: seq<string>) {
    forall i, j :: 0 <= i < j < |s| ==> StrLess(s[i], s[j])
  }

  ghost function Elements<T>(s: seq<T>): set<T> {
    set x | x in s
  }

  ghost predicate Distinct<T>(s: seq<T>) {
    forall i, j :: 0 <= i < j < |s| ==> s[i] != s[j]
  }

  lemma DistinctGrows<T>(s: seq<T>, x: T)
    requires Distinct(s) && x !in s
    ensures Distinct(s + [x])
  {
  }

  lemma {:induction false} DistinctCounts<T>(s: seq<T>)
    requires Distinct(s)
    ensures forall x :: multiset(s)[x] <= 1
  {
    if s != [] {
      var t, y := s[..|s| - 1], s[|s| - 1];
      DistinctCounts(t);
      assert s == t + [y];
      assert y !in multiset(t) by { assert y !in t; }
      forall x ensures multiset(s)[x] <= 1 {
        assert multiset(s) == multiset(t) + multiset{y};
      }
    }
  }

  lemma {:induction false} CountsDistinct<T>(s: seq<T>)
    requires forall x :: multiset(s)[x] <= 1
    ensures Distinct(s)
  {
    if s != [] {
      var t, y := s[..|s| - 1], s[|s| - 1];
      assert s == t + [y];
      assert multiset(s) == multiset(t) + multiset{y};
      forall x ensures multiset(t)[x] <= 1 { assert multiset(s)[x] <= 1; }
      CountsDistinct(t);
      assert y !in t by { assert multiset(s)[y] == multiset(t)[y] + 1; }
      forall i, j | 0 <= i < j < |s| ensures s[i] != s[j] {
        assert s[i] == t[i];
        if j < |t| { assert s[j] == t[j]; }
      }
    }
  }

  lemma DistinctMultiplicity<T>(s: seq<T>)
    ensures Distinct(s) <==> forall x :: multiset(s)[x] <= 1
  {
    hide Distinct;
    if Distinct(s) { DistinctCounts(s); }
    if forall x :: multiset(s)[x] <= 1 { CountsDistinct(s); }
  }

  /** `sorted` of a duplicate-free list of strings is strictly ascending. */
  lemma SortedStringsAscend(s: seq<string>)
    requires Distinct(s)
    ensures Ascending(Sort(s, StrLe)) && Elements(Sort(s, StrLe)) == Elements(s) && |Sort(s, StrLe)| == |s|
  {
    StrLeIsTotalPreorder();
    SortOrders(s, StrLe);
    SortPermutes(s, StrLe);
    DistinctMultiplicity(s);
    DistinctMultiplicity(Sort(s, StrLe));
  }

  /** A strictly ascending list is determined by its elements. */
  lemma {:induction false} AscendingUnique(s: seq<string>, t: seq<string>)
    requires Ascending(s) && Ascending(t) && Elements(s) == Elements(t)
    ensures s == t
  {
    assert s != [] ==> s[0] in Elements(t);
    assert t != [] ==> t[0] in Elements(s);
    if s != [] {
      var i :| 0 <= i < |t| && t[i] == s[0];
      var j :| 0 <= j < |s| && s[j] == t[0];
      if i > 0 && j > 0 { StrLeTotal(s[0], t[0]); }
      assert s[0] == t[0];
      assert Elements(s[1..]) == Elements(s) - {s[0]} by {
        forall x ensures x in Elements(s[1..]) <==> x in Elements(s) - {s[0]} {
          if x in Elements(s) - {s[0]} { var k :| 0 <= k < |s| && s[k] == x; assert x == s[1..][k - 1]; }
        }
      }
      assert Elements(t[1..]) == Elements(t) - {t[0]} by {
        forall x ensures x in Elements(t[1..]) <==> x in Elements(t) - {t[0]} {
          if x in Elements(t) - {t[0]} { var k :| 0 <= k < |t| && t[k] == x; assert x == t[1..][k - 1]; }
        }
      }
      AscendingUnique(s[1..], t[1..]);
      assert s == [s[0]] + s[1..];
      assert t == [t[0]] + t[1..];
    }
  }
}
