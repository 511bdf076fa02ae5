/** Tuples of numbers and strings under Python's lexicographic order. */
module Tuples {
  import opened Ordering

  /** Within one tool the atoms at one position are all of one kind. */
  datatype Atom = Num(n: int) | Text(s: string)

  type Tuple = seq<Atom>

  predicate AtomLe(a: Atom, b: Atom) {
    match a
    case Num(m) => b.Text? || m <= b.n
    case Text(s) => b.Text? && StrLe(s, b.s)
  }

  predicate TupleLe(a: Tuple, b: Tuple) {
    if a == [] then true
    else if b == [] then false
    else if a[0] != b[0] then AtomLe(a[0], b[0])
    else TupleLe(a[1..], b[1..])
  }

  predicate TupleLess(a: Tuple, b: Tuple) {
    TupleLe(a, b) && a != b
  }

  lemma TupleLeStep(x: Atom, a: Tuple, y: Atom, b: Tuple)
    ensures TupleLe([x] + a, [y] + b) <==> if x != y then AtomLe(x, y) else TupleLe(a, b)
  {
    assert ([x] + a)[1..] == a && ([y] + b)[1..] == b;
  }

  /** The first atoms that differ decide: numbers by size, strings by their characters. */
  lemma {:induction false} FirstDifferenceDecides(same: Tuple, x: Atom, a: Tuple, y: Atom, b: Tuple)
    requires x != y
    ensures TupleLe(same + ([x] + a), same + ([y] + b)) <==>
            match (x, y) { case (Num(m), Num(n)) => m < n case (Text(s), Text(t)) => StrLe(s, t) case _ => x.Num? }
  {
    if same == [] {
      TupleLeStep(x, a, y, b);
      assert same + ([x] + a) == [x] + a && same + ([y] + b) == [y] + b;
    } else {
      var c, rest := same[0], same[1..];
      FirstDifferenceDecides(rest, x, a, y, b);
      TupleLeStep(c, rest + ([x] + a), c, rest + ([y] + b));
      hide TupleLe;
      assert same == [c] + rest;
      assert same + ([x] + a) == [c] + (rest + ([x] + a));
      assert same + ([y] + b) == [c] + (rest + ([y] + b));
    }
  }

  lemma AtomOrder(a: Atom, b: Atom, c: Atom)
    ensures AtomLe(a, b) || AtomLe(b, a)
    ensures AtomLe(a, b) && AtomLe(b, a) ==> a == b
    ensures AtomLe(a, b) && AtomLe(b, c) ==> AtomLe(a, c)
  {
    if a.Text? && b.Text? {
      StrLeTotal(a.s, b.s);
      if c.Text? && StrLe(a.s, b.s) && StrLe(b.s, c.s) { StrLeTransitive(a.s, b.s, c.s); }
    }
  }

  /** Any two tuples compare, and only equal ones compare both ways. */
  lemma {:induction false} TupleLeTotal(a: Tuple, b: Tuple)
    ensures TupleLe(a, b) || TupleLe(b, a)
    ensures TupleLe(a, b) && TupleLe(b, a) ==> a == b
  {
    if a != [] && b != [] {
      AtomOrder(a[0], b[0], a[0]);
      if a[0] == b[0] {
        TupleLeTotal(a[1..], b[1..]);
        assert a == [a[0]] + a[1..];
        assert b == [b[0]] + b[1..];
      }
    }
  }

  lemma {:induction false} TupleLeTransitive(a: Tuple, b: Tuple, c: Tuple)
    requires TupleLe(a, b) && TupleLe(b, c)
    ensures TupleLe(a, c)
  {
    if a != [] && b != [] && c != [] {
      AtomOrder(a[0], b[0], c[0]);
      if a[0] == b[0] && b[0] == c[0] { TupleLeTransitive(a[1..], b[1..], c[1..]); }
    }
  }
}
