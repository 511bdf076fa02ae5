/**
 Keyset pagination: pages of a list whose items are strictly ordered by a tuple key, each page
 continuing after the last key seen.
 */
module Pagination {
  import opened Wrappers
  import opened Ordering
  import opened Tuples

  datatype PageError = InvalidLimit

  /** `next` is what the cursor carries: the key of the page's last item. */
  datatype Page<T> = Page(items: seq<T>, truncated: bool, next: Option<Tuple>)

  predicate Past(k: Tuple, after: Tuple, reverse: bool) {
    if reverse then TupleLess(k, after) else TupleLess(after, k)
  }

  /** The items strictly past the cursor's key, in their order. */
  function FilterSince<T>(items: seq<T>, after: Option<Tuple>, key: T -> Tuple, reverse: bool): seq<T> {
    if after.None? || items == [] then items
    else
      var last := items[|items| - 1];
      FilterSince(items[..|items| - 1], after, key, reverse)
      + (if Past(key(last), after.value, reverse) then [last] else [])
  }

  function Paginate<T>(remaining: seq<T>, limit: int, key: T -> Tuple): Result<Page<T>, PageError> {
    if limit <= 0 then Failure(InvalidLimit)
    else if |remaining| > limit then Success(Page(remaining[..limit], true, Some(key(remaining[limit - 1]))))
    else Success(Page(remaining, false, None))
  }

  /** Each item's key lies strictly past all earlier ones. */
  ghost predicate StrictlyOrdered<T>(items: seq<T>, key: T -> Tuple, reverse: bool) {
    forall i, j :: 0 <= i < j < |items| ==> Past(key(items[j]), key(items[i]), reverse)
  }

  lemma NeverPastBack(a: Tuple, b: Tuple, reverse: bool)
    requires Past(a, b, reverse)
    ensures !Past(b, a, reverse) && a != b
  {
    TupleLeTotal(a, b);
  }

  lemma {:induction false} NonePast<T>(items: seq<T>, after: Tuple, key: T -> Tuple, reverse: bool)
    requires forall x :: x in items ==> !Past(key(x), after, reverse)
    ensures FilterSince(items, Some(after), key, reverse) == []
  {
    if items != [] {
      assert items[|items| - 1] in items;
      NonePast(items[..|items| - 1], after, key, reverse);
    }
  }

  lemma LastIsLast<T>(items: seq<T>, key: T -> Tuple, reverse: bool)
    requires StrictlyOrdered(items, key, reverse) && items != []
    ensures forall x :: x in items ==> !Past(key(x), key(items[|items| - 1]), reverse)
  {
    var last := |items| - 1;
    forall x | x in items ensures !Past(key(x), key(items[last]), reverse) {
      var i :| 0 <= i < |items| && items[i] == x;
      if i < last { NeverPastBack(key(items[last]), key(items[i]), reverse); }
    }
  }

  /** Resuming after the key of item `d - 1` leaves exactly the items from `d` on. */
  lemma {:induction false} ResumeAfter<T>(items: seq<T>, d: nat, key: T -> Tuple, reverse: bool)
    requires StrictlyOrdered(items, key, reverse) && 0 < d <= |items|
    ensures FilterSince(items, Some(key(items[d - 1])), key, reverse) == items[d..]
    decreases |items|
  {
    var last := |items| - 1;
    if d == |items| {
      LastIsLast(items, key, reverse);
      NonePast(items, key(items[last]), key, reverse);
    } else {
      ResumeAfter(items[..last], d, key, reverse);
      assert items[..last][d - 1] == items[d - 1];
      assert items[d..] == items[..last][d..] + [items[last]];
    }
  }

  // ----- what one page holds -----

  /** The cursor stands before item `d`: there is none yet, or it is the key of the item before. */
  ghost predicate StartsAt<T>(items: seq<T>, key: T -> Tuple, after: Option<Tuple>, d: nat) {
    match after
    case None => d == 0
    case Some(k) => 0 < d <= |items| && k == key(items[d - 1])
  }

  /** The `limit` items from `d` on, or as many as there are, and the key of the last if there are more. */
  ghost predicate PageFrom<T>(items: seq<T>, key: T -> Tuple, limit: nat, d: nat, page: Page<T>)
    requires d <= |items|
  {
    && page.items == items[d..Min(d + limit, |items|)]
    && (page.truncated <==> d + limit < |items|)
    && page.next == if page.truncated && limit > 0 then Some(key(items[d + limit - 1])) else None
  }

  /**
   Past any cursor at all, its own or a made-up one: at most `limit` items past it, and all of them
   unless truncated.
   */
  ghost predicate PagePast<T>(items: seq<T>, key: T -> Tuple, reverse: bool, limit: nat, after: Option<Tuple>,
                              page: Page<T>) {
    && |page.items| <= limit
    && (forall x :: x in page.items ==> x in items && (after.Some? ==> Past(key(x), after.value, reverse)))
    && (!page.truncated ==>
          page.next == None
          && forall x :: x in items && (after.Some? ==> Past(key(x), after.value, reverse)) ==> x in page.items)
    && (page.truncated ==> |page.items| == limit && limit > 0 && page.next == Some(key(page.items[limit - 1])))
  }

  lemma {:induction false} FilterMembers<T>(items: seq<T>, after: Option<Tuple>, key: T -> Tuple, reverse: bool, x: T)
    ensures x in FilterSince(items, after, key, reverse) <==>
            x in items && (after.Some? ==> Past(key(x), after.value, reverse))
  {
    if after.Some? && items != [] {
      var before, last := items[..|items| - 1], items[|items| - 1];
      FilterMembers(before, after, key, reverse, x);
      assert items == before + [last];
    }
  }

  lemma FirstPage<T>(items: seq<T>, key: T -> Tuple)
    ensures StartsAt(items, key, None, 0)
  {
  }

  lemma PageIsPrefix<T>(past: seq<T>, limit: nat, key: T -> Tuple)
    requires limit > 0
    ensures var page := Paginate(past, limit, key).value;
      && |page.items| <= limit && (forall x :: x in page.items ==> x in past)
      && (!page.truncated ==> page.next == None && page.items == past)
      && (page.truncated ==> |page.items| == limit && page.next == Some(key(page.items[limit - 1])))
  {
  }

  lemma PageOfPast<T>(items: seq<T>, key: T -> Tuple, reverse: bool, limit: nat, after: Option<Tuple>, past: seq<T>)
    requires limit > 0
    requires forall x :: x in past <==> x in items && (after.Some? ==> Past(key(x), after.value, reverse))
    ensures PagePast(items, key, reverse, limit, after, Paginate(past, limit, key).value)
  {
    PageIsPrefix(past, limit, key);
    hide Past, Paginate;
  }

  lemma PaginatePast<T>(items: seq<T>, key: T -> Tuple, reverse: bool, limit: nat, after: Option<Tuple>)
    requires limit > 0
    ensures PagePast(items, key, reverse, limit, after,
                     Paginate(FilterSince(items, after, key, reverse), limit, key).value)
  {
    var past := FilterSince(items, after, key, reverse);
    forall x ensures x in past <==> x in items && (after.Some? ==> Past(key(x), after.value, reverse)) {
      FilterMembers(items, after, key, reverse, x);
    }
    hide Past, Paginate, PagePast;
    PageOfPast(items, key, reverse, limit, after, past);
  }

  lemma PageOfRest<T>(items: seq<T>, key: T -> Tuple, limit: nat, d: nat)
    requires limit > 0 && d <= |items|
    ensures PageFrom(items, key, limit, d, Paginate(items[d..], limit, key).value)
  {
  }

  lemma PaginateFrom<T>(items: seq<T>, key: T -> Tuple, reverse: bool, limit: nat, after: Option<Tuple>, d: nat)
    requires limit > 0 && d <= |items| && StrictlyOrdered(items, key, reverse) && StartsAt(items, key, after, d)
    ensures PageFrom(items, key, limit, d, Paginate(FilterSince(items, after, key, reverse), limit, key).value)
  {
    hide StrictlyOrdered;
    assert FilterSince(items, after, key, reverse) == items[d..] by {
      if d > 0 { ResumeAfter(items, d, key, reverse); }
    }
    PageOfRest(items, key, limit, d);
  }

  /** Reading one more page: what has been read is a longer prefix, and the next cursor stands at its end. */
  lemma PageExtends<T>(items: seq<T>, key: T -> Tuple, limit: nat, d: nat, page: Page<T>)
    requires limit > 0 && d <= |items| && PageFrom(items, key, limit, d, page)
    ensures var n := Min(d + limit, |items|);
      && items[..d] + page.items == items[..n]
      && (if page.truncated then n == d + limit && n < |items| && StartsAt(items, key, page.next, n) else n == |items|)
  {
  }

  // ----- following the cursor from the start -----

  function PageCount(n: nat, limit: nat): nat
    requires limit > 0
    decreases n
  {
    if n <= limit then 1 else 1 + PageCount(n - limit, limit)
  }

  /** The pages a client receives from a cursor on, each request carrying the cursor of the page before. */
  function Follow<T>(items: seq<T>, limit: nat, key: T -> Tuple, reverse: bool, after: Option<Tuple>,
                     fuel: nat): seq<Page<T>>
    requires limit > 0
    decreases fuel
  {
    var page := Paginate(FilterSince(items, after, key, reverse), limit, key).value;
    if page.truncated && fuel > 0 then [page] + Follow(items, limit, key, reverse, page.next, fuel - 1) else [page]
  }

  function Flatten<T>(pages: seq<Page<T>>): seq<T> {
    if pages == [] then [] else pages[0].items + Flatten(pages[1..])
  }

  ghost predicate LastOnly<T>(pages: seq<Page<T>>) {
    pages != [] && forall i :: 0 <= i < |pages| ==> (pages[i].truncated <==> i < |pages| - 1)
  }

  lemma FollowStep<T>(items: seq<T>, limit: nat, key: T -> Tuple, reverse: bool, after: Option<Tuple>, d: nat,
                      fuel: nat)
    returns (page: Page<T>)
    requires limit > 0 && d <= |items| && StrictlyOrdered(items, key, reverse) && StartsAt(items, key, after, d)
    ensures PageFrom(items, key, limit, d, page)
    ensures Follow(items, limit, key, reverse, after, fuel) ==
      if page.truncated && fuel > 0 then [page] + Follow(items, limit, key, reverse, page.next, fuel - 1) else [page]
  {
    page := Paginate(FilterSince(items, after, key, reverse), limit, key).value;
    PaginateFrom(items, key, reverse, limit, after, d);
    hide StrictlyOrdered, FilterSince, Paginate, PageFrom;
  }

  lemma {:induction false} FollowFrom<T>(items: seq<T>, limit: nat, key: T -> Tuple, reverse: bool,
                                         after: Option<Tuple>, d: nat, fuel: nat)
    requires limit > 0 && d <= |items| && StrictlyOrdered(items, key, reverse)
    requires StartsAt(items, key, after, d) && |items| - d <= fuel
    ensures var pages := Follow(items, limit, key, reverse, after, fuel);
      Flatten(pages) == items[d..] && |pages| == PageCount(|items| - d, limit) && LastOnly(pages)
    decreases fuel
  {
    hide *;
    var page := FollowStep(items, limit, key, reverse, after, d, fuel);
    CountStep(|items| - d, limit);
    PageEnds(items, key, limit, d, page);
    if page.truncated {
      FollowFrom(items, limit, key, reverse, page.next, d + limit, fuel - 1);
      PutFirst(items, key, limit, d, page, Follow(items, limit, key, reverse, page.next, fuel - 1));
    } else {
      Alone(items, key, limit, d, page);
    }
  }

  lemma PageEnds<T>(items: seq<T>, key: T -> Tuple, limit: nat, d: nat, page: Page<T>)
    requires limit > 0 && d <= |items| && PageFrom(items, key, limit, d, page)
    ensures if page.truncated then d + limit < |items| && StartsAt(items, key, page.next, d + limit)
            else |items| <= d + limit
  {
  }

  lemma PutFirst<T>(items: seq<T>, key: T -> Tuple, limit: nat, d: nat, page: Page<T>, rest: seq<Page<T>>)
    requires d + limit < |items| && PageFrom(items, key, limit, d, page)
    requires Flatten(rest) == items[d + limit..] && LastOnly(rest)
    ensures Flatten([page] + rest) == items[d..] && LastOnly([page] + rest)
  {
    assert ([page] + rest)[1..] == rest;
  }

  lemma Alone<T>(items: seq<T>, key: T -> Tuple, limit: nat, d: nat, page: Page<T>)
    requires d <= |items| <= d + limit && PageFrom(items, key, limit, d, page)
    ensures Flatten([page]) == items[d..] && LastOnly([page])
  {
    assert [page][1..] == [];
  }

  lemma CountStep(n: nat, limit: nat)
    requires limit > 0
    ensures PageCount(n, limit) == if n <= limit then 1 else 1 + PageCount(n - limit, limit)
  {
  }

  /** The ceiling of `n / limit`, and one page for no items: the last page is needed, and they all fit. */
  lemma {:induction false} CountIsCeiling(n: nat, limit: nat)
    requires limit > 0
    ensures n <= PageCount(n, limit) * limit
    ensures if n == 0 then PageCount(n, limit) == 1 else (PageCount(n, limit) - 1) * limit < n
  {
    if n > limit {
      var before := PageCount(n - limit, limit);
      CountIsCeiling(n - limit, limit);
      assert (before + 1) * limit == before * limit + limit;
      assert (before - 1) * limit == before * limit - limit;
    }
  }

  /**
   From the start to the end every item comes exactly once and in order, in as many pages as the
   items fill and at least one, and only the last page says it is not truncated. No walk needs
   more requests than there are items.
   */
  lemma WholeWalk<T>(items: seq<T>, limit: nat, key: T -> Tuple, reverse: bool)
    requires limit > 0 && StrictlyOrdered(items, key, reverse)
    ensures var pages := Follow(items, limit, key, reverse, None, |items|);
      && Flatten(pages) == items
      && |items| <= |pages| * limit
      && (if |items| == 0 then |pages| == 1 else (|pages| - 1) * limit < |items|)
      && LastOnly(pages)
  {
    FollowFrom(items, limit, key, reverse, None, 0, |items|);
    CountIsCeiling(|items|, limit);
  }

  /** Non-positive limits are refused, whatever remains. */
  lemma OnlyBadLimitsRefused<T>(remaining: seq<T>, limit: int, key: T -> Tuple)
    ensures Paginate(remaining, limit, key).Failure? <==> limit <= 0
    ensures limit > 0 ==> var p := Paginate(remaining, limit, key).value;
      p.items <= remaining && (p.truncated <==> p.items != remaining) && (p.next.Some? <==> p.truncated)
  {
  }
}
