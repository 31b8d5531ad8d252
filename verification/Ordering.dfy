/** Text order, stable sorting, and sums that do not depend on order. */
module Ordering {
  import opened Templates

  /** The order of strings by character code. */
  predicate TextLess(a: string, b: string) {
    if b == "" then false
    else if a == "" then true
    else a[0] < b[0] || (a[0] == b[0] && TextLess(a[1..], b[1..]))
  }

  lemma {:induction false} TextLessIrreflexive(a: string)
    ensures !TextLess(a, a)
  {
    if a != "" { TextLessIrreflexive(a[1..]); }
  }

  lemma {:induction false} TextLessTransitive(a: string, b: string, c: string)
    requires TextLess(a, b) && TextLess(b, c)
    ensures TextLess(a, c)
  {
    if a != "" && a[0] == b[0] && b[0] == c[0] { TextLessTransitive(a[1..], b[1..], c[1..]); }
  }

  lemma {:induction false} TextLessTotal(a: string, b: string)
    ensures TextLess(a, b) || a == b || TextLess(b, a)
  {
    if a != "" && b != "" && a[0] == b[0] {
      TextLessTotal(a[1..], b[1..]);
      if a[1..] == b[1..] { assert a == [a[0]] + a[1..] && b == [b[0]] + b[1..]; }
    }
  }

  lemma {:induction false} TextLessAsymmetric(a: string, b: string)
    requires TextLess(a, b)
    ensures !TextLess(b, a)
  {
    if TextLess(b, a) {
      TextLessTransitive(a, b, a);
      TextLessIrreflexive(a);
    }
  }

  predicate TextAtMost(a: string, b: string) {
    !TextLess(b, a)
  }

  /** A total preorder. */
  ghost predicate Ranks<T(!new)>(atMost: (T, T) -> bool) {
    && (forall a, b :: atMost(a, b) || atMost(b, a))
    && (forall a, b, c :: atMost(a, b) && atMost(b, c) ==> atMost(a, c))
  }

  lemma TextRanks()
    ensures Ranks(TextAtMost)
  {
    forall a: string, b: string
      ensures TextAtMost(a, b) || TextAtMost(b, a)
    {
      if TextLess(b, a) { TextLessAsymmetric(b, a); }
    }
    forall a: string, b: string, c: string | TextAtMost(a, b) && TextAtMost(b, c)
      ensures TextAtMost(a, c)
    {
      if TextLess(c, a) {
        TextLessTotal(a, b);
        if a == b { } else { TextLessTransitive(c, a, b); }
      }
    }
  }

  ghost predicate SortedBy<T>(xs: seq<T>, atMost: (T, T) -> bool) {
    forall i, j :: 0 <= i < j < |xs| ==> atMost(xs[i], xs[j])
  }

  function Insert<T>(x: T, xs: seq<T>, atMost: (T, T) -> bool): seq<T> {
    if xs == [] then [x]
    else if atMost(x, xs[0]) then [x] + xs
    else [xs[0]] + Insert(x, xs[1..], atMost)
  }

  /** Stable sorting by a total preorder. */
  function SortBy<T>(xs: seq<T>, atMost: (T, T) -> bool): seq<T> {
    if xs == [] then [] else Insert(xs[0], SortBy(xs[1..], atMost), atMost)
  }

  lemma {:induction false} InsertKeepsItems<T>(x: T, xs: seq<T>, atMost: (T, T) -> bool)
    ensures multiset(Insert(x, xs, atMost)) == multiset(xs) + multiset{x}
  {
    if xs != [] && !atMost(x, xs[0]) {
      InsertKeepsItems(x, xs[1..], atMost);
      assert xs == [xs[0]] + xs[1..];
    }
  }

  lemma {:induction false} InsertSorts<T(!new)>(x: T, xs: seq<T>, atMost: (T, T) -> bool)
    requires Ranks(atMost) && SortedBy(xs, atMost)
    ensures SortedBy(Insert(x, xs, atMost), atMost)
  {
    if xs != [] && !atMost(x, xs[0]) {
      InsertSorts(x, xs[1..], atMost);
      InsertKeepsItems(x, xs[1..], atMost);
      var rest := Insert(x, xs[1..], atMost);
      forall j | 0 <= j < |rest|
        ensures atMost(xs[0], rest[j])
      {
        assert rest[j] in multiset(rest);
        if rest[j] != x {
          var k :| 0 <= k < |xs[1..]| && xs[1..][k] == rest[j];
        }
      }
    }
  }

  lemma {:induction false} SortKeepsItems<T>(xs: seq<T>, atMost: (T, T) -> bool)
    ensures multiset(SortBy(xs, atMost)) == multiset(xs)
  {
    if xs != [] {
      SortKeepsItems(xs[1..], atMost);
      InsertKeepsItems(xs[0], SortBy(xs[1..], atMost), atMost);
      assert xs == [xs[0]] + xs[1..];
    }
  }

  lemma {:induction false} SortSorts<T(!new)>(xs: seq<T>, atMost: (T, T) -> bool)
    requires Ranks(atMost)
    ensures SortedBy(SortBy(xs, atMost), atMost)
  {
    if xs != [] {
      SortSorts(xs[1..], atMost);
      InsertSorts(xs[0], SortBy(xs[1..], atMost), atMost);
    }
  }

  /** The last item after sorting is a greatest one. */
  lemma LastIsGreatest<T(!new)>(xs: seq<T>, atMost: (T, T) -> bool)
    requires Ranks(atMost) && xs != []
    ensures var sorted := SortBy(xs, atMost);
            && sorted != []
            && sorted[|sorted| - 1] in xs
            && forall x :: x in xs ==> atMost(x, sorted[|sorted| - 1])
  {
    hide SortBy;
    var sorted := SortBy(xs, atMost);
    SortKeepsItems(xs, atMost);
    SortSorts(xs, atMost);
    assert |multiset(sorted)| == |sorted| && |multiset(xs)| == |xs|;
    var last := sorted[|sorted| - 1];
    assert last in multiset(xs);
    forall x | x in xs ensures atMost(x, last) {
      assert x in multiset(sorted);
      var i :| 0 <= i < |sorted| && sorted[i] == x;
      assert atMost(last, last);
    }
  }

  /** No two different items are tied. */
  ghost predicate Untied<T>(xs: seq<T>, atMost: (T, T) -> bool) {
    forall i, j :: 0 <= i < |xs| && 0 <= j < |xs| && atMost(xs[i], xs[j]) && atMost(xs[j], xs[i]) ==> xs[i] == xs[j]
  }

  /** A sequence without ties is the only sorted arrangement of its items. */
  lemma {:induction false} SortedIsUnique<T(!new)>(xs: seq<T>, ys: seq<T>, atMost: (T, T) -> bool)
    requires multiset(xs) == multiset(ys) && SortedBy(xs, atMost) && SortedBy(ys, atMost)
    requires Untied(xs, atMost)
    ensures xs == ys
  {
    hide SortedBy, Untied;
    assert |multiset(xs)| == |xs| && |multiset(ys)| == |ys|;
    if xs != [] {
      SameLeast(xs, ys, atMost);
      var xs', ys' := xs[1..], ys[1..];
      RestKeepsOrder(xs, atMost);
      RestKeepsOrder(ys, atMost);
      SortedIsUnique(xs', ys', atMost);
      assert xs == [xs[0]] + xs' && ys == [ys[0]] + ys';
    }
  }

  lemma RestKeepsOrder<T(!new)>(xs: seq<T>, atMost: (T, T) -> bool)
    requires xs != []
    ensures multiset(xs[1..]) == multiset(xs) - multiset{xs[0]}
    ensures SortedBy(xs, atMost) ==> SortedBy(xs[1..], atMost)
    ensures Untied(xs, atMost) ==> Untied(xs[1..], atMost)
  {
    assert xs == [xs[0]] + xs[1..];
    assert forall i :: 0 <= i < |xs[1..]| ==> xs[1..][i] == xs[i + 1];
  }

  lemma SameLeast<T(!new)>(xs: seq<T>, ys: seq<T>, atMost: (T, T) -> bool)
    requires multiset(xs) == multiset(ys) && SortedBy(xs, atMost) && SortedBy(ys, atMost)
    requires Untied(xs, atMost) && xs != [] && ys != []
    ensures xs[0] == ys[0]
  {
    assert xs[0] in multiset(ys) && ys[0] in multiset(xs);
    var i :| 0 <= i < |ys| && ys[i] == xs[0];
    var j :| 0 <= j < |xs| && xs[j] == ys[0];
    if i > 0 && j > 0 {
      assert atMost(ys[0], ys[i]) && atMost(xs[0], xs[j]);
    }
  }

  // ----- sums -----

  function Sum(xs: seq<real>): real {
    if xs == [] then 0.0 else xs[0] + Sum(xs[1..])
  }

  lemma {:induction false} SumOfConcat(xs: seq<real>, ys: seq<real>)
    ensures Sum(xs + ys) == Sum(xs) + Sum(ys)
  {
    if xs == [] {
      assert xs + ys == ys;
    } else {
      assert (xs + ys)[1..] == xs[1..] + ys;
      SumOfConcat(xs[1..], ys);
    }
  }

  /** A sum depends only on which numbers occur, and how often. */
  lemma {:induction false} SumIsOrderFree(xs: seq<real>, ys: seq<real>)
    requires multiset(xs) == multiset(ys)
    ensures Sum(xs) == Sum(ys)
  {
    assert |multiset(xs)| == |xs| && |multiset(ys)| == |ys|;
    if xs != [] {
      var i := TakeOut(xs, ys);
      var rest := ys[..i] + ys[i + 1..];
      SumIsOrderFree(xs[1..], rest);
      SumOfConcat(ys[..i], ys[i + 1..]);
      SumOfConcat(ys[..i], [ys[i]] + ys[i + 1..]);
      assert ([ys[i]] + ys[i + 1..])[1..] == ys[i + 1..];
    }
  }

  // ----- keeping the results that exist -----

  ghost function FilterMap<T, U>(xs: seq<T>, f: T -> Option<U>): seq<U> {
    if xs == [] then []
    else (match f(xs[0]) case None => [] case Some(u) => [u]) + FilterMap(xs[1..], f)
  }

  /** One step of a loop that gathers the results that exist. */
  lemma FilterMapStep<T, U>(xs: seq<T>, i: nat, f: T -> Option<U>, done: seq<U>)
    requires i < |xs| && done + FilterMap(xs[i..], f) == FilterMap(xs, f)
    ensures f(xs[i]).None? ==> done + FilterMap(xs[i + 1..], f) == FilterMap(xs, f)
    ensures f(xs[i]).Some? ==> done + [f(xs[i]).value] + FilterMap(xs[i + 1..], f) == FilterMap(xs, f)
  {
    hide FilterMap;
    FilterMapUnfolds(xs, i, f);
    if f(xs[i]).Some? {
      var u := f(xs[i]).value;
      assert done + ([u] + FilterMap(xs[i + 1..], f)) == done + [u] + FilterMap(xs[i + 1..], f);
    }
  }

  lemma FilterMapUnfolds<T, U>(xs: seq<T>, i: nat, f: T -> Option<U>)
    requires i < |xs|
    ensures f(xs[i]).None? ==> FilterMap(xs[i..], f) == FilterMap(xs[i + 1..], f)
    ensures f(xs[i]).Some? ==> FilterMap(xs[i..], f) == [f(xs[i]).value] + FilterMap(xs[i + 1..], f)
  {
    assert xs[i..][1..] == xs[i + 1..];
  }

  lemma FilterMapEnds<T, U>(xs: seq<T>, f: T -> Option<U>, done: seq<U>)
    ensures [] + FilterMap(xs[0..], f) == FilterMap(xs, f)
    ensures done + FilterMap(xs[|xs|..], f) == done
  {
    assert xs[0..] == xs && xs[|xs|..] == [];
  }

  lemma {:induction false} FilterMapOfConcat<T, U>(xs: seq<T>, ys: seq<T>, f: T -> Option<U>)
    ensures FilterMap(xs + ys, f) == FilterMap(xs, f) + FilterMap(ys, f)
  {
    if xs == [] {
      assert xs + ys == ys;
    } else {
      assert (xs + ys)[1..] == xs[1..] + ys;
      FilterMapOfConcat(xs[1..], ys, f);
    }
  }

  lemma {:induction false} FilterMapIsOrderFree<T, U>(xs: seq<T>, ys: seq<T>, f: T -> Option<U>)
    requires multiset(xs) == multiset(ys)
    ensures multiset(FilterMap(xs, f)) == multiset(FilterMap(ys, f))
  {
    assert |multiset(xs)| == |xs| && |multiset(ys)| == |ys|;
    if xs != [] {
      var i := TakeOut(xs, ys);
      var rest := ys[..i] + ys[i + 1..];
      FilterMapIsOrderFree(xs[1..], rest, f);
      FilterMapOfConcat(ys[..i], ys[i + 1..], f);
      FilterMapOfConcat(ys[..i], [ys[i]] + ys[i + 1..], f);
      assert ([ys[i]] + ys[i + 1..])[1..] == ys[i + 1..];
    }
  }

  /** The first item of one arrangement, found and removed in the other. */
  lemma TakeOut<T>(xs: seq<T>, ys: seq<T>) returns (i: nat)
    requires multiset(xs) == multiset(ys) && xs != []
    ensures i < |ys| && ys[i] == xs[0] && ys == ys[..i] + ([ys[i]] + ys[i + 1..])
    ensures multiset(xs[1..]) == multiset(ys[..i] + ys[i + 1..])
  {
    assert xs[0] in multiset(ys);
    i :| 0 <= i < |ys| && ys[i] == xs[0];
    assert ys == ys[..i] + ([ys[i]] + ys[i + 1..]);
    assert xs == [xs[0]] + xs[1..];
    assert multiset(xs[1..]) == multiset(xs) - multiset{xs[0]};
    assert multiset(ys[..i] + ys[i + 1..]) == multiset(ys) - multiset{xs[0]};
  }
}
