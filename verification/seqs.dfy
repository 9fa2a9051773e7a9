/**
 * Order-preserving list combinators. Every `Array.prototype.filter` and
 * filter-then-map chain in the application is an instance of `Filter` or
 * `FilterMap`, so their laws are proved once here.
 */
module Seqs {
  import opened Wrappers

  /** `s.filter(keep)`: the elements of `s` that satisfy `keep`, in their original order. */
  function Filter<T(==,!new)>(s: seq<T>, keep: T -> bool): (r: seq<T>)
    ensures |r| <= |s|
    ensures forall x :: x in r <==> x in s && keep(x)
  {
    if s == [] then []
    else
      assert s == [s[0]] + s[1..];
      (if keep(s[0]) then [s[0]] else []) + Filter(s[1..], keep)
  }

  /** Filtering distributes over concatenation: no element is moved across another. */
  lemma {:induction false} FilterAppend<T(!new)>(a: seq<T>, b: seq<T>, keep: T -> bool)
    ensures Filter(a + b, keep) == Filter(a, keep) + Filter(b, keep)
  {
    if a == [] {
      assert a + b == b;
    } else {
      var ab := a + b;
      var head := if keep(a[0]) then [a[0]] else [];
      assert ab[0] == a[0];
      assert ab[1..] == a[1..] + b;
      FilterAppend(a[1..], b, keep);
      assert Filter(ab, keep) == head + Filter(ab[1..], keep);
      assert Filter(a, keep) == head + Filter(a[1..], keep);
      assert head + (Filter(a[1..], keep) + Filter(b, keep)) == (head + Filter(a[1..], keep)) + Filter(b, keep);
    }
  }

  /** A filter keeps every copy of a kept element and no copy of a dropped one. */
  lemma {:induction false} FilterCounts<T(!new)>(s: seq<T>, keep: T -> bool)
    ensures forall x :: multiset(Filter(s, keep))[x] == if keep(x) then multiset(s)[x] else 0
  {
    if s != [] {
      FilterCounts(s[1..], keep);
      assert s == [s[0]] + s[1..];
    }
  }

  /** A filter that keeps every element returns the list itself. */
  lemma {:induction false} FilterKeepsAll<T(!new)>(s: seq<T>, keep: T -> bool)
    requires forall i :: 0 <= i < |s| ==> keep(s[i])
    ensures Filter(s, keep) == s
  {
    if s != [] {
      FilterKeepsAll(s[1..], keep);
    }
  }

  /** A filter returns the whole list exactly when every element passes it. */
  lemma {:induction false} FilterDropsNothingIff<T(!new)>(s: seq<T>, keep: T -> bool)
    ensures |Filter(s, keep)| == |s| <==> forall i :: 0 <= i < |s| ==> keep(s[i])
  {
    if s != [] {
      FilterDropsNothingIff(s[1..], keep);
      assert forall i :: 1 <= i < |s| ==> s[i] == s[1..][i - 1];
    }
  }

  /** A filter that keeps no element returns the empty list. */
  lemma {:induction false} FilterKeepsNone<T(!new)>(s: seq<T>, keep: T -> bool)
    requires forall i :: 0 <= i < |s| ==> !keep(s[i])
    ensures Filter(s, keep) == []
  {
    if s != [] {
      FilterKeepsNone(s[1..], keep);
    }
  }

  /** A prefix splits at any earlier point into a shorter prefix and the slice between. */
  lemma PrefixSplit<T>(s: seq<T>, i: nat, j: nat)
    requires i <= j <= |s|
    ensures s[..j] == s[..i] + s[i..j]
  {
  }

  /** No element occurs twice. */
  predicate NoDup<T(==)>(s: seq<T>) {
    forall i, j :: 0 <= i < j < |s| ==> s[i] != s[j]
  }

  /** Filtering a duplicate-free list leaves it duplicate-free. */
  lemma {:induction false} FilterKeepsNoDup<T(!new)>(s: seq<T>, keep: T -> bool)
    requires NoDup(s)
    ensures NoDup(Filter(s, keep))
  {
    if s != [] {
      assert NoDup(s[1..]);
      FilterKeepsNoDup(s[1..], keep);
      assert s[0] !in s[1..];
    }
  }

  /**
   * `s.map(f).filter(nonEmpty)` collapsed into one pass: the values `f` yields, in
   * the order of their sources, with the `None`s dropped.
   */
  function FilterMap<T, U>(s: seq<T>, f: T -> Option<U>): (r: seq<U>)
    ensures |r| <= |s|
    ensures (forall i :: 0 <= i < |s| ==> f(s[i]).Some?) ==>
              |r| == |s| && forall i :: 0 <= i < |s| ==> r[i] == f(s[i]).value
    ensures (forall i :: 0 <= i < |s| ==> f(s[i]).None?) ==> r == []
  {
    if s == [] then []
    else
      (match f(s[0]) case Some(y) => [y] case None => []) + FilterMap(s[1..], f)
  }

  /** `FilterMap` distributes over concatenation. */
  lemma {:induction false} FilterMapAppend<T, U>(a: seq<T>, b: seq<T>, f: T -> Option<U>)
    ensures FilterMap(a + b, f) == FilterMap(a, f) + FilterMap(b, f)
  {
    if a == [] {
      assert a + b == b;
    } else {
      assert (a + b)[1..] == a[1..] + b;
      FilterMapAppend(a[1..], b, f);
    }
  }

  /**
   * `r` is what `f` yields at the positions `idx` of `s`: the positions are
   * increasing, they are every position where `f` yields a value, and `r`
   * holds those values in that order.
   */
  ghost predicate Picks<T, U>(s: seq<T>, f: T -> Option<U>, r: seq<U>, idx: seq<nat>) {
    && |idx| == |r|
    && (forall j :: 0 <= j < |idx| ==> idx[j] < |s| && f(s[idx[j]]).Some? && r[j] == f(s[idx[j]]).value)
    && (forall j, j' :: 0 <= j < j' < |idx| ==> idx[j] < idx[j'])
    && (forall i :: 0 <= i < |s| && f(s[i]).Some? ==> i in idx)
  }

  /** Every position moved one place on. */
  function Shift(idx: seq<nat>): (r: seq<nat>)
    ensures |r| == |idx| && forall j :: 0 <= j < |idx| ==> r[j] == idx[j] + 1
  {
    seq(|idx|, j requires 0 <= j < |idx| => idx[j] + 1)
  }

  /** The values picked in a tail, seen from the whole list. */
  lemma PicksInTailValues<T, U>(s: seq<T>, f: T -> Option<U>, r: seq<U>, idx: seq<nat>)
    requires |s| > 0 && Picks(s[1..], f, r, idx)
    ensures forall j :: 0 <= j < |idx| ==> 1 <= Shift(idx)[j] < |s| && f(s[Shift(idx)[j]]).Some? && r[j] == f(s[Shift(idx)[j]]).value
  {
    var shifted := Shift(idx);
    forall j | 0 <= j < |idx|
      ensures 1 <= shifted[j] < |s| && f(s[shifted[j]]).Some? && r[j] == f(s[shifted[j]]).value
    {
      assert s[shifted[j]] == s[1..][idx[j]];
    }
  }

  /** The positions picked in a tail cover every later position that yields a value. */
  lemma PicksInTailCovers<T, U>(s: seq<T>, f: T -> Option<U>, r: seq<U>, idx: seq<nat>)
    requires |s| > 0 && Picks(s[1..], f, r, idx)
    ensures forall i :: 1 <= i < |s| && f(s[i]).Some? ==> i in Shift(idx)
  {
    var shifted := Shift(idx);
    forall i | 1 <= i < |s| && f(s[i]).Some?
      ensures i in shifted
    {
      assert s[1..][i - 1] == s[i];
      var j :| 0 <= j < |idx| && idx[j] == i - 1;
      assert shifted[j] == i;
    }
  }

  /** A first element that yields nothing is skipped. */
  lemma PicksSkip<T, U>(s: seq<T>, f: T -> Option<U>, r: seq<U>, idx: seq<nat>)
    requires |s| > 0 && f(s[0]).None? && Picks(s[1..], f, r, idx)
    ensures Picks(s, f, r, Shift(idx))
  {
    PicksInTailValues(s, f, r, idx);
    PicksInTailCovers(s, f, r, idx);
  }

  /** A first element that yields a value is picked first. */
  lemma PicksTake<T, U>(s: seq<T>, f: T -> Option<U>, r: seq<U>, idx: seq<nat>)
    requires |s| > 0 && f(s[0]).Some? && Picks(s[1..], f, r, idx)
    ensures Picks(s, f, [f(s[0]).value] + r, [0] + Shift(idx))
  {
    PicksTakeValues(s, f, r, idx);
    PicksTakeIncreasing(s, f, r, idx);
    PicksTakeCovers(s, f, r, idx);
  }

  lemma PicksTakeValues<T, U>(s: seq<T>, f: T -> Option<U>, r: seq<U>, idx: seq<nat>)
    requires |s| > 0 && f(s[0]).Some? && Picks(s[1..], f, r, idx)
    ensures var all, rr := [0] + Shift(idx), [f(s[0]).value] + r;
      forall j :: 0 <= j < |all| ==> all[j] < |s| && f(s[all[j]]).Some? && rr[j] == f(s[all[j]]).value
  {
    var sh := Shift(idx);
    var all, rr := [0] + sh, [f(s[0]).value] + r;
    PicksInTailValues(s, f, r, idx);
    forall j | 1 <= j < |all|
      ensures all[j] < |s| && f(s[all[j]]).Some? && rr[j] == f(s[all[j]]).value
    {
      assert all[j] == sh[j - 1] && rr[j] == r[j - 1];
    }
  }

  lemma PicksTakeIncreasing<T, U>(s: seq<T>, f: T -> Option<U>, r: seq<U>, idx: seq<nat>)
    requires |s| > 0 && f(s[0]).Some? && Picks(s[1..], f, r, idx)
    ensures var all := [0] + Shift(idx); forall j, j' :: 0 <= j < j' < |all| ==> all[j] < all[j']
  {
    var sh := Shift(idx);
    var all := [0] + sh;
    assert forall j, j' :: 0 <= j < j' < |idx| ==> idx[j] < idx[j'];
    forall j, j' | 0 <= j < j' < |all|
      ensures all[j] < all[j']
    {
      assert all[j'] == idx[j' - 1] + 1;
      if j > 0 {
        assert all[j] == idx[j - 1] + 1;
      }
    }
  }

  lemma PicksTakeCovers<T, U>(s: seq<T>, f: T -> Option<U>, r: seq<U>, idx: seq<nat>)
    requires |s| > 0 && f(s[0]).Some? && Picks(s[1..], f, r, idx)
    ensures forall i :: 0 <= i < |s| && f(s[i]).Some? ==> i in [0] + Shift(idx)
  {
    var sh := Shift(idx);
    var all := [0] + sh;
    PicksInTailCovers(s, f, r, idx);
    forall i | 1 <= i < |s| && f(s[i]).Some?
      ensures i in all
    {
      assert i in sh;
    }
  }

  /** `FilterMap` keeps exactly the positions where `f` yields a value, in order. */
  lemma {:induction false} FilterMapPicks<T, U>(s: seq<T>, f: T -> Option<U>) returns (idx: seq<nat>)
    ensures Picks(s, f, FilterMap(s, f), idx)
  {
    if s == [] {
      return [];
    }
    var rest := FilterMapPicks(s[1..], f);
    if f(s[0]).Some? {
      assert FilterMap(s, f) == [f(s[0]).value] + FilterMap(s[1..], f);
      PicksTake(s, f, FilterMap(s[1..], f), rest);
      idx := [0] + Shift(rest);
    } else {
      assert FilterMap(s, f) == FilterMap(s[1..], f);
      PicksSkip(s, f, FilterMap(s[1..], f), rest);
      idx := Shift(rest);
    }
  }

  /**
   * `Promise.all(s.map(f))` where `None` is a rejection: all the values in order
   * when every element yields one, otherwise nothing.
   */
  function AllSome<T, U>(s: seq<T>, f: T -> Option<U>): (r: Option<seq<U>>)
    ensures r.Some? <==> forall i :: 0 <= i < |s| ==> f(s[i]).Some?
    ensures r.Some? ==> |r.value| == |s| && forall i :: 0 <= i < |s| ==> r.value[i] == f(s[i]).value
  {
    if s == [] then Some([])
    else if f(s[0]).None? then None
    else
      var rest := AllSome(s[1..], f);
      if rest.Some? then Some([f(s[0]).value] + rest.value)
      else
        var j :| 0 <= j < |s| - 1 && f(s[1..][j]).None?;
        assert s[1..][j] == s[j + 1];
        None
  }

  /** `AllSome` distributes over concatenation when both runs succeed. */
  lemma AllSomeAppend<T, U>(a: seq<T>, b: seq<T>, f: T -> Option<U>)
    requires AllSome(a, f).Some? && AllSome(b, f).Some?
    ensures AllSome(a + b, f) == Some(AllSome(a, f).value + AllSome(b, f).value)
  {
    var ab := a + b;
    forall i | 0 <= i < |ab|
      ensures f(ab[i]).Some? && f(ab[i]).value == (AllSome(a, f).value + AllSome(b, f).value)[i]
    {
      if i < |a| {
        assert ab[i] == a[i];
      } else {
        assert ab[i] == b[i - |a|];
      }
    }
    var r := AllSome(ab, f).value;
    assert |r| == |AllSome(a, f).value + AllSome(b, f).value|;
    assert r == AllSome(a, f).value + AllSome(b, f).value;
  }

  /**
   * A `FilterMap` whose function yields a value exactly where `keep` holds is
   * `Filter` by `keep` followed by taking those values.
   */
  lemma {:induction false} FilterMapIsFilterThenMap<T(!new), U>(s: seq<T>, f: T -> Option<U>, keep: T -> bool)
    requires forall x :: keep(x) <==> f(x).Some?
    ensures |FilterMap(s, f)| == |Filter(s, keep)|
    ensures forall i :: 0 <= i < |Filter(s, keep)| ==> FilterMap(s, f)[i] == f(Filter(s, keep)[i]).value
  {
    if s != [] {
      FilterMapIsFilterThenMap(s[1..], f, keep);
      var r, k := FilterMap(s, f), Filter(s, keep);
      var rt, kt := FilterMap(s[1..], f), Filter(s[1..], keep);
      if keep(s[0]) {
        assert r == [f(s[0]).value] + rt;
        assert k == [s[0]] + kt;
        forall i | 1 <= i < |k|
          ensures r[i] == f(k[i]).value
        {
          assert r[i] == rt[i - 1] && k[i] == kt[i - 1];
        }
      } else {
        assert r == rt && k == kt;
      }
    }
  }
}
