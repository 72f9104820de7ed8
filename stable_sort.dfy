/**
 * Sorting the visible profiles by a numeric column with
 * `filtered.sort((a, b) => aVal - bVal)` (or `bVal - aVal` for descending),
 * where a null value reads as 0. `Array.prototype.sort` is stable, so profiles
 * with equal keys keep their relative order.
 */
module StableSort {
  import opened Types
  import opened Seqs

  /** The sort key `a[sortField] ?? 0`: the column's value, with null read as 0. */
  function Key(p: Profile, f: NumericField): int
  {
    var v := match f
      case YearsExperience => p.yearsExperience
      case YearsAtCurrentCompany => p.yearsAtCurrentCompany;
    match v
    case Some(n) => n
    case None => 0
  }

  /** Where a profile goes under the chosen direction: the key itself, or its negation for `Desc`. */
  function Rank(p: Profile, f: NumericField, dir: SortDirection): int
  {
    if dir == Asc then Key(p, f) else -Key(p, f)
  }

  /**
   * The comparator handed to `sort`: `aVal - bVal` for `Asc`, `bVal - aVal`
   * for `Desc`. Its sign is that of the rank difference, so it is negative
   * when `a` goes first and zero exactly on equal keys.
   */
  function Compare(a: Profile, b: Profile, f: NumericField, dir: SortDirection): (c: int)
    ensures c == Rank(a, f, dir) - Rank(b, f, dir)
    ensures c == 0 <==> Key(a, f) == Key(b, f)
  {
    match dir
    case Asc => Key(a, f) - Key(b, f)
    case Desc => Key(b, f) - Key(a, f)
  }

  /** No pair of elements is out of order under the comparator. */
  predicate Ordered(s: seq<Profile>, f: NumericField, dir: SortDirection)
  {
    forall i, j :: 0 <= i < j < |s| ==> Rank(s[i], f, dir) <= Rank(s[j], f, dir)
  }

  /** The profiles of `s` whose key is `k`, in the order `s` has them. */
  function KeyClass(s: seq<Profile>, f: NumericField, k: int): (r: seq<Profile>)
    ensures |r| <= |s|
  {
    if s == [] then []
    else Own(s[0], f, k) + KeyClass(s[1..], f, k)
  }

  /** `[p]` when `p` has key `k`, otherwise nothing. */
  function Own(p: Profile, f: NumericField, k: int): (r: seq<Profile>)
    ensures |r| <= 1
  {
    if Key(p, f) == k then [p] else []
  }

  /**
   * `r` is what a stable sort of `s` yields: ordered by the comparator, and
   * within each key the profiles appear exactly as they do in `s`.
   */
  ghost predicate IsStableSortOf(r: seq<Profile>, s: seq<Profile>, f: NumericField, dir: SortDirection)
  {
    Ordered(r, f, dir) && forall k :: KeyClass(r, f, k) == KeyClass(s, f, k)
  }

  /**
   * Inserts `x` into the sorted `s` by walking left past every element that
   * compares greater than `x`, as one pass of an insertion sort does.
   */
  function InsertLast(s: seq<Profile>, x: Profile, f: NumericField, dir: SortDirection): (r: seq<Profile>)
    ensures |r| == |s| + 1
  {
    if s == [] then [x]
    else if Compare(s[|s| - 1], x, f, dir) > 0 then InsertLast(s[..|s| - 1], x, f, dir) + [s[|s| - 1]]
    else s + [x]
  }

  /** Insertion adds `x` and loses nothing. */
  lemma {:induction false} InsertLastPermutes(s: seq<Profile>, x: Profile, f: NumericField, dir: SortDirection)
    ensures multiset(InsertLast(s, x, f, dir)) == multiset(s) + multiset{x}
  {
    if s != [] && Compare(s[|s| - 1], x, f, dir) > 0 {
      var init, last := s[..|s| - 1], s[|s| - 1];
      InsertLastPermutes(init, x, f, dir);
      InitLast(s);
    }
  }

  /** The stable sort of `s`: insert each element, left to right, into the sorted prefix. */
  function SortBy(s: seq<Profile>, f: NumericField, dir: SortDirection): (r: seq<Profile>)
    ensures |r| == |s|
  {
    if s == [] then []
    else InsertLast(SortBy(s[..|s| - 1], f, dir), s[|s| - 1], f, dir)
  }

  /** The sorted sequence is a permutation of its input. */
  lemma {:induction false} SortByPermutes(s: seq<Profile>, f: NumericField, dir: SortDirection)
    ensures multiset(SortBy(s, f, dir)) == multiset(s)
  {
    if s != [] {
      var init, last := s[..|s| - 1], s[|s| - 1];
      SortByPermutes(init, f, dir);
      InsertLastPermutes(SortBy(init, f, dir), last, f, dir);
      InitLast(s);
    }
  }

  /** The sorted sequence is ordered by the comparator. */
  lemma {:induction false} SortByIsOrdered(s: seq<Profile>, f: NumericField, dir: SortDirection)
    ensures Ordered(SortBy(s, f, dir), f, dir)
  {
    if s != [] {
      var init := s[..|s| - 1];
      SortByIsOrdered(init, f, dir);
      InsertLastOrdered(SortBy(init, f, dir), s[|s| - 1], f, dir);
    }
  }

  /** Ordered by the comparator means keys non-decreasing for `Asc` and non-increasing for `Desc`. */
  lemma OrderedKeys(s: seq<Profile>, f: NumericField, dir: SortDirection)
    requires Ordered(s, f, dir)
    ensures dir == Asc ==> forall i, j :: 0 <= i < j < |s| ==> Key(s[i], f) <= Key(s[j], f)
    ensures dir == Desc ==> forall i, j :: 0 <= i < j < |s| ==> Key(s[i], f) >= Key(s[j], f)
  {
    forall i, j | 0 <= i < j < |s|
      ensures Rank(s[i], f, dir) <= Rank(s[j], f, dir)
    {
    }
  }

  /** Every element of the insertion ranks at most `bound` when `x` and every element of `s` do. */
  lemma {:induction false} InsertLastBounded(s: seq<Profile>, x: Profile, f: NumericField, dir: SortDirection, bound: int)
    requires forall i :: 0 <= i < |s| ==> Rank(s[i], f, dir) <= bound
    requires Rank(x, f, dir) <= bound
    ensures forall i :: 0 <= i < |s| + 1 ==> Rank(InsertLast(s, x, f, dir)[i], f, dir) <= bound
  {
    if s != [] && Compare(s[|s| - 1], x, f, dir) > 0 {
      InsertLastBounded(s[..|s| - 1], x, f, dir, bound);
    }
  }

  lemma {:induction false} InsertLastOrdered(s: seq<Profile>, x: Profile, f: NumericField, dir: SortDirection)
    requires Ordered(s, f, dir)
    ensures Ordered(InsertLast(s, x, f, dir), f, dir)
  {
    if s != [] {
      var init, last := s[..|s| - 1], s[|s| - 1];
      var r := InsertLast(s, x, f, dir);
      if Compare(last, x, f, dir) > 0 {
        var rest := InsertLast(init, x, f, dir);
        InsertLastOrdered(init, x, f, dir);
        InsertLastBounded(init, x, f, dir, Rank(last, f, dir));
        assert r == rest + [last];
        forall i, j | 0 <= i < j < |r|
          ensures Rank(r[i], f, dir) <= Rank(r[j], f, dir)
        {
          assert r[i] == rest[i];
          if j < |rest| {
            assert r[j] == rest[j];
          }
        }
      } else {
        assert r == s + [x];
        forall i, j | 0 <= i < j < |r|
          ensures Rank(r[i], f, dir) <= Rank(r[j], f, dir)
        {
          assert r[i] == s[i];
          if j < |s| {
            assert r[j] == s[j];
          } else if i < |s| - 1 {
            assert Rank(s[i], f, dir) <= Rank(last, f, dir);
          }
        }
      }
    }
  }

  /** Appending one profile extends its own key class only. */
  lemma {:induction false} KeyClassSnoc(s: seq<Profile>, x: Profile, f: NumericField, k: int)
    ensures KeyClass(s + [x], f, k) == KeyClass(s, f, k) + Own(x, f, k)
    decreases |s|
  {
    if s == [] {
      assert [] + [x] == [x];
    } else {
      assert (s + [x])[1..] == s[1..] + [x];
      KeyClassSnoc(s[1..], x, f, k);
    }
  }

  /** Profiles with different keys never share a class, so their contributions commute. */
  lemma OwnCommute(a: seq<Profile>, x: Profile, y: Profile, f: NumericField, k: int)
    requires Key(x, f) != Key(y, f)
    ensures a + Own(x, f, k) + Own(y, f, k) == a + Own(y, f, k) + Own(x, f, k)
  {
    if Key(x, f) == k {
      assert Own(y, f, k) == [];
    } else {
      assert Own(x, f, k) == [];
    }
  }

  /** Inserting `x` appends it to its own key class and leaves every other class alone. */
  lemma {:induction false} InsertLastKeyClass(s: seq<Profile>, x: Profile, f: NumericField, dir: SortDirection, k: int)
    ensures KeyClass(InsertLast(s, x, f, dir), f, k) == KeyClass(s, f, k) + Own(x, f, k)
  {
    if s == [] {
      KeyClassSnoc([], x, f, k);
    } else if Compare(s[|s| - 1], x, f, dir) > 0 {
      var init, last := s[..|s| - 1], s[|s| - 1];
      var rest := InsertLast(init, x, f, dir);
      InsertLastKeyClass(init, x, f, dir, k);
      InitLast(s);
      KeyClassSnoc(init, last, f, k);
      KeyClassSnoc(rest, last, f, k);
      OwnCommute(KeyClass(init, f, k), x, last, f, k);
    } else {
      KeyClassSnoc(s, x, f, k);
    }
  }

  /** Sorting keeps every key class as it was: the sort is stable. */
  lemma {:induction false} SortByKeyClass(s: seq<Profile>, f: NumericField, dir: SortDirection, k: int)
    ensures KeyClass(SortBy(s, f, dir), f, k) == KeyClass(s, f, k)
  {
    if s != [] {
      var init := s[..|s| - 1];
      SortByKeyClass(init, f, dir, k);
      InsertLastKeyClass(SortBy(init, f, dir), s[|s| - 1], f, dir, k);
      InitLast(s);
      KeyClassSnoc(init, s[|s| - 1], f, k);
    }
  }

  lemma SortByIsStableSort(s: seq<Profile>, f: NumericField, dir: SortDirection)
    ensures IsStableSortOf(SortBy(s, f, dir), s, f, dir)
  {
    SortByIsOrdered(s, f, dir);
    forall k {
      SortByKeyClass(s, f, dir, k);
    }
  }

  /** Prepending one profile puts it in front of its own key class only. */
  lemma KeyClassCons(p: Profile, s: seq<Profile>, f: NumericField, k: int)
    ensures KeyClass([p] + s, f, k) == Own(p, f, k) + KeyClass(s, f, k)
  {
    assert ([p] + s)[1..] == s;
  }

  /** A key class holds exactly the profiles of `s` with that key. */
  lemma {:induction false} KeyClassMember(s: seq<Profile>, f: NumericField, k: int, p: Profile)
    ensures p in KeyClass(s, f, k) <==> p in s && Key(p, f) == k
  {
    if s != [] {
      KeyClassMember(s[1..], f, k, p);
      HeadTail(s);
    }
  }

  /** The first element of an ordered sequence has the least rank. */
  lemma HeadLeast(r: seq<Profile>, f: NumericField, dir: SortDirection, p: Profile)
    requires Ordered(r, f, dir) && r != [] && p in r
    ensures Rank(r[0], f, dir) <= Rank(p, f, dir)
  {
    var i :| 0 <= i < |r| && r[i] == p;
    if i > 0 {
      assert Rank(r[0], f, dir) <= Rank(r[i], f, dir);
    }
  }

  /** Equal key classes of two non-empty sequences whose heads share a key: the heads and the tails' classes agree. */
  lemma ConsKeyClasses(r1: seq<Profile>, r2: seq<Profile>, f: NumericField, k: int)
    requires r1 != [] && r2 != [] && Key(r1[0], f) == Key(r2[0], f)
    requires KeyClass(r1, f, k) == KeyClass(r2, f, k)
    ensures KeyClass(r1[1..], f, k) == KeyClass(r2[1..], f, k)
    ensures Key(r1[0], f) == k ==> r1[0] == r2[0]
  {
    var a, t1, b, t2 := r1[0], r1[1..], r2[0], r2[1..];
    if Key(a, f) == k {
      ConsInjective(a, KeyClass(t1, f, k), b, KeyClass(t2, f, k));
    } else {
      assert Own(a, f, k) == [] && Own(b, f, k) == [];
      EmptyAppend(KeyClass(t1, f, k));
      EmptyAppend(KeyClass(t2, f, k));
    }
  }

  /** Ordered sequences with the same key classes are both empty, or start with the same key. */
  lemma HeadsShareKey(r1: seq<Profile>, r2: seq<Profile>, f: NumericField, dir: SortDirection)
    requires Ordered(r1, f, dir) && Ordered(r2, f, dir)
    requires forall k :: KeyClass(r1, f, k) == KeyClass(r2, f, k)
    ensures r1 == [] <==> r2 == []
    ensures r1 != [] ==> Key(r1[0], f) == Key(r2[0], f)
  {
    if r1 != [] {
      KeyClassMember(r1, f, Key(r1[0], f), r1[0]);
      KeyClassMember(r2, f, Key(r1[0], f), r1[0]);
    }
    if r2 != [] {
      KeyClassMember(r1, f, Key(r2[0], f), r2[0]);
      KeyClassMember(r2, f, Key(r2[0], f), r2[0]);
    }
    if r1 != [] && r2 != [] {
      HeadLeast(r2, f, dir, r1[0]);
      HeadLeast(r1, f, dir, r2[0]);
      assert Rank(r1[0], f, dir) == Rank(r2[0], f, dir);
    }
  }

  /** With equal key classes and heads of the same key, the heads are equal and so are the tails' classes. */
  lemma TailsShareKeyClasses(r1: seq<Profile>, r2: seq<Profile>, f: NumericField)
    requires r1 != [] && r2 != [] && Key(r1[0], f) == Key(r2[0], f)
    requires forall k :: KeyClass(r1, f, k) == KeyClass(r2, f, k)
    ensures r1[0] == r2[0]
    ensures forall k :: KeyClass(r1[1..], f, k) == KeyClass(r2[1..], f, k)
  {
    forall k
      ensures KeyClass(r1[1..], f, k) == KeyClass(r2[1..], f, k)
    {
      ConsKeyClasses(r1, r2, f, k);
    }
    ConsKeyClasses(r1, r2, f, Key(r1[0], f));
  }

  /** Two ordered sequences with the same key classes are equal. */
  lemma {:induction false} OrderedUnique(r1: seq<Profile>, r2: seq<Profile>, f: NumericField, dir: SortDirection)
    requires Ordered(r1, f, dir) && Ordered(r2, f, dir)
    requires forall k :: KeyClass(r1, f, k) == KeyClass(r2, f, k)
    ensures r1 == r2
    decreases |r1|
  {
    HeadsShareKey(r1, r2, f, dir);
    if r1 != [] {
      TailsShareKeyClasses(r1, r2, f);
      OrderedUnique(r1[1..], r2[1..], f, dir);
      assert r1 == [r1[0]] + r1[1..] && r2 == [r2[0]] + r2[1..];
    }
  }

  /**
   * Every stable sort gives the same result, so `SortBy` is what any
   * conforming `Array.prototype.sort` returns for this comparator.
   */
  lemma StableSortUnique(r: seq<Profile>, s: seq<Profile>, f: NumericField, dir: SortDirection)
    requires IsStableSortOf(r, s, f, dir)
    ensures r == SortBy(s, f, dir)
  {
    SortByIsStableSort(s, f, dir);
    OrderedUnique(r, SortBy(s, f, dir), f, dir);
  }

  /** A sequence already in order is left as it is; in particular sorting twice is sorting once. */
  lemma SortByAlreadyOrdered(s: seq<Profile>, f: NumericField, dir: SortDirection)
    requires Ordered(s, f, dir)
    ensures SortBy(s, f, dir) == s
    ensures SortBy(SortBy(s, f, dir), f, dir) == SortBy(s, f, dir)
  {
    StableSortUnique(s, s, f, dir);
  }

  lemma SortByIdempotent(s: seq<Profile>, f: NumericField, dir: SortDirection)
    ensures SortBy(SortBy(s, f, dir), f, dir) == SortBy(s, f, dir)
  {
    SortByIsOrdered(s, f, dir);
    SortByAlreadyOrdered(SortBy(s, f, dir), f, dir);
  }

  /**
   * Flipping the direction keeps the relative order of equal keys: ties are
   * never reversed.
   */
  lemma DirectionFlip(s: seq<Profile>, f: NumericField, k: int)
    ensures KeyClass(SortBy(s, f, Asc), f, k) == KeyClass(SortBy(s, f, Desc), f, k)
  {
    SortByKeyClass(s, f, Asc, k);
    SortByKeyClass(s, f, Desc, k);
  }

  /**
   * Flipping the direction swaps profiles with distinct keys: the smaller key
   * comes first ascending and last descending.
   */
  lemma DistinctKeysSwap(s: seq<Profile>, f: NumericField, i: int, j: int, i': int, j': int)
    requires 0 <= i < |s| && 0 <= j < |s| && 0 <= i' < |s| && 0 <= j' < |s|
    requires SortBy(s, f, Asc)[i] == SortBy(s, f, Desc)[i']
    requires SortBy(s, f, Asc)[j] == SortBy(s, f, Desc)[j']
    requires Key(SortBy(s, f, Asc)[i], f) < Key(SortBy(s, f, Asc)[j], f)
    ensures i < j && j' < i'
  {
    var a, d := SortBy(s, f, Asc), SortBy(s, f, Desc);
    SortByIsOrdered(s, f, Asc);
    SortByIsOrdered(s, f, Desc);
    OrderedKeys(a, f, Asc);
    OrderedKeys(d, f, Desc);
  }

  /**
   * Insertion lands right after the last element that does not compare
   * greater than `x`: inserting into `p + q`, where every element of `q`
   * compares greater than `x` and the last of `p` does not, gives `p + [x] + q`.
   */
  lemma {:induction false} InsertLastAt(p: seq<Profile>, q: seq<Profile>, x: Profile, f: NumericField, dir: SortDirection)
    requires forall m :: 0 <= m < |q| ==> Rank(q[m], f, dir) > Rank(x, f, dir)
    requires p != [] ==> Rank(p[|p| - 1], f, dir) <= Rank(x, f, dir)
    ensures InsertLast(p + q, x, f, dir) == p + [x] + q
    decreases |q|
  {
    if q == [] {
      EmptyAppend(p);
      EmptyAppend(p + [x]);
    } else {
      var init, last := q[..|q| - 1], q[|q| - 1];
      AppendInitLast(p, q);
      AppendInitLast(p + [x], q);
      assert Rank(last, f, dir) > Rank(x, f, dir);
      InsertLastAt(p, init, x, f, dir);
    }
  }

  /** Prefixes sort one element at a time. */
  lemma SortByStep(s: seq<Profile>, i: nat, f: NumericField, dir: SortDirection)
    requires i < |s|
    ensures SortBy(s[..i + 1], f, dir) == InsertLast(SortBy(s[..i], f, dir), s[i], f, dir)
  {
    assert s[..i + 1][..i] == s[..i];
  }

  /** What the shifting loop of `InsertionPass` leaves behind is the insertion of `x` into `sorted`. */
  lemma InsertionPassResult(r: seq<Profile>, sorted: seq<Profile>, x: Profile, j: nat, f: NumericField, dir: SortDirection)
    requires |r| == |sorted| + 1 && j <= |sorted|
    requires forall m :: 0 <= m < j ==> r[m] == sorted[m]
    requires r[j] == x
    requires forall m :: j < m < |r| ==> r[m] == sorted[m - 1]
    requires forall m :: j <= m < |sorted| ==> Rank(sorted[m], f, dir) > Rank(x, f, dir)
    requires j > 0 ==> Rank(sorted[j - 1], f, dir) <= Rank(x, f, dir)
    ensures r == InsertLast(sorted, x, f, dir)
  {
    var p, q := sorted[..j], sorted[j..];
    forall m | 0 <= m < |q|
      ensures Rank(q[m], f, dir) > Rank(x, f, dir)
    {
      assert q[m] == sorted[j + m];
    }
    InsertLastAt(p, q, x, f, dir);
    InsertedAt(r, sorted, x, j);
  }

  /**
   * One pass of the in-place sort: with `a[..i]` sorted, shift the elements
   * that compare greater than `a[i]` one step right and drop `a[i]` into the gap.
   */
  method InsertionPass(a: array<Profile>, i: nat, f: NumericField, dir: SortDirection)
    requires i < a.Length
    modifies a
    ensures a[..i + 1] == InsertLast(old(a[..i]), old(a[i]), f, dir)
    ensures forall m :: i < m < a.Length ==> a[m] == old(a[m])
  {
    var x := a[i];
    ghost var sorted := a[..i];
    var j := i;
    while j > 0 && Compare(a[j - 1], x, f, dir) > 0
      invariant 0 <= j <= i
      invariant forall m :: 0 <= m < j ==> a[m] == sorted[m]
      invariant forall m :: j < m <= i ==> a[m] == sorted[m - 1]
      invariant forall m :: i < m < a.Length ==> a[m] == old(a[m])
      invariant forall m :: j <= m < i ==> Rank(sorted[m], f, dir) > Rank(x, f, dir)
    {
      a[j] := a[j - 1];
      j := j - 1;
    }
    a[j] := x;
    assert sorted == old(a[..i]) && x == old(a[i]);
    InsertionPassResult(a[..i + 1], sorted, x, j, f, dir);
  }

  /** `a.sort(cmp)` on an array: an insertion sort, stable like `Array.prototype.sort`. */
  method SortInPlace(a: array<Profile>, f: NumericField, dir: SortDirection)
    modifies a
    ensures a[..] == SortBy(old(a[..]), f, dir)
  {
    ghost var input := a[..];
    var i := 0;
    while i < a.Length
      invariant 0 <= i <= a.Length
      invariant a[..i] == SortBy(input[..i], f, dir)
      invariant forall m :: i <= m < a.Length ==> a[m] == input[m]
    {
      InsertionPass(a, i, f, dir);
      SortByStep(input, i, f, dir);
      i := i + 1;
    }
    assert a[..] == a[..a.Length] && input == input[..a.Length];
  }
}
