/** Order-preserving selection from a sequence, as `Array.prototype.filter` does it, and small facts about sequences. */
module Seqs {

  /** A non-empty sequence is its head followed by its tail. */
  lemma HeadTail<T>(s: seq<T>)
    requires s != []
    ensures s == [s[0]] + s[1..]
  {
  }

  /** A non-empty sequence is its prefix followed by its last element. */
  lemma InitLast<T>(s: seq<T>)
    requires s != []
    ensures s == s[..|s| - 1] + [s[|s| - 1]]
  {
  }

  /** Splitting off the last element of `q` in `a + q`. */
  lemma AppendInitLast<T>(a: seq<T>, q: seq<T>)
    requires q != []
    ensures a + q == (a + q[..|q| - 1]) + [q[|q| - 1]]
    ensures (a + q)[..|a + q| - 1] == a + q[..|q| - 1] && (a + q)[|a + q| - 1] == q[|q| - 1]
  {
    assert a + q == (a + q[..|q| - 1]) + [q[|q| - 1]];
  }

  /**
   * `r` is `s` with `x` placed at index `j`: the elements below `j` stay,
   * and those from `j` on move one step right.
   */
  lemma InsertedAt<T>(r: seq<T>, s: seq<T>, x: T, j: nat)
    requires |r| == |s| + 1 && j <= |s|
    requires forall m :: 0 <= m < j ==> r[m] == s[m]
    requires r[j] == x
    requires forall m :: j < m < |r| ==> r[m] == s[m - 1]
    ensures r == s[..j] + [x] + s[j..]
    ensures s == s[..j] + s[j..]
  {
    assert s == s[..j] + s[j..];
    var t := s[..j] + [x] + s[j..];
    forall m | 0 <= m < |r|
      ensures r[m] == t[m]
    {
      if m < j {
        assert t[m] == s[m];
      } else if m > j {
        assert t[m] == s[j..][m - j - 1];
      }
    }
  }

  /** The empty sequence is a unit of concatenation. */
  lemma EmptyAppend<T>(s: seq<T>)
    ensures [] + s == s && s + [] == s
  {
  }

  /** Two sequences that start with one element each are equal exactly when heads and tails are. */
  lemma ConsInjective<T>(a: T, s: seq<T>, b: T, t: seq<T>)
    requires [a] + s == [b] + t
    ensures a == b && s == t
  {
    assert s == ([a] + s)[1..];
    assert t == ([b] + t)[1..];
  }

  /** `r` is obtained from `s` by deleting elements, keeping the order of the rest. */
  predicate IsSubsequence<T(==)>(r: seq<T>, s: seq<T>)
    decreases |s|
  {
    r == [] || (s != [] && ((r[0] == s[0] && IsSubsequence(r[1..], s[1..])) || IsSubsequence(r, s[1..])))
  }

  /** The elements of `s` that satisfy `keep`, in their original order. */
  function Filter<T(==,!new)>(s: seq<T>, keep: T -> bool): (r: seq<T>)
    ensures IsSubsequence(r, s)
    ensures forall x :: x in r <==> x in s && keep(x)
    ensures forall x :: multiset(r)[x] == if keep(x) then multiset(s)[x] else 0
  {
    if s == [] then []
    else
      var rest := Filter(s[1..], keep);
      assert s == [s[0]] + s[1..];
      if keep(s[0]) then
        assert ([s[0]] + rest)[1..] == rest;
        [s[0]] + rest
      else
        rest
  }

  lemma {:induction false} SubsequenceRefl<T>(s: seq<T>)
    ensures IsSubsequence(s, s)
    decreases |s|
  {
    if s != [] {
      SubsequenceRefl(s[1..]);
    }
  }

  /** Deleting elements never adds an occurrence. */
  lemma {:induction false} SubsequenceMultiset<T>(r: seq<T>, s: seq<T>)
    requires IsSubsequence(r, s)
    ensures multiset(r) <= multiset(s)
    decreases |s|
  {
    if r != [] {
      HeadTail(s);
      if r[0] == s[0] && IsSubsequence(r[1..], s[1..]) {
        SubsequenceMultiset(r[1..], s[1..]);
        HeadTail(r);
      } else {
        SubsequenceMultiset(r, s[1..]);
      }
    }
  }

  /** Deleting elements twice is deleting elements once. */
  lemma {:induction false} SubsequenceTrans<T>(a: seq<T>, b: seq<T>, c: seq<T>)
    requires IsSubsequence(a, b) && IsSubsequence(b, c)
    ensures IsSubsequence(a, c)
    decreases |c|
  {
    if a != [] {
      if IsSubsequence(b, c[1..]) {
        SubsequenceTrans(a, b, c[1..]);
      } else {
        assert b[0] == c[0] && IsSubsequence(b[1..], c[1..]);
        if a[0] == b[0] && IsSubsequence(a[1..], b[1..]) {
          SubsequenceTrans(a[1..], b[1..], c[1..]);
        } else {
          SubsequenceTrans(a, b[1..], c[1..]);
        }
      }
    }
  }
}
