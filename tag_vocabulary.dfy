/**
 * The options offered by each tag filter:
 * `Array.from(new Set(profiles.flatMap(p => p.<category> || []))).sort()`,
 * computed from the loaded profiles and nothing else.
 */
module TagVocabulary {
  import opened Types
  import opened Text
  import opened Seqs

  /** `p.<category> || []`: a null tag list contributes nothing. */
  function TagsOrEmpty(p: Profile, c: TagCategory): seq<string>
  {
    match Tags(p, c)
    case None => []
    case Some(ts) => ts
  }

  /** `profiles.flatMap(p => p.<category> || [])`. */
  function AllTags(ps: seq<Profile>, c: TagCategory): (r: seq<string>)
    ensures forall t :: t in r <==> exists i :: 0 <= i < |ps| && t in TagsOrEmpty(ps[i], c)
  {
    if ps == [] then []
    else
      var rest := AllTags(ps[1..], c);
      assert forall i :: 1 <= i < |ps| ==> ps[i] == ps[1..][i - 1];
      assert forall t :: t in rest ==> exists i :: 0 <= i < |ps| && t in TagsOrEmpty(ps[i], c) by {
        forall t | t in rest
          ensures exists i :: 0 <= i < |ps| && t in TagsOrEmpty(ps[i], c)
        {
          var i :| 0 <= i < |ps[1..]| && t in TagsOrEmpty(ps[1..][i], c);
          assert t in TagsOrEmpty(ps[i + 1], c);
        }
      }
      TagsOrEmpty(ps[0], c) + rest
  }

  predicate NoDuplicates(s: seq<string>)
  {
    forall i, j :: 0 <= i < j < |s| ==> s[i] != s[j]
  }

  /** `Array.from(new Set(s))`: the first occurrence of each value, in order. */
  function Distinct(s: seq<string>): (r: seq<string>)
    ensures forall t :: t in r <==> t in s
    ensures NoDuplicates(r)
  {
    if s == [] then []
    else
      var init, last := s[..|s| - 1], s[|s| - 1];
      assert s == init + [last];
      var seen := Distinct(init);
      if last in seen then seen else seen + [last]
  }

  /** No two entries are equal or out of order under the default string order. */
  predicate StrictlySorted(s: seq<string>)
  {
    forall i, j :: 0 <= i < j < |s| ==> Below(s[i], s[j])
  }

  /** Inserts `x` in front of the first entry it sorts below. */
  function InsertSorted(x: string, s: seq<string>): (r: seq<string>)
    ensures |r| == |s| + 1
    ensures forall t :: t in r <==> t == x || t in s
  {
    if s == [] || Below(x, s[0]) then [x] + s
    else
      var rest := InsertSorted(x, s[1..]);
      assert s == [s[0]] + s[1..];
      [s[0]] + rest
  }

  /** `sort()` with the default comparison, as an insertion sort. */
  function SortStrings(s: seq<string>): (r: seq<string>)
    ensures |r| == |s|
    ensures forall t :: t in r <==> t in s
  {
    if s == [] then []
    else
      assert s == [s[0]] + s[1..];
      InsertSorted(s[0], SortStrings(s[1..]))
  }

  /** The options of one tag filter. */
  function Vocabulary(ps: seq<Profile>, c: TagCategory): (r: seq<string>)
    ensures StrictlySorted(r)
    ensures forall t :: t in r <==> exists i :: 0 <= i < |ps| && t in TagsOrEmpty(ps[i], c)
  {
    SortStringsStrictly(Distinct(AllTags(ps, c)));
    SortStrings(Distinct(AllTags(ps, c)))
  }

  lemma {:induction false} InsertSortedStrictly(x: string, s: seq<string>)
    requires StrictlySorted(s) && x !in s
    ensures StrictlySorted(InsertSorted(x, s))
  {
    var r := InsertSorted(x, s);
    if s == [] {
    } else if Below(x, s[0]) {
      forall i, j | 0 <= i < j < |r|
        ensures Below(r[i], r[j])
      {
        if i == 0 && j > 1 {
          BelowTransitive(x, s[0], s[j - 1]);
        }
      }
    } else {
      BelowTotal(x, s[0]);
      var rest := InsertSorted(x, s[1..]);
      InsertSortedStrictly(x, s[1..]);
      forall i, j | 0 <= i < j < |r|
        ensures Below(r[i], r[j])
      {
        if i == 0 {
          var e := rest[j - 1];
          assert e in rest;
          if e != x {
            var k :| 0 <= k < |s[1..]| && s[1..][k] == e;
            assert s[k + 1] == e;
          }
        } else {
          assert r[i] == rest[i - 1] && r[j] == rest[j - 1];
        }
      }
    }
  }

  lemma {:induction false} SortStringsStrictly(s: seq<string>)
    requires NoDuplicates(s)
    ensures StrictlySorted(SortStrings(s))
  {
    if s != [] {
      assert NoDuplicates(s[1..]) by {
        forall i, j | 0 <= i < j < |s[1..]|
          ensures s[1..][i] != s[1..][j]
        {
          assert s[1..][i] == s[i + 1] && s[1..][j] == s[j + 1];
        }
      }
      SortStringsStrictly(s[1..]);
      assert s[0] !in s[1..];
      InsertSortedStrictly(s[0], SortStrings(s[1..]));
    }
  }

  /**
   * Each filter's options are strictly sorted (hence free of duplicates), and
   * a tag is offered exactly when some loaded profile carries it in that category.
   */
  lemma VocabularySpec(ps: seq<Profile>, c: TagCategory)
    ensures StrictlySorted(Vocabulary(ps, c))
    ensures NoDuplicates(Vocabulary(ps, c))
    ensures forall t :: t in Vocabulary(ps, c) <==>
      exists i :: 0 <= i < |ps| && Tags(ps[i], c).Some? && t in Tags(ps[i], c).value
  {
    var r := Vocabulary(ps, c);
    SortStringsStrictly(Distinct(AllTags(ps, c)));
    forall i, j | 0 <= i < j < |r|
      ensures r[i] != r[j]
    {
      if r[i] == r[j] {
        BelowIrreflexive(r[i]);
      }
    }
  }

  /** Every entry after the first of a strictly sorted sequence differs from the first. */
  lemma TailAbove(s: seq<string>, t: string)
    requires StrictlySorted(s) && s != [] && t in s[1..]
    ensures t != s[0]
  {
    var i :| 0 <= i < |s[1..]| && s[1..][i] == t;
    assert Below(s[0], s[i + 1]);
    BelowIrreflexive(t);
  }

  /** Sequences with the same elements are empty together. */
  lemma SameElementsEmpty(a: seq<string>, b: seq<string>)
    requires forall t :: t in a <==> t in b
    ensures a == [] <==> b == []
  {
    if a != [] {
      assert a[0] in a;
    }
    if b != [] {
      assert b[0] in b;
    }
  }

  /**
   * A strictly sorted sequence is fixed by its elements, so any sort by the
   * default order yields the same options as the insertion sort here.
   */
  lemma {:induction false} StrictlySortedUnique(a: seq<string>, b: seq<string>)
    requires StrictlySorted(a) && StrictlySorted(b)
    requires forall t :: t in a <==> t in b
    ensures a == b
    decreases |a|
  {
    SameElementsEmpty(a, b);
    if a != [] {
      assert a[0] in b;
      assert b[0] in a;
      if a[0] != b[0] {
        var i :| 0 <= i < |a| && a[i] == b[0];
        var j :| 0 <= j < |b| && b[j] == a[0];
        BelowTransitive(a[0], a[i], a[0]);
        BelowIrreflexive(a[0]);
      }
      assert a[0] == b[0];
      HeadTail(a);
      HeadTail(b);
      forall t
        ensures t in a[1..] <==> t in b[1..]
      {
        if t in a[1..] {
          TailAbove(a, t);
          assert t in a;
          assert t in b && t != b[0];
        }
        if t in b[1..] {
          TailAbove(b, t);
          assert t in b;
          assert t in a && t != a[0];
        }
      }
      StrictlySortedUnique(a[1..], b[1..]);
    }
  }

  /** Any strictly sorted list of exactly the tags in use is the options list. */
  lemma VocabularyUnique(ps: seq<Profile>, c: TagCategory, r: seq<string>)
    requires StrictlySorted(r)
    requires forall t :: t in r <==> exists i :: 0 <= i < |ps| && Tags(ps[i], c).Some? && t in Tags(ps[i], c).value
    ensures r == Vocabulary(ps, c)
  {
    VocabularySpec(ps, c);
    StrictlySortedUnique(r, Vocabulary(ps, c));
  }
}
