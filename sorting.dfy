/**
 * The two sequence operations of Rust's standard library that the store and
 * the cache rely on: `Vec::retain` (a filter that keeps order) and the
 * stable `sort_by` / `sort_by_key` (modelled by a stable insertion sort on a
 * real-valued key).
 */
module Sorting {

  /** The elements of `s` that `keep` accepts, in their original order. */
  function Filter<T>(s: seq<T>, keep: T -> bool): seq<T> {
    if s == [] then []
    else (if keep(s[0]) then [s[0]] else []) + Filter(s[1..], keep)
  }

  /** Filtering distributes over concatenation, so it keeps relative order. */
  lemma {:induction false} FilterAppend<T>(a: seq<T>, b: seq<T>, keep: T -> bool)
    ensures Filter(a + b, keep) == Filter(a, keep) + Filter(b, keep)
  {
    if a == [] {
      assert a + b == b;
    } else {
      var h := if keep(a[0]) then [a[0]] else [];
      assert (a + b)[0] == a[0] && (a + b)[1..] == a[1..] + b;
      assert Filter(a + b, keep) == h + Filter(a[1..] + b, keep);
      FilterAppend(a[1..], b, keep);
      assert Filter(a, keep) == h + Filter(a[1..], keep);
      assert h + (Filter(a[1..], keep) + Filter(b, keep)) == (h + Filter(a[1..], keep)) + Filter(b, keep);
    }
  }

  /** An element survives filtering exactly when it was there and is accepted. */
  lemma {:induction false} FilterMembers<T>(s: seq<T>, keep: T -> bool, x: T)
    ensures x in Filter(s, keep) <==> x in s && keep(x)
  {
    if s != [] {
      FilterMembers(s[1..], keep, x);
      assert s == [s[0]] + s[1..];
    }
  }

  /** Filtering removes nothing when every element is accepted. */
  lemma {:induction false} FilterKeepsAll<T>(s: seq<T>, keep: T -> bool)
    requires forall i :: 0 <= i < |s| ==> keep(s[i])
    ensures Filter(s, keep) == s
  {
    if s != [] {
      assert keep(s[0]);
      FilterKeepsAll(s[1..], keep);
      assert s == [s[0]] + s[1..];
    }
  }

  /** `s.retain(keep)`, one element at a time. */
  method Retain<T>(s: seq<T>, keep: T -> bool) returns (r: seq<T>)
    ensures r == Filter(s, keep)
  {
    r := [];
    for i := 0 to |s|
      invariant r == Filter(s[..i], keep)
    {
      FilterAppend(s[..i], [s[i]], keep);
      assert s[..i + 1] == s[..i] + [s[i]];
      if keep(s[i]) {
        r := r + [s[i]];
      }
    }
    assert s[..|s|] == s;
  }

  /** Non-decreasing by `key`. */
  predicate SortedBy<T>(s: seq<T>, key: T -> real) {
    forall i, j :: 0 <= i < j < |s| ==> key(s[i]) <= key(s[j])
  }

  /** Strictly increasing by `key`. */
  predicate StrictlySortedBy<T>(s: seq<T>, key: T -> real) {
    forall i, j :: 0 <= i < j < |s| ==> key(s[i]) < key(s[j])
  }

  /** `a` comes before `b` by `key`, then by `tag` among equal keys. */
  predicate LexBefore<T>(a: T, b: T, key: T -> real, tag: T -> int) {
    key(a) < key(b) || (key(a) == key(b) && tag(a) < tag(b))
  }

  /** Strictly increasing by `key`, then by `tag` among equal keys. */
  predicate LexSortedBy<T>(s: seq<T>, key: T -> real, tag: T -> int) {
    forall i, j :: 0 <= i < j < |s| ==> LexBefore(s[i], s[j], key, tag)
  }

  /** Strictly increasing by `tag`, e.g. tagged with the original positions. */
  predicate TagIncreasing<T>(s: seq<T>, tag: T -> int) {
    forall i, j :: 0 <= i < j < |s| ==> tag(s[i]) < tag(s[j])
  }

  /** Puts `x` before the first element whose key is not below its own. */
  function InsertBy<T>(x: T, s: seq<T>, key: T -> real): seq<T> {
    if s == [] then [x]
    else if key(s[0]) < key(x) then [s[0]] + InsertBy(x, s[1..], key)
    else [x] + s
  }

  /** Stable sort by ascending `key`. */
  function SortBy<T>(s: seq<T>, key: T -> real): seq<T> {
    if s == [] then [] else InsertBy(s[0], SortBy(s[1..], key), key)
  }

  lemma {:induction false} InsertByPermutes<T>(x: T, s: seq<T>, key: T -> real)
    ensures multiset(InsertBy(x, s, key)) == multiset{x} + multiset(s)
    ensures |InsertBy(x, s, key)| == |s| + 1
  {
    if s != [] && key(s[0]) < key(x) {
      InsertByPermutes(x, s[1..], key);
      assert s == [s[0]] + s[1..];
    }
  }

  /** Sorting rearranges: same elements, same multiplicities. */
  lemma {:induction false} SortByPermutes<T>(s: seq<T>, key: T -> real)
    ensures multiset(SortBy(s, key)) == multiset(s)
    ensures |SortBy(s, key)| == |s|
  {
    if s != [] {
      SortByPermutes(s[1..], key);
      InsertByPermutes(s[0], SortBy(s[1..], key), key);
      assert s == [s[0]] + s[1..];
    }
  }

  lemma {:induction false} InsertBySorted<T>(x: T, s: seq<T>, key: T -> real)
    requires SortedBy(s, key)
    ensures SortedBy(InsertBy(x, s, key), key)
  {
    if s != [] && key(s[0]) < key(x) {
      var t := InsertBy(x, s[1..], key);
      InsertBySorted(x, s[1..], key);
      InsertByPermutes(x, s[1..], key);
      forall k | 0 <= k < |t| ensures key(s[0]) <= key(t[k]) {
        assert t[k] in multiset(t);
        assert t[k] == x || t[k] in s[1..];
      }
    }
  }

  /** Sorting yields a sequence ordered by `key`. */
  lemma {:induction false} SortBySorted<T>(s: seq<T>, key: T -> real)
    ensures SortedBy(SortBy(s, key), key)
  {
    if s != [] {
      SortBySorted(s[1..], key);
      InsertBySorted(s[0], SortBy(s[1..], key), key);
    }
  }

  lemma {:induction false} InsertByLexSorted<T>(x: T, s: seq<T>, key: T -> real, tag: T -> int)
    requires LexSortedBy(s, key, tag)
    requires forall k :: 0 <= k < |s| ==> tag(x) < tag(s[k])
    ensures LexSortedBy(InsertBy(x, s, key), key, tag)
  {
    if s == [] {
    } else if key(s[0]) < key(x) {
      var t := InsertBy(x, s[1..], key);
      assert LexSortedBy(s[1..], key, tag) by {
        forall i, j | 0 <= i < j < |s[1..]| ensures LexBefore(s[1..][i], s[1..][j], key, tag) {
          assert s[1..][i] == s[i + 1] && s[1..][j] == s[j + 1];
        }
      }
      InsertByLexSorted(x, s[1..], key, tag);
      InsertByPermutes(x, s[1..], key);
      forall k | 0 <= k < |t| ensures LexBefore(s[0], t[k], key, tag) {
        HeadBeforeMember(s, t, x, key, tag, k);
      }
      LexCons(s[0], t, key, tag);
    } else {
      LexCons(x, s, key, tag);
    }
  }

  lemma HeadBeforeMember<T>(s: seq<T>, t: seq<T>, x: T, key: T -> real, tag: T -> int, k: nat)
    requires s != [] && key(s[0]) < key(x) && LexSortedBy(s, key, tag)
    requires multiset(t) == multiset{x} + multiset(s[1..]) && k < |t|
    ensures LexBefore(s[0], t[k], key, tag)
  {
    assert t[k] in multiset(t);
    if t[k] != x {
      assert t[k] in multiset(s[1..]);
      var j :| 0 <= j < |s[1..]| && s[1..][j] == t[k];
      assert s[j + 1] == t[k];
    }
  }

  lemma LexCons<T>(h: T, t: seq<T>, key: T -> real, tag: T -> int)
    requires LexSortedBy(t, key, tag)
    requires forall k :: 0 <= k < |t| ==> LexBefore(h, t[k], key, tag)
    ensures LexSortedBy([h] + t, key, tag)
  {
    var r := [h] + t;
    forall i, j | 0 <= i < j < |r| ensures LexBefore(r[i], r[j], key, tag) {
      assert r[j] == t[j - 1];
      if i > 0 { assert r[i] == t[i - 1]; }
    }
  }

  /**
   * Stability: when the input is tagged in increasing order (by original
   * position, say), elements with equal keys come out in tag order.
   */
  lemma {:induction false} SortByStable<T>(s: seq<T>, key: T -> real, tag: T -> int)
    requires TagIncreasing(s, tag)
    ensures LexSortedBy(SortBy(s, key), key, tag)
  {
    if s != [] {
      var t := SortBy(s[1..], key);
      SortByStable(s[1..], key, tag);
      SortByPermutes(s[1..], key);
      forall k | 0 <= k < |t| ensures tag(s[0]) < tag(t[k]) {
        assert t[k] in multiset(s[1..]);
        var j :| 0 <= j < |s[1..]| && s[1..][j] == t[k];
        assert s[j + 1] == t[k];
      }
      InsertByLexSorted(s[0], t, key, tag);
    }
  }

  /**
   * A sorted sequence is determined by its elements when the keys of one
   * arrangement are all distinct.
   */
  lemma {:induction false} SortedUnique<T>(r1: seq<T>, r2: seq<T>, key: T -> real)
    requires SortedBy(r1, key) && StrictlySortedBy(r2, key)
    requires multiset(r1) == multiset(r2)
    ensures r1 == r2
    decreases |r1|
  {
    assert |r1| == |multiset(r1)| == |r2|;
    if r1 != [] {
      HeadsAgree(r1, r2, key);
      TailsAgree(r1, r2);
      SortedUnique(r1[1..], r2[1..], key);
      assert r1 == [r1[0]] + r1[1..];
      assert r2 == [r2[0]] + r2[1..];
    }
  }

  lemma HeadsAgree<T>(r1: seq<T>, r2: seq<T>, key: T -> real)
    requires SortedBy(r1, key) && StrictlySortedBy(r2, key)
    requires multiset(r1) == multiset(r2) && r1 != [] && r2 != []
    ensures r1[0] == r2[0]
  {
    assert r1[0] in multiset(r2);
    var p :| 0 <= p < |r2| && r2[p] == r1[0];
    assert r2[0] in multiset(r1);
    var q :| 0 <= q < |r1| && r1[q] == r2[0];
    assert key(r1[0]) <= key(r2[0]) by {
      if q > 0 { assert key(r1[0]) <= key(r1[q]); }
    }
    assert !(key(r2[0]) < key(r2[p]));
    assert p == 0;
  }

  lemma TailsAgree<T>(r1: seq<T>, r2: seq<T>)
    requires multiset(r1) == multiset(r2) && r1 != [] && r2 != [] && r1[0] == r2[0]
    ensures multiset(r1[1..]) == multiset(r2[1..])
  {
    assert r1 == [r1[0]] + r1[1..];
    assert r2 == [r2[0]] + r2[1..];
    assert multiset(r1) == multiset{r1[0]} + multiset(r1[1..]);
    assert multiset(r2) == multiset{r2[0]} + multiset(r2[1..]);
    assert multiset(r1[1..]) == multiset(r1) - multiset{r1[0]};
    assert multiset(r2[1..]) == multiset(r2) - multiset{r2[0]};
  }
}
