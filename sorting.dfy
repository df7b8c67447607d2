/**
 * `list.sort(key=...)` on lists of node indices: a stable sort by a key,
 * written as an insertion sort (stability makes its result the only
 * ordering a stable sort can give).
 */
module Sorting {
  /** The keys of `s` never decrease. */
  predicate SortedBy(s: seq<nat>, key: nat -> int)
  {
    forall i, j | 0 <= i < j < |s| :: key(s[i]) <= key(s[j])
  }

  /** `x` put before the first element of `s` whose key is not smaller than its own. */
  function Insert(x: nat, s: seq<nat>, key: nat -> int): (r: seq<nat>)
    ensures multiset(r) == multiset(s) + multiset{x}
  {
    if |s| == 0 then [x]
    else if key(x) <= key(s[0]) then [x] + s
    else
      assert s == [s[0]] + s[1..];
      [s[0]] + Insert(x, s[1..], key)
  }

  /** A bound below the keys of `x` and of `s` stays below the keys of the insertion. */
  lemma {:induction false} InsertBound(x: nat, s: seq<nat>, key: nat -> int, b: int)
    requires b <= key(x) && forall i | 0 <= i < |s| :: b <= key(s[i])
    ensures forall i | 0 <= i < |Insert(x, s, key)| :: b <= key(Insert(x, s, key)[i])
  {
    var r := Insert(x, s, key);
    if |s| > 0 && key(s[0]) < key(x) {
      var rest := Insert(x, s[1..], key);
      InsertBound(x, s[1..], key, b);
      assert r == [s[0]] + rest;
      forall i | 1 <= i < |r| ensures b <= key(r[i]) {
        assert r[i] == rest[i - 1];
      }
    } else {
      forall i | 1 <= i < |r| ensures b <= key(r[i]) {
        assert r[i] == s[i - 1];
      }
    }
  }

  /** Inserting into a sorted list keeps it sorted. */
  lemma {:induction false} InsertSorted(x: nat, s: seq<nat>, key: nat -> int)
    requires SortedBy(s, key)
    ensures SortedBy(Insert(x, s, key), key)
  {
    if |s| > 0 && key(s[0]) < key(x) {
      var rest := Insert(x, s[1..], key);
      assert SortedBy(s[1..], key) by {
        forall i, j | 0 <= i < j < |s[1..]| ensures key(s[1..][i]) <= key(s[1..][j]) {
          assert s[1..][i] == s[i + 1] && s[1..][j] == s[j + 1];
        }
      }
      InsertSorted(x, s[1..], key);
      forall i | 0 <= i < |s[1..]| ensures key(s[0]) <= key(s[1..][i]) {
        assert s[1..][i] == s[i + 1];
      }
      InsertBound(x, s[1..], key, key(s[0]));
      var r := [s[0]] + rest;
      forall i, j | 0 <= i < j < |r| ensures key(r[i]) <= key(r[j]) {
        assert r[j] == rest[j - 1];
        if i > 0 {
          assert r[i] == rest[i - 1];
        }
      }
    }
  }

  /**
   * `xs` sorted by `key`: a permutation of `xs` in key order.  The head is
   * inserted before the equal keys of the sorted tail, so ties keep their
   * order; that is stated only for two elements, by `SortTwo`.
   */
  function SortBy(xs: seq<nat>, key: nat -> int): (r: seq<nat>)
    ensures multiset(r) == multiset(xs)
    ensures SortedBy(r, key)
  {
    if |xs| == 0 then []
    else
      assert xs == [xs[0]] + xs[1..];
      InsertSorted(xs[0], SortBy(xs[1..], key), key);
      Insert(xs[0], SortBy(xs[1..], key), key)
  }

  /** Two elements swap exactly when the second has the smaller key. */
  lemma SortTwo(a: nat, b: nat, key: nat -> int)
    ensures SortBy([a, b], key) == if key(b) < key(a) then [b, a] else [a, b]
  {
    assert [a, b][1..] == [b];
    assert SortBy([b], key) == [b] by {
      assert [b][1..] == [];
    }
  }
}
