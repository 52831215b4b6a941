/** Sequences cut down by a key: the shape shared by a FIFO ring that holds the
    packets of one priority and by a hash bucket that holds the links of one hash. */
module Sequences {

  lemma Assoc<T>(a: seq<T>, b: seq<T>, c: seq<T>)
    ensures (a + b) + c == a + (b + c)
  {
  }

  /** The elements of `s` whose key is `k`, in the order of `s`. */
  function OfKey<T>(key: T -> nat, k: nat, s: seq<T>): seq<T> {
    if s == [] then []
    else
      var rest := OfKey(key, k, s[..|s| - 1]);
      if key(s[|s| - 1]) == k then rest + [s[|s| - 1]] else rest
  }

  /** `s` without its element at position `i`. */
  function RemoveAt<T>(s: seq<T>, i: nat): seq<T>
    requires i < |s|
  {
    s[..i] + s[i + 1..]
  }

  lemma RemoveAtMultiset<T>(s: seq<T>, i: nat)
    requires i < |s|
    ensures multiset(s) == multiset(RemoveAt(s, i)) + multiset{s[i]}
  {
    assert s == s[..i] + [s[i]] + s[i + 1..];
  }

  predicate Distinct<T(==)>(s: seq<T>) {
    forall i, j :: 0 <= i < j < |s| ==> s[i] != s[j]
  }

  lemma DistinctRemoveAt<T>(s: seq<T>, i: nat)
    requires i < |s| && Distinct(s)
    ensures Distinct(RemoveAt(s, i))
  {
  }

  lemma StaysAfterRemove<T>(s: seq<T>, i: nat, e: T)
    requires i < |s| && e in s && e != s[i]
    ensures e in RemoveAt(s, i)
  {
    var j :| 0 <= j < |s| && s[j] == e;
    assert RemoveAt(s, i)[if j < i then j else j - 1] == e;
  }

  lemma OfKeyAppend<T>(key: T -> nat, k: nat, s: seq<T>, e: T)
    ensures OfKey(key, k, s + [e]) == OfKey(key, k, s) + (if key(e) == k then [e] else [])
  {
    assert (s + [e])[..|s|] == s;
  }

  lemma {:induction false} OfKeyConcat<T>(key: T -> nat, k: nat, s: seq<T>, t: seq<T>)
    ensures OfKey(key, k, s + t) == OfKey(key, k, s) + OfKey(key, k, t)
    decreases |t|
  {
    if t == [] {
      assert s + t == s;
    } else {
      var u := t[..|t| - 1];
      assert (s + t)[..|s + t| - 1] == s + u;
      OfKeyConcat(key, k, s, u);
    }
  }

  lemma OfKeySingle<T>(key: T -> nat, k: nat, e: T)
    ensures OfKey(key, k, [e]) == if key(e) == k then [e] else []
  {
    assert [e] == [] + [e];
    OfKeyAppend(key, k, [], e);
  }

  /** Where the element at position `i` of `s` sits among the elements of its key. */
  function Rank<T>(key: T -> nat, s: seq<T>, i: nat): nat
    requires i < |s|
  {
    |OfKey(key, key(s[i]), s[..i])|
  }

  /** Removing an element leaves the cut of every other key alone. */
  lemma {:induction false} OfKeyRemoveOther<T>(key: T -> nat, k: nat, s: seq<T>, i: nat)
    requires i < |s| && key(s[i]) != k
    ensures OfKey(key, k, RemoveAt(s, i)) == OfKey(key, k, s)
  {
    var before, after := s[..i], s[i + 1..];
    OfKeySplit(key, k, s, i);
    OfKeyConcat(key, k, before, after);
    OfKeySingle(key, k, s[i]);
  }

  /** Removing an element takes it out of the cut of its own key, at its rank. */
  lemma {:induction false} OfKeyRemoveOwn<T>(key: T -> nat, s: seq<T>, i: nat)
    requires i < |s|
    ensures Rank(key, s, i) < |OfKey(key, key(s[i]), s)|
    ensures OfKey(key, key(s[i]), s)[Rank(key, s, i)] == s[i]
    ensures OfKey(key, key(s[i]), RemoveAt(s, i)) == RemoveAt(OfKey(key, key(s[i]), s), Rank(key, s, i))
  {
    var k := key(s[i]);
    var before, after := OfKey(key, k, s[..i]), OfKey(key, k, s[i + 1..]);
    OfKeySplit(key, k, s, i);
    OfKeySingle(key, k, s[i]);
    OfKeyConcat(key, k, s[..i], s[i + 1..]);
    RemoveBetween(before, s[i], after);
  }

  lemma RemoveBetween<T>(a: seq<T>, x: T, b: seq<T>)
    ensures (a + [x] + b)[|a|] == x && RemoveAt(a + [x] + b, |a|) == a + b
  {
  }

  lemma {:induction false} OfKeySplit<T>(key: T -> nat, k: nat, s: seq<T>, i: nat)
    requires i < |s|
    ensures OfKey(key, k, s) == OfKey(key, k, s[..i]) + OfKey(key, k, [s[i]]) + OfKey(key, k, s[i + 1..])
  {
    assert s == s[..i] + ([s[i]] + s[i + 1..]);
    OfKeyConcat(key, k, s[..i], [s[i]] + s[i + 1..]);
    OfKeyConcat(key, k, [s[i]], s[i + 1..]);
  }

  lemma {:induction false} OfKeyNone<T>(key: T -> nat, k: nat, s: seq<T>)
    requires forall i :: 0 <= i < |s| ==> key(s[i]) != k
    ensures OfKey(key, k, s) == []
  {
    if s != [] { OfKeyNone(key, k, s[..|s| - 1]); }
  }

  /** Each element of a cut comes from a position of the whole with that key. */
  lemma {:induction false} OfKeyOrigin<T>(key: T -> nat, k: nat, s: seq<T>, r: nat) returns (i: nat)
    requires r < |OfKey(key, k, s)|
    ensures i < |s| && s[i] == OfKey(key, k, s)[r] && key(s[i]) == k && Rank(key, s, i) == r
  {
    var u := s[..|s| - 1];
    if r < |OfKey(key, k, u)| {
      i := OfKeyOrigin(key, k, u, r);
      assert u[..i] == s[..i];
    } else {
      i := |s| - 1;
    }
  }

  /** Later elements of a key rank higher. */
  lemma {:induction false} RankMonotone<T>(key: T -> nat, s: seq<T>, i: nat, j: nat)
    requires i < j < |s| && key(s[i]) == key(s[j])
    ensures Rank(key, s, i) < Rank(key, s, j)
  {
    assert s[..j][..i] == s[..i];
    OfKeyRemoveOwn(key, s[..j], i);
  }

  /** `t` arises from `s` by leaving elements out. */
  predicate Subsequence<T(==)>(t: seq<T>, s: seq<T>) {
    if t == [] then true
    else if s == [] then false
    else if t[|t| - 1] == s[|s| - 1] then Subsequence(t[..|t| - 1], s[..|s| - 1])
    else Subsequence(t, s[..|s| - 1])
  }

  /** Dropping the last element of the shorter sequence keeps it a subsequence. */
  lemma {:induction false} SubsequenceDropLast<T>(t: seq<T>, s: seq<T>)
    requires t != [] && Subsequence(t, s)
    ensures Subsequence(t[..|t| - 1], s)
    decreases |s|
  {
    var u := t[..|t| - 1];
    if u != [] {
      if t[|t| - 1] == s[|s| - 1] {
        if u[|u| - 1] == s[|s| - 1] {
          SubsequenceDropLast(u, s[..|s| - 1]);
        }
      } else {
        SubsequenceDropLast(t, s[..|s| - 1]);
        if u[|u| - 1] == s[|s| - 1] {
          SubsequenceDropLast(u, s[..|s| - 1]);
        }
      }
    }
  }

  lemma {:induction false} SubsequenceRemoveAt<T>(t: seq<T>, s: seq<T>, i: nat)
    requires i < |t| && Subsequence(t, s)
    ensures Subsequence(RemoveAt(t, i), s)
    decreases |s|
  {
    var r := RemoveAt(t, i);
    if i == |t| - 1 {
      assert r == t[..|t| - 1];
      SubsequenceDropLast(t, s);
    } else {
      assert r[|r| - 1] == t[|t| - 1];
      if t[|t| - 1] == s[|s| - 1] {
        assert r[..|r| - 1] == RemoveAt(t[..|t| - 1], i);
        SubsequenceRemoveAt(t[..|t| - 1], s[..|s| - 1], i);
      } else {
        SubsequenceRemoveAt(t, s[..|s| - 1], i);
      }
    }
  }

  lemma SubsequenceAppendBoth<T>(t: seq<T>, s: seq<T>, e: T)
    requires Subsequence(t, s)
    ensures Subsequence(t + [e], s + [e])
  {
    assert (t + [e])[..|t|] == t && (s + [e])[..|s|] == s;
  }

  lemma SubsequenceAppendRight<T>(t: seq<T>, s: seq<T>, e: T)
    requires Subsequence(t, s)
    ensures Subsequence(t, s + [e])
  {
    assert (s + [e])[..|s|] == s;
    if t != [] && t[|t| - 1] == e { SubsequenceDropLast(t, s); }
  }

  /** Subsequence through positions: an increasing choice of positions of `s` spells `t`. */
  lemma {:induction false} SubsequencePositions<T>(t: seq<T>, s: seq<T>) returns (at: seq<nat>)
    requires Subsequence(t, s)
    ensures |at| == |t|
    ensures forall i :: 0 <= i < |at| ==> at[i] < |s| && s[at[i]] == t[i]
    ensures forall i, j :: 0 <= i < j < |at| ==> at[i] < at[j]
    decreases |s|
  {
    if t == [] {
      at := [];
    } else if t[|t| - 1] == s[|s| - 1] {
      var front := SubsequencePositions(t[..|t| - 1], s[..|s| - 1]);
      at := front + [|s| - 1];
    } else {
      at := SubsequencePositions(t, s[..|s| - 1]);
    }
  }
}
