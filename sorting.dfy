/**
  Stable sorting by a key. Every sort of the layout engine is a Python 2
  `list.sort(cmp=...)` whose comparator only compares a key of each element;
  that sort is stable, so it is modelled here as a stable insertion sort by
  a lexicographically ordered pair of integers.
*/
module Sorting {

  /** A sort key, compared lexicographically. */
  type Key = (int, int)

  predicate KeyLe(a: Key, b: Key) {
    a.0 < b.0 || (a.0 == b.0 && a.1 <= b.1)
  }

  /** Python's `cmp` on keys: negative, zero or positive. */
  function Cmp(a: int, b: int): (r: int)
    ensures r < 0 <==> a < b
    ensures r == 0 <==> a == b
  {
    if a < b then -1 else if a == b then 0 else 1
  }

  predicate SortedBy<T>(s: seq<T>, key: T -> Key) {
    forall i, j :: 0 <= i < j < |s| ==> KeyLe(key(s[i]), key(s[j]))
  }

  /** The elements of `s` whose key is `k`, in their order in `s`. */
  function Those<T>(s: seq<T>, key: T -> Key, k: Key): (r: seq<T>)
    ensures |r| <= |s|
    ensures forall i :: 0 <= i < |r| ==> key(r[i]) == k
  {
    if s == [] then []
    else (if key(s[0]) == k then [s[0]] else []) + Those(s[1..], key, k)
  }

  /** Puts `x` in front of the first element whose key is not smaller. */
  function Insert<T>(x: T, s: seq<T>, key: T -> Key): seq<T>
  {
    if s == [] || KeyLe(key(x), key(s[0])) then [x] + s
    else [s[0]] + Insert(x, s[1..], key)
  }

  lemma {:induction false} InsertPerm<T>(x: T, s: seq<T>, key: T -> Key)
    ensures multiset(Insert(x, s, key)) == multiset(s) + multiset{x}
  {
    if s != [] && !KeyLe(key(x), key(s[0])) {
      InsertPerm(x, s[1..], key);
      assert s == [s[0]] + s[1..];
    }
  }

  /**
    The stable sort. `SortByPerm` shows it is a permutation, `SortBySorted`
    that it is sorted by key and `SortByStable` that the elements of one
    key keep their relative order.
  */
  function SortBy<T>(s: seq<T>, key: T -> Key): seq<T>
  {
    if s == [] then [] else Insert(s[0], SortBy(s[1..], key), key)
  }

  lemma {:induction false} SortByPerm<T>(s: seq<T>, key: T -> Key)
    ensures multiset(SortBy(s, key)) == multiset(s)
  {
    if s != [] {
      SortByPerm(s[1..], key);
      InsertPerm(s[0], SortBy(s[1..], key), key);
      assert s == [s[0]] + s[1..];
    }
  }

  /** The sort keeps exactly the elements it was given. */
  lemma SortByMembers<T>(s: seq<T>, key: T -> Key)
    ensures forall i :: 0 <= i < |SortBy(s, key)| ==> SortBy(s, key)[i] in s
    ensures forall i :: 0 <= i < |s| ==> s[i] in SortBy(s, key)
  {
    var r := SortBy(s, key);
    SortByPerm(s, key);
    forall i | 0 <= i < |r| ensures r[i] in s {
      assert r[i] in multiset(r);
    }
    forall i | 0 <= i < |s| ensures s[i] in r {
      assert s[i] in multiset(s);
    }
  }

  lemma {:induction false} SortBySorted<T>(s: seq<T>, key: T -> Key)
    ensures SortedBy(SortBy(s, key), key)
  {
    if s != [] {
      SortBySorted(s[1..], key);
      InsertSorted(s[0], SortBy(s[1..], key), key);
    }
  }

  lemma {:induction false} SortByStable<T>(s: seq<T>, key: T -> Key)
    ensures forall k :: Those(SortBy(s, key), key, k) == Those(s, key, k)
  {
    if s != [] {
      var rest := SortBy(s[1..], key);
      SortBySorted(s[1..], key);
      SortByStable(s[1..], key);
      assert s == [s[0]] + s[1..];
      forall k ensures Those(Insert(s[0], rest, key), key, k) == Those(s, key, k) {
        InsertThose(s[0], rest, key, k);
      }
    }
  }

  lemma {:induction false} InsertSorted<T>(x: T, s: seq<T>, key: T -> Key)
    requires SortedBy(s, key)
    ensures SortedBy(Insert(x, s, key), key)
  {
    if s == [] || KeyLe(key(x), key(s[0])) {
    } else {
      var t := Insert(x, s[1..], key);
      InsertSorted(x, s[1..], key);
      InsertPerm(x, s[1..], key);
      forall e | e in t ensures KeyLe(key(s[0]), key(e)) {
        assert e in multiset(t);
        if e != x {
          assert e in multiset(s[1..]);
          var j :| 0 <= j < |s[1..]| && s[1..][j] == e;
          assert s[1 + j] == e;
        }
      }
      var r := [s[0]] + t;
      forall i, j | 0 <= i < j < |r| ensures KeyLe(key(r[i]), key(r[j])) {
        if i == 0 {
          assert r[j] == t[j - 1];
          assert r[j] in t;
        } else {
          assert r[i] == t[i - 1] && r[j] == t[j - 1];
        }
      }
    }
  }

  lemma {:induction false} InsertThose<T>(x: T, s: seq<T>, key: T -> Key, k: Key)
    requires SortedBy(s, key)
    ensures Those(Insert(x, s, key), key, k)
         == (if key(x) == k then [x] else []) + Those(s, key, k)
  {
    if s == [] || KeyLe(key(x), key(s[0])) {
      assert ([x] + s)[1..] == s;
    } else {
      var t := Insert(x, s[1..], key);
      var h: seq<T> := if key(s[0]) == k then [s[0]] else [];
      var hx: seq<T> := if key(x) == k then [x] else [];
      InsertThose(x, s[1..], key, k);
      assert ([s[0]] + t)[1..] == t;
      assert Those([s[0]] + t, key, k) == h + Those(t, key, k);
      assert Those(s, key, k) == h + Those(s[1..], key, k);
      assert key(x) == k ==> h == [];
      assert h + (hx + Those(s[1..], key, k)) == hx + (h + Those(s[1..], key, k));
    }
  }

  /** Those of a concatenation is the concatenation of the two Those. */
  lemma {:induction false} ThoseAppend<T>(a: seq<T>, b: seq<T>, key: T -> Key, k: Key)
    ensures Those(a + b, key, k) == Those(a, key, k) + Those(b, key, k)
  {
    if a == [] {
      assert a + b == b;
    } else {
      assert (a + b)[1..] == a[1..] + b;
      ThoseAppend(a[1..], b, key, k);
    }
  }

  lemma ThoseCons<T>(s: seq<T>, key: T -> Key, k: Key)
    requires s != []
    ensures Those(s, key, k) == (if key(s[0]) == k then [s[0]] else []) + Those(s[1..], key, k)
  {
  }

  /** The tail of a sorted list is sorted, and its head comes first. */
  lemma SortedTail<T>(s: seq<T>, key: T -> Key)
    requires s != [] && SortedBy(s, key)
    ensures SortedBy(s[1..], key)
    ensures forall i :: 1 <= i < |s| ==> KeyLe(key(s[0]), key(s[i]))
  {
    var t := s[1..];
    forall i, j | 0 <= i < j < |t| ensures KeyLe(key(t[i]), key(t[j])) {
      assert t[i] == s[i + 1] && t[j] == s[j + 1];
    }
  }

  /** No element of key `k`: Those is empty. */
  lemma {:induction false} ThoseNone<T>(s: seq<T>, key: T -> Key, k: Key)
    requires forall i :: 0 <= i < |s| ==> key(s[i]) != k
    ensures Those(s, key, k) == []
  {
    if s != [] {
      ThoseNone(s[1..], key, k);
    }
  }

  /** Two positions holding one value make it occur at least twice. */
  lemma TwoIndicesCount<T>(s: seq<T>, i: nat, j: nat)
    requires i < j < |s| && s[i] == s[j]
    ensures multiset(s)[s[i]] >= 2
  {
    assert s == s[..j] + [s[j]] + s[j + 1..];
    assert s[..j][i] == s[i];
    assert s[i] in multiset(s[..j]);
  }

  /** A value occurring at least twice sits at two positions. */
  lemma CountTwoIndices<T>(s: seq<T>, x: T)
    requires multiset(s)[x] >= 2
    ensures exists i, j :: 0 <= i < j < |s| && s[i] == x && s[j] == x
  {
    assert x in multiset(s);
    var i :| 0 <= i < |s| && s[i] == x;
    assert s == s[..i] + [s[i]] + s[i + 1..];
    assert multiset(s)[x] == multiset(s[..i])[x] + 1 + multiset(s[i + 1..])[x];
    if x in multiset(s[..i]) {
      var k :| 0 <= k < |s[..i]| && s[..i][k] == x;
      assert s[k] == x;
    } else {
      assert x in multiset(s[i + 1..]);
      var k :| 0 <= k < |s[i + 1..]| && s[i + 1..][k] == x;
      assert s[i + 1 + k] == x;
    }
  }

  /**
    A relation that holds between the elements at any two different
    positions still does after the elements are permuted.
  */
  lemma PermPairwise<T>(a: seq<T>, b: seq<T>, P: (T, T) -> bool)
    requires multiset(a) == multiset(b)
    requires forall i, j :: 0 <= i < |a| && 0 <= j < |a| && i != j ==> P(a[i], a[j])
    ensures forall i, j :: 0 <= i < |b| && 0 <= j < |b| && i != j ==> P(b[i], b[j])
  {
    forall i, j | 0 <= i < |b| && 0 <= j < |b| && i != j ensures P(b[i], b[j]) {
      if b[i] == b[j] {
        if i < j { TwoIndicesCount(b, i, j); } else { TwoIndicesCount(b, j, i); }
        CountTwoIndices(a, b[i]);
        var i', j' :| 0 <= i' < j' < |a| && a[i'] == b[i] && a[j'] == b[i];
        assert P(a[i'], a[j']);
      } else {
        assert b[i] in multiset(a) && b[j] in multiset(a);
        var i' :| 0 <= i' < |a| && a[i'] == b[i];
        var j' :| 0 <= j' < |a| && a[j'] == b[j];
        assert P(a[i'], a[j']);
      }
    }
  }

  /** Every element has key `k`: Those is the whole sequence. */
  lemma {:induction false} ThoseAll<T>(s: seq<T>, key: T -> Key, k: Key)
    requires forall i :: 0 <= i < |s| ==> key(s[i]) == k
    ensures Those(s, key, k) == s
  {
    if s != [] {
      ThoseAll(s[1..], key, k);
      assert s == [s[0]] + s[1..];
    }
  }

  /**
    No value occurs twice. Stated recursively so that the verifier only
    unfolds it on request; `DistinctAt` and `DistinctOfPairwise` convert.
  */
  predicate Distinct<T(==)>(s: seq<T>) {
    s == [] || (s[0] !in s[1..] && Distinct(s[1..]))
  }

  lemma {:induction false} DistinctAt<T>(s: seq<T>, i: nat, j: nat)
    requires Distinct(s) && i < |s| && j < |s| && i != j
    ensures s[i] != s[j]
  {
    if i == 0 {
      assert s[j] == s[1..][j - 1];
    } else if j == 0 {
      assert s[i] == s[1..][i - 1];
    } else {
      DistinctAt(s[1..], i - 1, j - 1);
    }
  }

  lemma {:induction false} DistinctOfPairwise<T>(s: seq<T>)
    requires forall i, j :: 0 <= i < |s| && 0 <= j < |s| && i != j ==> s[i] != s[j]
    ensures Distinct(s)
  {
    if s != [] {
      var t := s[1..];
      assert forall i, j :: 0 <= i < |t| && 0 <= j < |t| && i != j ==> t[i] != t[j] by {
        forall i, j | 0 <= i < |t| && 0 <= j < |t| && i != j ensures t[i] != t[j] {
          assert t[i] == s[i + 1] && t[j] == s[j + 1];
        }
      }
      DistinctOfPairwise(t);
      forall k | 0 <= k < |t| ensures t[k] != s[0] {
        assert t[k] == s[k + 1];
      }
    }
  }
}
