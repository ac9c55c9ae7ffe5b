/**
 * Stable sorting and filtering of sequences by a real-valued key: the meaning
 * of Python's `list.sort(key=...)` (a stable sort) and of a list
 * comprehension with an `if` clause.
 */
module Ordering {

  /** s is in non-decreasing order of key. */
  ghost predicate SortedBy<T>(s: seq<T>, key: T -> real)
  {
    forall i, j :: 0 <= i < j < |s| ==> key(s[i]) <= key(s[j])
  }

  /** The elements of s whose key is k, in the order they appear in s. */
  function KeyClass<T>(s: seq<T>, key: T -> real, k: real): seq<T>
  {
    if s == [] then []
    else KeyClass(s[..|s| - 1], key, k) + (if key(s[|s| - 1]) == k then [s[|s| - 1]] else [])
  }

  /** The elements of s that keep holds for, in the order they appear in s. */
  function Filter<T>(s: seq<T>, keep: T -> bool): seq<T>
  {
    if s == [] then []
    else Filter(s[..|s| - 1], keep) + (if keep(s[|s| - 1]) then [s[|s| - 1]] else [])
  }

  /** Inserts x into s after every element whose key is at most x's key. */
  function Insert<T>(s: seq<T>, x: T, key: T -> real): (r: seq<T>)
    ensures |r| == |s| + 1
  {
    if s == [] || key(s[|s| - 1]) <= key(x) then s + [x]
    else Insert(s[..|s| - 1], x, key) + [s[|s| - 1]]
  }

  /** Insertion sort: a stable sort of s by key. */
  function Sort<T>(s: seq<T>, key: T -> real): (r: seq<T>)
    ensures |r| == |s|
  {
    if s == [] then [] else Insert(Sort(s[..|s| - 1], key), s[|s| - 1], key)
  }

  // ---------------------------------------------------------------------------
  // Insert
  // ---------------------------------------------------------------------------

  lemma {:induction false} InsertMultiset<T>(s: seq<T>, x: T, key: T -> real)
    ensures multiset(Insert(s, x, key)) == multiset(s) + multiset{x}
  {
    if s != [] && key(s[|s| - 1]) > key(x) {
      var n := |s| - 1;
      InsertMultiset(s[..n], x, key);
      assert s == s[..n] + [s[n]];
    }
  }

  lemma {:induction false} InsertSorted<T>(s: seq<T>, x: T, key: T -> real)
    requires SortedBy(s, key)
    ensures SortedBy(Insert(s, x, key), key)
  {
    if s != [] && key(s[|s| - 1]) > key(x) {
      var n := |s| - 1;
      var front := Insert(s[..n], x, key);
      InsertSorted(s[..n], x, key);
      InsertMultiset(s[..n], x, key);
      forall i | 0 <= i < |front|
        ensures key(front[i]) <= key(s[n])
      {
        assert front[i] in multiset(s[..n]) + multiset{x};
        if front[i] != x {
          var j :| 0 <= j < n && s[..n][j] == front[i];
          assert s[j] == front[i];
        }
      }
    }
  }

  lemma {:induction false} KeyClassSnoc<T>(s: seq<T>, x: T, key: T -> real, k: real)
    ensures KeyClass(s + [x], key, k) == KeyClass(s, key, k) + (if key(x) == k then [x] else [])
  {
    assert (s + [x])[..|s|] == s;
  }

  /** An insertion keeps the relative order of each key class and puts x last in its own. */
  lemma {:induction false} InsertKeyClass<T>(s: seq<T>, x: T, key: T -> real, k: real)
    requires SortedBy(s, key)
    ensures KeyClass(Insert(s, x, key), key, k) == KeyClass(s, key, k) + (if key(x) == k then [x] else [])
  {
    if s == [] {
      KeyClassSnoc(s, x, key, k);
    } else if key(s[|s| - 1]) <= key(x) {
      KeyClassSnoc(s, x, key, k);
    } else {
      var n := |s| - 1;
      var front := Insert(s[..n], x, key);
      InsertKeyClass(s[..n], x, key, k);
      KeyClassSnoc(front, s[n], key, k);
      assert s == s[..n] + [s[n]];
      KeyClassSnoc(s[..n], s[n], key, k);
      var c := KeyClass(s[..n], key, k);
      if key(x) == k {
        assert KeyClass(Insert(s, x, key), key, k) == c + [x];
      } else if key(s[n]) == k {
        assert KeyClass(Insert(s, x, key), key, k) == c + [s[n]];
      } else {
        assert KeyClass(Insert(s, x, key), key, k) == c;
      }
    }
  }

  // ---------------------------------------------------------------------------
  // Sort
  // ---------------------------------------------------------------------------

  /** The sort returns the same elements, each as often as before. */
  lemma {:induction false} SortPermutation<T>(s: seq<T>, key: T -> real)
    ensures multiset(Sort(s, key)) == multiset(s)
  {
    if s != [] {
      var n := |s| - 1;
      SortPermutation(s[..n], key);
      InsertMultiset(Sort(s[..n], key), s[n], key);
      assert s == s[..n] + [s[n]];
    }
  }

  /** The sort returns its elements in non-decreasing order of key. */
  lemma {:induction false} SortSorted<T>(s: seq<T>, key: T -> real)
    ensures SortedBy(Sort(s, key), key)
  {
    if s != [] {
      var n := |s| - 1;
      SortSorted(s[..n], key);
      InsertSorted(Sort(s[..n], key), s[n], key);
    }
  }

  /** Stability: elements with equal keys keep the order they had in s. */
  lemma {:induction false} SortStable<T>(s: seq<T>, key: T -> real, k: real)
    ensures KeyClass(Sort(s, key), key, k) == KeyClass(s, key, k)
  {
    if s != [] {
      var n := |s| - 1;
      SortStable(s[..n], key, k);
      SortSorted(s[..n], key);
      InsertKeyClass(Sort(s[..n], key), s[n], key, k);
    }
  }

  lemma {:induction false} CancelRight<T>(u: seq<T>, v: seq<T>, t: seq<T>)
    requires u + t == v + t
    ensures u == v
  {
    assert |u| == |v|;
    assert u == (u + t)[..|u|];
    assert v == (v + t)[..|v|];
  }

  /** Dropping the same last element from two sequences keeps their key classes equal. */
  lemma {:induction false} FrontKeyClass<T>(a: seq<T>, b: seq<T>, key: T -> real, k: real)
    requires a != [] && b != [] && a[|a| - 1] == b[|b| - 1]
    requires KeyClass(a, key, k) == KeyClass(b, key, k)
    ensures KeyClass(a[..|a| - 1], key, k) == KeyClass(b[..|b| - 1], key, k)
  {
    var n, m, x := |a| - 1, |b| - 1, a[|a| - 1];
    assert a == a[..n] + [x];
    assert b == b[..m] + [x];
    KeyClassSnoc(a[..n], x, key, k);
    KeyClassSnoc(b[..m], x, key, k);
    CancelRight(KeyClass(a[..n], key, k), KeyClass(b[..m], key, k), if key(x) == k then [x] else []);
  }

  /** Sequences with the same key classes are both empty or both non-empty. */
  lemma {:induction false} EmptyTogether<T>(a: seq<T>, b: seq<T>, key: T -> real)
    requires forall k :: KeyClass(a, key, k) == KeyClass(b, key, k)
    ensures a == [] <==> b == []
  {
    if a != [] {
      var k := key(a[|a| - 1]);
      assert KeyClass(a, key, k) == KeyClass(a[..|a| - 1], key, k) + [a[|a| - 1]];
      assert KeyClass(b, key, k) != [];
    }
    if b != [] {
      var k := key(b[|b| - 1]);
      assert KeyClass(b, key, k) == KeyClass(b[..|b| - 1], key, k) + [b[|b| - 1]];
      assert KeyClass(a, key, k) != [];
    }
  }

  /** Two sorted sequences with the same key classes end with the same element. */
  lemma {:induction false} SameLast<T>(a: seq<T>, b: seq<T>, key: T -> real)
    requires a != [] && b != []
    requires SortedBy(a, key) && SortedBy(b, key)
    requires forall k :: KeyClass(a, key, k) == KeyClass(b, key, k)
    ensures a[|a| - 1] == b[|b| - 1]
  {
    var n, m := |a| - 1, |b| - 1;
    var ka, kb := key(a[n]), key(b[m]);
    var ja := KeyClassIndex(b, key, ka, |KeyClass(a, key, ka)| - 1);
    var jb := KeyClassIndex(a, key, kb, |KeyClass(b, key, kb)| - 1);
    assert key(b[ja]) == ka && key(a[jb]) == kb;
    assert ka == kb;
    assert a[n] == KeyClass(a, key, ka)[|KeyClass(a, key, ka)| - 1];
    assert b[m] == KeyClass(b, key, kb)[|KeyClass(b, key, kb)| - 1];
  }

  /**
   * A sorted sequence is determined by its key classes: two sorted sequences
   * whose elements of each key come in the same order are equal.
   */
  lemma {:induction false} SortedByKeyClasses<T>(a: seq<T>, b: seq<T>, key: T -> real)
    requires SortedBy(a, key) && SortedBy(b, key)
    requires forall k :: KeyClass(a, key, k) == KeyClass(b, key, k)
    ensures a == b
    decreases |a| + |b|
  {
    EmptyTogether(a, b, key);
    if a != [] {
      var n, m := |a| - 1, |b| - 1;
      SameLast(a, b, key);
      forall k
        ensures KeyClass(a[..n], key, k) == KeyClass(b[..m], key, k)
      {
        FrontKeyClass(a, b, key, k);
      }
      SortedByKeyClasses(a[..n], b[..m], key);
      assert a == a[..n] + [a[n]] && b == b[..m] + [b[m]];
    }
  }

  /**
   * Any stable sort agrees with Sort: a sorted sequence in which the elements
   * of each key keep their order in s is Sort(s, key).
   */
  lemma StableSortIsSort<T>(s: seq<T>, r: seq<T>, key: T -> real)
    requires SortedBy(r, key)
    requires forall k :: KeyClass(r, key, k) == KeyClass(s, key, k)
    ensures r == Sort(s, key)
  {
    SortSorted(s, key);
    forall k
      ensures KeyClass(r, key, k) == KeyClass(Sort(s, key), key, k)
    {
      SortStable(s, key, k);
    }
    SortedByKeyClasses(r, Sort(s, key), key);
  }

  // ---------------------------------------------------------------------------
  // Filter and key classes
  // ---------------------------------------------------------------------------

  /** The filter keeps exactly the elements keep holds for, each as often as in s. */
  lemma {:induction false} FilterMultiset<T>(s: seq<T>, keep: T -> bool)
    ensures forall x :: multiset(Filter(s, keep))[x] == if keep(x) then multiset(s)[x] else 0
  {
    if s != [] {
      var n := |s| - 1;
      FilterMultiset(s[..n], keep);
      assert s == s[..n] + [s[n]];
    }
  }

  /** Filtering a sorted sequence leaves it sorted, whatever the key. */
  lemma {:induction false} FilterSorted<T>(s: seq<T>, keep: T -> bool, key: T -> real)
    requires SortedBy(s, key)
    ensures SortedBy(Filter(s, keep), key)
  {
    if s != [] {
      var n := |s| - 1;
      var front := Filter(s[..n], keep);
      FilterSorted(s[..n], keep, key);
      if keep(s[n]) {
        forall i | 0 <= i < |front|
          ensures key(front[i]) <= key(s[n])
        {
          var j := FilterIndex(s[..n], keep, i);
          assert s[j] == front[i];
        }
      }
    }
  }

  /** Every element the filter keeps sits at some index of the whole sequence. */
  lemma {:induction false} FilterIndex<T>(s: seq<T>, keep: T -> bool, i: nat) returns (j: nat)
    requires i < |Filter(s, keep)|
    ensures j < |s| && s[j] == Filter(s, keep)[i]
  {
    var n := |s| - 1;
    if i < |Filter(s[..n], keep)| {
      j := FilterIndex(s[..n], keep, i);
    } else {
      j := n;
    }
  }

  /** A key class of a sequence sorted by some other key is sorted by that key too. */
  lemma {:induction false} KeyClassSorted<T>(s: seq<T>, key: T -> real, k: real, other: T -> real)
    requires SortedBy(s, other)
    ensures SortedBy(KeyClass(s, key, k), other)
  {
    if s != [] {
      var n := |s| - 1;
      var front := KeyClass(s[..n], key, k);
      KeyClassSorted(s[..n], key, k, other);
      if key(s[n]) == k {
        forall i | 0 <= i < |front|
          ensures other(front[i]) <= other(s[n])
        {
          var j := KeyClassIndex(s[..n], key, k, i);
          assert s[j] == front[i];
        }
      }
    }
  }

  /** Every member of a key class sits at some index of the whole sequence. */
  lemma {:induction false} KeyClassIndex<T>(s: seq<T>, key: T -> real, k: real, i: nat) returns (j: nat)
    requires i < |KeyClass(s, key, k)|
    ensures j < |s| && s[j] == KeyClass(s, key, k)[i]
  {
    var n := |s| - 1;
    var front := KeyClass(s[..n], key, k);
    if i < |front| {
      j := KeyClassIndex(s[..n], key, k, i);
    } else {
      j := n;
    }
  }

  /**
   * Two elements with key k at indices i < j of s appear in the key class of
   * k, the one at i before the one at j.
   */
  lemma {:induction false} KeyClassOrder<T>(s: seq<T>, key: T -> real, i: nat, j: nat) returns (i': nat, j': nat)
    requires i < j < |s| && key(s[i]) == key(s[j])
    ensures i' < j' < |KeyClass(s, key, key(s[j]))|
    ensures KeyClass(s, key, key(s[j]))[i'] == s[i] && KeyClass(s, key, key(s[j]))[j'] == s[j]
  {
    var n := |s| - 1;
    var k := key(s[j]);
    var front := KeyClass(s[..n], key, k);
    if j < n {
      i', j' := KeyClassOrder(s[..n], key, i, j);
    } else {
      i' := KeyClassMember(s[..n], key, i);
      j' := |front|;
    }
  }

  /** The element at index i of s appears in the key class of its key. */
  lemma {:induction false} KeyClassMember<T>(s: seq<T>, key: T -> real, i: nat) returns (i': nat)
    requires i < |s|
    ensures i' < |KeyClass(s, key, key(s[i]))| && KeyClass(s, key, key(s[i]))[i'] == s[i]
  {
    var n := |s| - 1;
    var k := key(s[i]);
    if i < n {
      i' := KeyClassMember(s[..n], key, i);
    } else {
      i' := |KeyClass(s[..n], key, k)|;
    }
  }
}
