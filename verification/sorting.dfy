/** Stable sorting of a sequence by a string key, the model of `Array.prototype.sort`
    with a `localeCompare` comparator (the comparator is replaced by `StringOrder.Le`). */
module Sorting {
  import StringOrder

  /** Every earlier element's key sorts before or equals every later element's key. */
  ghost predicate SortedBy<T>(s: seq<T>, key: T -> string) {
    forall i, j :: 0 <= i < j < |s| ==> StringOrder.Le(key(s[i]), key(s[j]))
  }

  /** No element occurs twice. */
  ghost predicate NoDup<T>(s: seq<T>) {
    forall i, j :: 0 <= i < j < |s| ==> s[i] != s[j]
  }

  /** Places `x` after every element of `s` whose key does not exceed its own, so that
      equal keys keep their original order. */
  function Insert<T>(x: T, s: seq<T>, key: T -> string): (r: seq<T>)
    ensures multiset(r) == multiset(s) + multiset{x}
    ensures |r| == |s| + 1
  {
    if |s| == 0 then [x]
    else if StringOrder.Le(key(s[0]), key(x)) then
      assert s == [s[0]] + s[1..];
      [s[0]] + Insert(x, s[1..], key)
    else [x] + s
  }

  /** Insertion sort: the last element is inserted into the sorted rest. */
  function SortBy<T>(s: seq<T>, key: T -> string): (r: seq<T>)
    ensures multiset(r) == multiset(s)
    ensures |r| == |s|
  {
    if |s| == 0 then []
    else
      assert s == s[..|s| - 1] + [s[|s| - 1]];
      Insert(s[|s| - 1], SortBy(s[..|s| - 1], key), key)
  }

  lemma {:induction false} InsertKeepsSorted<T>(x: T, s: seq<T>, key: T -> string)
    requires SortedBy(s, key)
    ensures SortedBy(Insert(x, s, key), key)
    decreases |s|
  {
    if |s| > 0 {
      if StringOrder.Le(key(s[0]), key(x)) {
        var rest := Insert(x, s[1..], key);
        InsertKeepsSorted(x, s[1..], key);
        forall j | 0 <= j < |rest|
          ensures StringOrder.Le(key(s[0]), key(rest[j]))
        {
          assert rest[j] in multiset(rest);
          if rest[j] != x {
            assert rest[j] in multiset(s[1..]);
            var k :| 0 <= k < |s[1..]| && s[1..][k] == rest[j];
            assert s[k + 1] == rest[j];
          }
        }
        var r := [s[0]] + rest;
        forall i, j | 0 <= i < j < |r|
          ensures StringOrder.Le(key(r[i]), key(r[j]))
        {
          if i > 0 {
            assert r[i] == rest[i - 1] && r[j] == rest[j - 1];
          } else {
            assert r[j] == rest[j - 1];
          }
        }
      } else {
        StringOrder.LeTotal(key(s[0]), key(x));
        var r := [x] + s;
        forall i, j | 0 <= i < j < |r|
          ensures StringOrder.Le(key(r[i]), key(r[j]))
        {
          if i == 0 && j > 1 {
            StringOrder.LeTransitive(key(x), key(s[0]), key(s[j - 1]));
          }
        }
      }
    }
  }

  /** The result of `SortBy` is ordered by key. */
  lemma {:induction false} SortByIsSorted<T>(s: seq<T>, key: T -> string)
    ensures SortedBy(SortBy(s, key), key)
    decreases |s|
  {
    if |s| > 0 {
      SortByIsSorted(s[..|s| - 1], key);
      InsertKeepsSorted(s[|s| - 1], SortBy(s[..|s| - 1], key), key);
    }
  }

  /** An element repeated at two positions is counted at least twice. */
  lemma RepeatCountsTwice<T>(s: seq<T>, i: nat, j: nat)
    requires i < j < |s| && s[i] == s[j]
    ensures multiset(s)[s[i]] >= 2
  {
    assert s == s[..j] + [s[j]] + s[j + 1..];
    assert s[..j][i] == s[i];
    assert s[i] in multiset(s[..j]);
  }

  /** Without repetitions every element is counted at most once. */
  lemma {:induction false} NoDupCountsOnce<T>(s: seq<T>, v: T)
    requires NoDup(s)
    ensures multiset(s)[v] <= 1
    decreases |s|
  {
    if |s| > 0 {
      var p := s[..|s| - 1];
      assert s == p + [s[|s| - 1]];
      assert NoDup(p) by {
        forall i, j | 0 <= i < j < |p| ensures p[i] != p[j] {
          assert p[i] == s[i] && p[j] == s[j];
        }
      }
      NoDupCountsOnce(p, v);
      if s[|s| - 1] == v {
        forall k | 0 <= k < |p|
          ensures p[k] != v
        {
          assert s[k] == p[k];
        }
        assert v !in multiset(p);
      }
    }
  }

  /** A permutation of a repetition-free sequence is repetition-free. */
  lemma PermutationKeepsNoDup<T>(a: seq<T>, b: seq<T>)
    requires multiset(a) == multiset(b) && NoDup(a)
    ensures NoDup(b)
  {
    forall i, j | 0 <= i < j < |b|
      ensures b[i] != b[j]
    {
      if b[i] == b[j] {
        RepeatCountsTwice(b, i, j);
        NoDupCountsOnce(a, b[i]);
        assert false;
      }
    }
  }

  /** Two sequences with the same elements are either both empty or both non-empty. */
  lemma SameMembersBothEmpty<T>(a: seq<T>, b: seq<T>)
    requires forall x :: x in a <==> x in b
    ensures |a| == 0 <==> |b| == 0
  {
    if |a| > 0 {
      assert a[0] in b;
    }
    if |b| > 0 {
      assert b[0] in a;
    }
  }

  /** Two strictly increasing string sequences with the same elements are equal: a
      strictly sorted sequence is determined by its element set. */
  lemma {:induction false} StrictlySortedUnique(a: seq<string>, b: seq<string>)
    requires forall i, j :: 0 <= i < j < |a| ==> StringOrder.Lt(a[i], a[j])
    requires forall i, j :: 0 <= i < j < |b| ==> StringOrder.Lt(b[i], b[j])
    requires forall x :: x in a <==> x in b
    ensures a == b
    decreases |a|
  {
    SameMembersBothEmpty(a, b);
    if |a| > 0 {
      assert a[0] in b;
      assert b != [];
      assert b[0] in a;
      var ia :| 0 <= ia < |a| && a[ia] == b[0];
      var ib :| 0 <= ib < |b| && b[ib] == a[0];
      if ia > 0 && ib > 0 {
        StringOrder.LeAntisymmetric(a[0], b[0]);
      }
      assert a[0] == b[0] by {
        if ia > 0 && ib > 0 { } else if ia == 0 { } else { }
      }
      forall x
        ensures x in a[1..] <==> x in b[1..]
      {
        if x in a[1..] {
          var k :| 0 <= k < |a[1..]| && a[1..][k] == x;
          assert a[k + 1] == x && x != a[0];
          assert x in b;
        }
        if x in b[1..] {
          var k :| 0 <= k < |b[1..]| && b[1..][k] == x;
          assert b[k + 1] == x && x != b[0];
          assert x in a;
        }
      }
      StrictlySortedUnique(a[1..], b[1..]);
      assert a == [a[0]] + a[1..] && b == [b[0]] + b[1..];
    }
  }
}
