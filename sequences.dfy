/**
 * Order-preserving filtering and a stable sort by a string key: the shapes of a query's
 * `WHERE` / `ORDER BY` and of Java's `stream().filter(...)` / `stream().sorted(comparing(...))`;
 * and a set kept in key order, the shape of a `TreeSet` or of a `TreeMap`'s keys.
 */
module Sequences {
  import opened Strings

  /** The elements of `s` that `keep` accepts, in their original order. */
  function Filter<T(!new)>(s: seq<T>, keep: T -> bool): (r: seq<T>)
    ensures forall x :: x in r <==> x in s && keep(x)
    ensures forall x :: multiset(r)[x] == if keep(x) then multiset(s)[x] else 0
    decreases |s|
  {
    if s == [] then []
    else
      assert s == [s[0]] + s[1..];
      (if keep(s[0]) then [s[0]] else []) + Filter(s[1..], keep)
  }

  /** Sequences with the same multiset of elements have the same members. */
  lemma SameMembers<T>(s: seq<T>, r: seq<T>)
    requires multiset(r) == multiset(s)
    ensures forall x :: x in r <==> x in s
  {
    forall x ensures x in r <==> x in s {
      assert x in r <==> x in multiset(r);
      assert x in s <==> x in multiset(s);
    }
  }

  /** `s` back to front. */
  function Reverse<T>(s: seq<T>): (r: seq<T>)
    ensures |r| == |s|
    ensures forall i :: 0 <= i < |s| ==> r[i] == s[|s| - 1 - i]
    decreases |s|
  {
    if s == [] then [] else [s[|s| - 1]] + Reverse(s[..|s| - 1])
  }

  /** Sorted in ascending order of `key` (ties allowed). */
  ghost predicate SortedBy<T>(s: seq<T>, key: T -> string)
  {
    forall i, j :: 0 <= i < j < |s| ==> LessEq(key(s[i]), key(s[j]))
  }

  /** Sorted by `key`, ties broken by strictly increasing `rank`. */
  ghost predicate SortedByThen<T>(s: seq<T>, key: T -> string, rank: T -> int)
  {
    forall i, j :: 0 <= i < j < |s| ==>
      Less(key(s[i]), key(s[j])) || (key(s[i]) == key(s[j]) && rank(s[i]) < rank(s[j]))
  }

  /** `x` placed after every element whose key is not greater than its own. */
  function InsertBy<T>(s: seq<T>, x: T, key: T -> string): (r: seq<T>)
    requires SortedBy(s, key)
    ensures multiset(r) == multiset(s) + multiset{x}
    ensures SortedBy(r, key)
    decreases |s|
  {
    if s == [] || LessEq(key(s[|s| - 1]), key(x)) then
      assert forall y :: y in s ==> LessEq(key(y), key(x)) by {
        forall y | y in s ensures LessEq(key(y), key(x)) {
          var i :| 0 <= i < |s| && s[i] == y;
          if i < |s| - 1 { LessEqTransitive(key(y), key(s[|s| - 1]), key(x)); }
        }
      }
      SortedSnoc(s, x, key);
      s + [x]
    else
      var init, last := s[..|s| - 1], s[|s| - 1];
      assert s == init + [last];
      LessTotal(key(last), key(x));
      var r' := InsertBy(init, x, key);
      assert forall y :: y in r' ==> LessEq(key(y), key(last)) by {
        forall y | y in r' ensures LessEq(key(y), key(last)) {
          assert y in multiset(r');
          assert y == x || y in init;
        }
      }
      SortedSnoc(r', last, key);
      r' + [last]
  }

  /** Appending an element no smaller than any other keeps a sequence sorted. */
  lemma SortedSnoc<T>(s: seq<T>, x: T, key: T -> string)
    requires SortedBy(s, key)
    requires forall y :: y in s ==> LessEq(key(y), key(x))
    ensures SortedBy(s + [x], key)
  {
    forall i, j | 0 <= i < j < |s| + 1 ensures LessEq(key((s + [x])[i]), key((s + [x])[j])) {
      assert (s + [x])[i] == s[i] && s[i] in s;
      if j < |s| { assert (s + [x])[j] == s[j]; }
    }
  }

  /** A stable insertion sort: `stream().sorted(comparing(key))`. */
  function SortBy<T>(s: seq<T>, key: T -> string): (r: seq<T>)
    ensures multiset(r) == multiset(s)
    ensures SortedBy(r, key)
    decreases |s|
  {
    if s == [] then []
    else
      assert s == s[..|s| - 1] + [s[|s| - 1]];
      InsertBy(SortBy(s[..|s| - 1], key), s[|s| - 1], key)
  }

  lemma {:induction false} InsertByKeepsTies<T>(s: seq<T>, x: T, key: T -> string, rank: T -> int)
    requires SortedBy(s, key) && SortedByThen(s, key, rank)
    requires forall y :: y in s ==> rank(y) < rank(x)
    ensures SortedByThen(InsertBy(s, x, key), key, rank)
    decreases |s|
  {
    var r := InsertBy(s, x, key);
    if s == [] || LessEq(key(s[|s| - 1]), key(x)) {
      assert r == s + [x];
      forall i, j | 0 <= i < j < |r|
        ensures Less(key(r[i]), key(r[j])) || (key(r[i]) == key(r[j]) && rank(r[i]) < rank(r[j]))
      {
        if j == |s| {
          assert r[i] == s[i] && r[j] == x;
          LessEqTransitive(key(s[i]), key(s[|s| - 1]), key(x));
        }
      }
    } else {
      var init, last := s[..|s| - 1], s[|s| - 1];
      assert s == init + [last];
      LessTotal(key(last), key(x));
      var r' := InsertBy(init, x, key);
      InsertByKeepsTies(init, x, key, rank);
      assert r == r' + [last];
      forall i, j | 0 <= i < j < |r|
        ensures Less(key(r[i]), key(r[j])) || (key(r[i]) == key(r[j]) && rank(r[i]) < rank(r[j]))
      {
        if j == |r'| {
          var y := r'[i];
          assert y in multiset(r');
          assert y == x || y in init;
          if y != x {
            var k :| 0 <= k < |init| && init[k] == y;
            assert s[k] == y && s[|s| - 1] == last;
          }
        } else {
          assert r[i] == r'[i] && r[j] == r'[j];
        }
      }
    }
  }

  /**
   * Stability: when the input is in strictly increasing `rank` order, equal keys keep that
   * order, so the result is sorted by `key` and then by `rank`.
   */
  lemma {:induction false} SortByIsStable<T>(s: seq<T>, key: T -> string, rank: T -> int)
    requires forall i, j :: 0 <= i < j < |s| ==> rank(s[i]) < rank(s[j])
    ensures SortedByThen(SortBy(s, key), key, rank)
    decreases |s|
  {
    if s != [] {
      var init, x := s[..|s| - 1], s[|s| - 1];
      assert s == init + [x];
      SortByIsStable(init, key, rank);
      var sorted := SortBy(init, key);
      forall y | y in sorted ensures rank(y) < rank(x) {
        assert y in multiset(sorted);
        var k :| 0 <= k < |init| && init[k] == y;
        assert s[k] == y;
      }
      InsertByKeepsTies(sorted, x, key, rank);
    }
  }

  // ---------------------------------------------------------------- sorted sets

  /** Strictly increasing by `key`: the iteration order of a `TreeSet` or of a `TreeMap`'s values. */
  ghost predicate StrictlySorted<T>(s: seq<T>, key: T -> string)
  {
    forall i, j :: 0 <= i < j < |s| ==> Less(key(s[i]), key(s[j]))
  }

  /** Some element of `s` has key `k`: the comparator finds it equal to anything keyed `k`. */
  ghost predicate HasKey<T>(s: seq<T>, k: string, key: T -> string)
  {
    exists y :: y in s && key(y) == k
  }

  /**
   * `TreeSet.add` with a comparator: `x` goes to its place in the order, unless an element the
   * comparator finds equal is already there, in which case nothing changes.
   */
  function AddToSet<T>(s: seq<T>, x: T, key: T -> string): seq<T>
    decreases |s|
  {
    if s == [] then [x]
    else
      var last := s[|s| - 1];
      if key(last) == key(x) then s
      else if Less(key(last), key(x)) then s + [x]
      else AddToSet(s[..|s| - 1], x, key) + [last]
  }

  /** `AddToSet` gains `x` exactly when no element with its key is there. */
  lemma {:induction false} AddToSetContents<T>(s: seq<T>, x: T, key: T -> string)
    requires StrictlySorted(s, key)
    ensures HasKey(s, key(x), key) ==> AddToSet(s, x, key) == s
    ensures !HasKey(s, key(x), key) ==> multiset(AddToSet(s, x, key)) == multiset(s) + multiset{x}
    decreases |s|
  {
    if s != [] {
      var init, last := s[..|s| - 1], s[|s| - 1];
      assert s == init + [last];
      if key(last) == key(x) {
        assert HasKey(s, key(x), key);
      } else if Less(key(last), key(x)) {
        assert !HasKey(s, key(x), key) by {
          forall y | y in s ensures key(y) != key(x) {
            var i :| 0 <= i < |s| && s[i] == y;
            if i < |s| - 1 { LessTransitive(key(y), key(last), key(x)); }
            LessIrreflexive(key(x));
          }
        }
      } else {
        SortedInit(s, key);
        AddToSetContents(init, x, key);
        assert HasKey(s, key(x), key) <==> HasKey(init, key(x), key);
      }
    }
  }

  lemma SortedInit<T>(s: seq<T>, key: T -> string)
    requires s != [] && StrictlySorted(s, key)
    ensures StrictlySorted(s[..|s| - 1], key)
  {
    var init := s[..|s| - 1];
    forall i, j | 0 <= i < j < |init| ensures Less(key(init[i]), key(init[j])) {
      assert init[i] == s[i] && init[j] == s[j];
    }
  }

  /** The elements after `AddToSet`: the old ones, and `x` when nothing equal to it was there. */
  lemma AddToSetMembers<T>(s: seq<T>, x: T, key: T -> string)
    requires StrictlySorted(s, key)
    ensures forall y :: y in AddToSet(s, x, key) <==> y in s || (y == x && !HasKey(s, key(x), key))
  {
    AddToSetContents(s, x, key);
    var r := AddToSet(s, x, key);
    forall y ensures y in r <==> y in s || (y == x && !HasKey(s, key(x), key)) {
      assert y in r <==> y in multiset(r);
      assert y in s <==> y in multiset(s);
    }
  }

  /** `AddToSet` keeps the set ordered. */
  lemma {:induction false} AddToSetSorted<T>(s: seq<T>, x: T, key: T -> string)
    requires StrictlySorted(s, key)
    ensures StrictlySorted(AddToSet(s, x, key), key)
    ensures forall y :: y in AddToSet(s, x, key) ==> y in s || y == x
    decreases |s|
  {
    if s != [] {
      var init, last := s[..|s| - 1], s[|s| - 1];
      assert s == init + [last];
      if key(last) == key(x) {
      } else if Less(key(last), key(x)) {
        forall i, j | 0 <= i < j < |s| + 1 ensures Less(key((s + [x])[i]), key((s + [x])[j])) {
          if j == |s| && i < |s| - 1 { LessTransitive(key(s[i]), key(last), key(x)); }
        }
      } else {
        LessTotal(key(last), key(x));
        SortedInit(s, key);
        AddToSetSorted(init, x, key);
        var r' := AddToSet(init, x, key);
        forall y | y in r' ensures Less(key(y), key(last)) {
          if y != x {
            var i :| 0 <= i < |init| && init[i] == y;
            assert s[i] == y;
          }
        }
        forall i, j | 0 <= i < j < |r'| + 1 ensures Less(key((r' + [last])[i]), key((r' + [last])[j])) {
          if j == |r'| { assert r'[i] in r'; }
        }
      }
    }
  }
}
