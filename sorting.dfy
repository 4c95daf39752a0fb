/**
 * A stable insertion sort parameterised by a "ranks below" relation, and what it
 * guarantees when that relation compares a numeric key: the output is a permutation
 * of the input, every element ranks at least as high as every later one, and
 * elements of equal rank keep their input order.
 *
 * `below(a, b)` means that `a` ranks strictly below `b`, i.e. `a` must come after `b`.
 */
module Sorting {

  /** `below` compares elements by a numeric key: lower key, lower rank. */
  ghost predicate RanksByKey<T(!new)>(below: (T, T) -> bool, key: T -> real) {
    forall a, b :: below(a, b) <==> key(a) < key(b)
  }

  /** Every element ranks at least as high as every element after it. */
  ghost predicate SortedBy<T>(s: seq<T>, below: (T, T) -> bool) {
    forall i, j :: 0 <= i < j < |s| ==> !below(s[i], s[j])
  }

  /** Neither ranks below the other. */
  predicate Equivalent<T>(a: T, b: T, below: (T, T) -> bool) {
    !below(a, b) && !below(b, a)
  }

  /** Inserts `x` after every element that does not rank below it. */
  function InsertBy<T>(x: T, s: seq<T>, below: (T, T) -> bool): (r: seq<T>)
    ensures |r| == |s| + 1
  {
    if s == [] then [x]
    else if below(s[0], x) then [x] + s
    else [s[0]] + InsertBy(x, s[1..], below)
  }

  /** Stable sort: the last element is inserted into the sorted rest, after its equals. */
  function SortBy<T>(s: seq<T>, below: (T, T) -> bool): (r: seq<T>)
    ensures |r| == |s|
  {
    if s == [] then []
    else InsertBy(s[|s| - 1], SortBy(s[..|s| - 1], below), below)
  }

  /** Inserting adds exactly `x`: nothing is lost or duplicated. */
  lemma {:induction false} InsertByPermutes<T>(x: T, s: seq<T>, below: (T, T) -> bool)
    ensures multiset(InsertBy(x, s, below)) == multiset(s) + multiset{x}
  {
    if s != [] && !below(s[0], x) {
      InsertByPermutes(x, s[1..], below);
      assert s == [s[0]] + s[1..];
    }
  }

  /** The sort is a permutation of its input. */
  lemma {:induction false} SortByPermutes<T>(s: seq<T>, below: (T, T) -> bool)
    ensures multiset(SortBy(s, below)) == multiset(s)
  {
    if s != [] {
      SortByPermutes(s[..|s| - 1], below);
      InsertByPermutes(s[|s| - 1], SortBy(s[..|s| - 1], below), below);
      assert s == s[..|s| - 1] + [s[|s| - 1]];
    }
  }

  /** The elements of `s` equivalent to `k`, in their order in `s`. */
  function TiedWith<T>(s: seq<T>, k: T, below: (T, T) -> bool): seq<T> {
    if s == [] then []
    else (if Equivalent(s[0], k, below) then [s[0]] else []) + TiedWith(s[1..], k, below)
  }

  lemma {:induction false} TiedWithAppend<T>(a: seq<T>, b: seq<T>, k: T, below: (T, T) -> bool)
    ensures TiedWith(a + b, k, below) == TiedWith(a, k, below) + TiedWith(b, k, below)
  {
    if a != [] {
      var head := if Equivalent(a[0], k, below) then [a[0]] else [];
      assert (a + b)[0] == a[0];
      assert (a + b)[1..] == a[1..] + b;
      TiedWithAppend(a[1..], b, k, below);
      calc {
        TiedWith(a + b, k, below);
        head + TiedWith(a[1..] + b, k, below);
        head + (TiedWith(a[1..], k, below) + TiedWith(b, k, below));
        (head + TiedWith(a[1..], k, below)) + TiedWith(b, k, below);
      }
    } else {
      assert a + b == b;
    }
  }

  lemma {:induction false} TiedWithNone<T>(s: seq<T>, k: T, below: (T, T) -> bool)
    requires forall y :: y in s ==> !Equivalent(y, k, below)
    ensures TiedWith(s, k, below) == []
  {
    if s != [] {
      assert s[0] in s;
      assert forall y :: y in s[1..] ==> y in s;
      TiedWithNone(s[1..], k, below);
    }
  }

  lemma {:induction false} InsertBySorted<T(!new)>(x: T, s: seq<T>, below: (T, T) -> bool, key: T -> real)
    requires RanksByKey(below, key)
    requires SortedBy(s, below)
    ensures SortedBy(InsertBy(x, s, below), below)
  {
    if s != [] {
      var r := InsertBy(x, s, below);
      if below(s[0], x) {
        forall j | 0 < j < |r| ensures !below(x, r[j]) {
          assert r[j] == s[j - 1];
          assert !below(x, s[0]);
        }
      } else {
        var t := InsertBy(x, s[1..], below);
        InsertBySorted(x, s[1..], below, key);
        InsertByPermutes(x, s[1..], below);
        forall j | 0 <= j < |t| ensures !below(s[0], t[j]) {
          assert t[j] in multiset(t);
          assert t[j] == x || t[j] in s[1..];
        }
        assert r == [s[0]] + t;
      }
    }
  }

  lemma {:induction false} SortBySorted<T(!new)>(s: seq<T>, below: (T, T) -> bool, key: T -> real)
    requires RanksByKey(below, key)
    ensures SortedBy(SortBy(s, below), below)
  {
    if s != [] {
      SortBySorted(s[..|s| - 1], below, key);
      InsertBySorted(s[|s| - 1], SortBy(s[..|s| - 1], below), below, key);
    }
  }

  /** When a sorted sequence's head ranks below `x`, every element of it does. */
  lemma {:induction false} AllRankBelow<T(!new)>(x: T, s: seq<T>, below: (T, T) -> bool, key: T -> real)
    requires RanksByKey(below, key)
    requires SortedBy(s, below)
    requires s != [] && below(s[0], x)
    ensures forall y :: y in s ==> below(y, x)
  {
    forall y | y in s ensures below(y, x) {
      var j :| 0 <= j < |s| && s[j] == y;
      if j > 0 {
        assert !below(s[0], y);
      }
    }
  }

  /** Nothing that ranks below `x` is equivalent to a key `x` is equivalent to. */
  lemma {:induction false} NoneTiedWith<T(!new)>(x: T, s: seq<T>, k: T, below: (T, T) -> bool, key: T -> real)
    requires RanksByKey(below, key)
    requires Equivalent(x, k, below)
    requires forall y :: y in s ==> below(y, x)
    ensures TiedWith(s, k, below) == []
  {
    forall y | y in s ensures !Equivalent(y, k, below) {
      assert below(y, x);
    }
    TiedWithNone(s, k, below);
  }

  /** Inserting before a head that ranks below `x`: no element of `s` is tied with `x`'s keys. */
  lemma {:induction false} InsertAheadStable<T(!new)>(x: T, s: seq<T>, k: T, below: (T, T) -> bool, key: T -> real)
    requires RanksByKey(below, key)
    requires SortedBy(s, below)
    requires s != [] && below(s[0], x)
    ensures TiedWith([x] + s, k, below) == TiedWith(s, k, below) + TiedWith([x], k, below)
  {
    TiedWithAppend([x], s, k, below);
    if Equivalent(x, k, below) {
      AllRankBelow(x, s, below, key);
      NoneTiedWith(x, s, k, below, key);
    }
  }

  lemma {:induction false} InsertByStable<T(!new)>(x: T, s: seq<T>, k: T, below: (T, T) -> bool, key: T -> real)
    requires RanksByKey(below, key)
    requires SortedBy(s, below)
    ensures TiedWith(InsertBy(x, s, below), k, below) == TiedWith(s, k, below) + TiedWith([x], k, below)
  {
    if s == [] {
    } else if below(s[0], x) {
      InsertAheadStable(x, s, k, below, key);
    } else {
      assert SortedBy(s[1..], below);
      InsertByStable(x, s[1..], k, below, key);
      InsertBehindStable(x, s, k, below);
    }
  }

  /** Inserting behind the head: the head's tied entries stay in front of the rest. */
  lemma {:induction false} InsertBehindStable<T>(x: T, s: seq<T>, k: T, below: (T, T) -> bool)
    requires s != [] && !below(s[0], x)
    requires TiedWith(InsertBy(x, s[1..], below), k, below)
          == TiedWith(s[1..], k, below) + TiedWith([x], k, below)
    ensures TiedWith(InsertBy(x, s, below), k, below) == TiedWith(s, k, below) + TiedWith([x], k, below)
  {
    var r := InsertBy(x, s, below);
    var front := if Equivalent(s[0], k, below) then [s[0]] else [];
    assert r[0] == s[0] && r[1..] == InsertBy(x, s[1..], below);
    assert TiedWith(r, k, below) == front + TiedWith(r[1..], k, below);
    assert TiedWith(s, k, below) == front + TiedWith(s[1..], k, below);
    var rest, last := TiedWith(s[1..], k, below), TiedWith([x], k, below);
    assert front + (rest + last) == (front + rest) + last;
  }

  lemma {:induction false} SortByStable<T(!new)>(s: seq<T>, k: T, below: (T, T) -> bool, key: T -> real)
    requires RanksByKey(below, key)
    ensures TiedWith(SortBy(s, below), k, below) == TiedWith(s, k, below)
  {
    if s != [] {
      var init, last := s[..|s| - 1], s[|s| - 1];
      SortByStable(init, k, below, key);
      SortBySorted(init, below, key);
      InsertByStable(last, SortBy(init, below), k, below, key);
      TiedWithAppend(init, [last], k, below);
      assert s == init + [last];
    }
  }
}
