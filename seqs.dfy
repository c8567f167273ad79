/** Sequence helpers that stand for the Python built-ins the learner calls:
    `list.count`, `set(...)` enumeration, `list.remove`, `max` and `list.index`. */
module Seqs {

  /** No element occurs twice. */
  predicate NoDup<T(==)>(s: seq<T>) {
    forall i, j :: 0 <= i < j < |s| ==> s[i] != s[j]
  }

  /** `s.count(x)`: the number of occurrences of x in s. */
  function Count<T(==)>(s: seq<T>, x: T): (r: nat)
    ensures r <= |s|
    ensures r > 0 <==> x in s
  {
    if s == [] then 0
    else Count(s[..|s| - 1], x) + (if s[|s| - 1] == x then 1 else 0)
  }

  /** `s.count(x)` is the multiplicity of x in s. */
  lemma {:induction false} CountMultiset<T>(s: seq<T>, x: T)
    ensures Count(s, x) == multiset(s)[x]
  {
    if s != [] {
      var n := |s|;
      assert s == s[..n - 1] + [s[n - 1]];
      CountMultiset(s[..n - 1], x);
    }
  }

  /** The distinct elements of s in order of first occurrence: the fixed enumeration
      this model uses for iteration over a Python `set`. */
  function Distinct<T(==,!new)>(s: seq<T>): (r: seq<T>)
    ensures NoDup(r)
    ensures forall x :: x in r <==> x in s
  {
    if s == [] then []
    else
      var d := Distinct(s[..|s| - 1]);
      if s[|s| - 1] in d then d else d + [s[|s| - 1]]
  }

  /** `s.remove(x)`: drops the first occurrence of x. Python raises ValueError when x is
      absent; the learner only removes an element it has just taken from the list. */
  function RemoveFirst<T(==)>(s: seq<T>, x: T): (r: seq<T>)
    requires x in s
    ensures |r| == |s| - 1
    ensures multiset(r) + multiset{x} == multiset(s)
    ensures forall y :: y in r ==> y in s
  {
    assert s == [s[0]] + s[1..];
    if s[0] == x then s[1..]
    else [s[0]] + RemoveFirst(s[1..], x)
  }

  /** `s.remove(x)` deletes the element at `s.index(x)` and keeps the others in order. */
  lemma {:induction false} RemoveFirstAt<T>(s: seq<T>, x: T)
    requires x in s
    ensures RemoveFirst(s, x) == s[..IndexOf(s, x)] + s[IndexOf(s, x) + 1..]
  {
    if s[0] != x {
      var t := s[1..];
      assert x in t by { assert s == [s[0]] + t; }
      RemoveFirstAt(t, x);
      var k := IndexOf(t, x);
      assert IndexOf(s, x) == k + 1;
      calc {
        RemoveFirst(s, x);
        [s[0]] + RemoveFirst(t, x);
        [s[0]] + (t[..k] + t[k + 1..]);
        ([s[0]] + t[..k]) + t[k + 1..];
        { assert [s[0]] + t[..k] == s[..k + 1]; assert t[k + 1..] == s[k + 2..]; }
        s[..k + 1] + s[k + 2..];
      }
    }
  }

  /** `max(s)` over a non-empty list of reals. */
  function Max(s: seq<real>): (m: real)
    requires |s| > 0
    ensures m in s
    ensures forall i :: 0 <= i < |s| ==> s[i] <= m
  {
    if |s| == 1 then s[0]
    else
      var m' := Max(s[..|s| - 1]);
      assert forall i :: 0 <= i < |s| - 1 ==> s[..|s| - 1][i] == s[i];
      if s[|s| - 1] > m' then s[|s| - 1] else m'
  }

  /** `s.index(x)`: the position of the first occurrence of x. */
  function IndexOf<T(==)>(s: seq<T>, x: T): (i: nat)
    requires x in s
    ensures i < |s| && s[i] == x
    ensures forall j :: 0 <= j < i ==> s[j] != x
  {
    if s[0] == x then 0 else 1 + IndexOf(s[1..], x)
  }

  /** Concatenation of a sequence of sequences. */
  function Flatten<T>(xss: seq<seq<T>>): seq<T> {
    if xss == [] then [] else Flatten(xss[..|xss| - 1]) + xss[|xss| - 1]
  }

  lemma {:induction false} FlattenAppend<T>(xss: seq<seq<T>>, ys: seq<T>)
    ensures Flatten(xss + [ys]) == Flatten(xss) + ys
  {
    assert (xss + [ys])[..|xss|] == xss;
  }

  /** Sum of a sequence of naturals. */
  function Sum(ns: seq<nat>): nat {
    if ns == [] then 0 else Sum(ns[..|ns| - 1]) + ns[|ns| - 1]
  }

  /** A duplicate-free sequence holds each of its elements exactly once. */
  lemma {:induction false} CountNoDup<T>(s: seq<T>, x: T)
    requires NoDup(s) && x in s
    ensures Count(s, x) == 1
  {
    var n := |s|;
    var init := s[..n - 1];
    assert NoDup(init);
    if s[n - 1] == x {
      assert x !in init by {
        forall i | 0 <= i < n - 1 ensures init[i] != x { assert s[i] != s[n - 1]; }
      }
    } else {
      assert x in init by { var k :| 0 <= k < n && s[k] == x; assert init[k] == x; }
      CountNoDup(init, x);
    }
  }

  /** The sum, over an enumeration `values`, of the number of occurrences in `s`. */
  function CountAll<T(==)>(values: seq<T>, s: seq<T>): nat {
    if values == [] then 0
    else CountAll(values[..|values| - 1], s) + Count(s, values[|values| - 1])
  }

  lemma {:induction false} CountAllSnoc<T>(values: seq<T>, s: seq<T>, x: T)
    ensures CountAll(values, s + [x]) == CountAll(values, s) + Count(values, x)
  {
    if values != [] {
      var n := |values|;
      assert (s + [x])[..|s|] == s;
      CountAllSnoc(values[..n - 1], s, x);
    }
  }

  /** Counting every element of a duplicate-free enumeration that covers s accounts for
      each position of s exactly once. */
  lemma {:induction false} CountAllCovers<T>(values: seq<T>, s: seq<T>)
    requires NoDup(values)
    requires forall x :: x in s ==> x in values
    ensures CountAll(values, s) == |s|
  {
    if s == [] {
      CountAllEmpty(values, s);
    } else {
      var n := |s|;
      var init := s[..n - 1];
      assert s == init + [s[n - 1]];
      assert forall x :: x in init ==> x in s;
      CountAllCovers(values, init);
      CountAllSnoc(values, init, s[n - 1]);
      CountNoDup(values, s[n - 1]);
    }
  }

  lemma {:induction false} CountAllEmpty<T>(values: seq<T>, s: seq<T>)
    requires s == []
    ensures CountAll(values, s) == 0
  {
    if values != [] { CountAllEmpty(values[..|values| - 1], s); }
  }

  /** The elements of a duplicate-free sequence each have multiplicity one. */
  lemma {:induction false} NoDupMultiset<T(!new)>(s: seq<T>)
    ensures NoDup(s) <==> forall x :: multiset(s)[x] <= 1
  {
    if s != [] {
      var n := |s|;
      var init := s[..n - 1];
      assert s == init + [s[n - 1]];
      NoDupMultiset(init);
      if NoDup(s) {
        assert NoDup(init);
        assert s[n - 1] !in init by {
          forall i | 0 <= i < n - 1 ensures init[i] != s[n - 1] { assert s[i] != s[n - 1]; }
        }
      }
      if forall x :: multiset(s)[x] <= 1 {
        assert forall x :: multiset(init)[x] <= 1 by {
          forall x ensures multiset(init)[x] <= 1 { assert multiset(s)[x] == multiset(init)[x] + multiset([s[n - 1]])[x]; }
        }
        assert multiset(s)[s[n - 1]] == multiset(init)[s[n - 1]] + 1;
        assert s[n - 1] !in init;
        forall i, j | 0 <= i < j < n ensures s[i] != s[j] {
          if j < n - 1 { assert init[i] == s[i] && init[j] == s[j]; }
          else { assert init[i] == s[i]; }
        }
      }
    }
  }

  /** A sequence whose multiset of elements is included in that of a duplicate-free sequence
      is duplicate-free, and not longer. */
  lemma NoDupSub<T(!new)>(small: seq<T>, big: seq<T>)
    requires NoDup(big)
    requires multiset(small) <= multiset(big)
    ensures NoDup(small) && |small| <= |big|
  {
    NoDupMultiset(big);
    NoDupMultiset(small);
    assert |multiset(small)| <= |multiset(big)| by { SubsetCard(multiset(small), multiset(big)); }
  }

  lemma SubsetCard<T>(a: multiset<T>, b: multiset<T>)
    requires a <= b
    ensures |a| <= |b|
  {
    assert b == a + (b - a);
  }

  /** `len(set(s)) == 1` holds exactly when s is non-empty and all its elements are equal. */
  lemma SingleDistinct<T(!new)>(s: seq<T>)
    ensures |Distinct(s)| == 1 <==> |s| > 0 && forall i :: 0 <= i < |s| ==> s[i] == s[0]
  {
    var d := Distinct(s);
    if |d| == 1 {
      forall i | 0 <= i < |s| ensures s[i] == d[0] { assert s[i] in d; }
    }
    if |s| > 0 && forall i :: 0 <= i < |s| ==> s[i] == s[0] {
      assert s[0] in d;
      forall y | y in d ensures y == s[0] {
        assert y in s;
        var k :| 0 <= k < |s| && s[k] == y;
      }
    }
  }

  /** The length of a concatenation is the sum of the lengths. */
  lemma {:induction false} FlattenLength<T>(xss: seq<seq<T>>, ns: seq<nat>)
    requires |xss| == |ns|
    requires forall i :: 0 <= i < |xss| ==> |xss[i]| == ns[i]
    ensures |Flatten(xss)| == Sum(ns)
  {
    if xss != [] {
      var n := |xss|;
      FlattenLength(xss[..n - 1], ns[..n - 1]);
    }
  }
}
