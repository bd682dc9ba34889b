/** Option and the sequence helpers every other module shares. */
module Basics {

  datatype Option<+T> = None | Some(value: T)

  /** No element of s occurs twice. */
  predicate NoDuplicates<T(==)>(s: seq<T>) {
    forall i, j :: 0 <= i < j < |s| ==> s[i] != s[j]
  }

  /** Index of the first occurrence of x in s. */
  function FirstIndex<T(==)>(s: seq<T>, x: T): (k: nat)
    requires x in s
    ensures k < |s| && s[k] == x && x !in s[..k]
  {
    if s[0] == x then 0 else
      assert x in s[1..];
      var k := 1 + FirstIndex(s[1..], x);
      assert s[..k] == [s[0]] + s[1..][..k - 1];
      k
  }

  /** The distinct elements of s, each kept at its first occurrence: the order of the keys of a
      Python dict filled while traversing s, and of pandas' Series.unique(). */
  function Dedupe<T(==,!new)>(s: seq<T>): (r: seq<T>)
    ensures NoDuplicates(r)
    ensures forall x :: x in r <==> x in s
    decreases |s|
  {
    if s == [] then []
    else
      var p := Dedupe(s[..|s| - 1]);
      var x := s[|s| - 1];
      assert forall y :: y in s <==> y in s[..|s| - 1] || y == x by {
        assert s == s[..|s| - 1] + [x];
      }
      if x in p then p else p + [x]
  }

  lemma FirstIndexOfPrefix<T>(s: seq<T>, x: T, y: T)
    requires y in s
    ensures FirstIndex(s + [x], y) == FirstIndex(s, y)
  {
    var k := FirstIndex(s, y);
    var k' := FirstIndex(s + [x], y);
    assert (s + [x])[k] == y;
    assert k' <= k;
    assert (s + [x])[..k'] == s[..k'];
  }

  /** Dedupe keeps elements in the order of their first occurrence. */
  lemma {:induction false} DedupeFirstSeenOrder<T(!new)>(s: seq<T>)
    ensures forall i, j :: 0 <= i < j < |Dedupe(s)| ==>
      FirstIndex(s, Dedupe(s)[i]) < FirstIndex(s, Dedupe(s)[j])
  {
    if s != [] {
      var t, x := s[..|s| - 1], s[|s| - 1];
      assert s == t + [x];
      DedupeFirstSeenOrder(t);
      var p := Dedupe(t);
      forall y | y in p ensures FirstIndex(s, y) == FirstIndex(t, y) && FirstIndex(t, y) < |t| {
        FirstIndexOfPrefix(t, x, y);
      }
      if x !in p {
        assert x !in t;
        assert FirstIndex(s, x) == |t|;
      }
    }
  }

  lemma {:induction false} NoDuplicatesCardinality<T>(s: seq<T>)
    requires NoDuplicates(s)
    ensures |set x | x in s| == |s|
  {
    if s != [] {
      var t := s[..|s| - 1];
      var x := s[|s| - 1];
      assert s == t + [x];
      NoDuplicatesCardinality(t);
      assert x !in t;
      assert (set y | y in s) == (set y | y in t) + {x};
    }
  }

  /** The length of Dedupe(s) is the number of distinct elements of s. */
  lemma DedupeLength<T(!new)>(s: seq<T>)
    ensures |Dedupe(s)| == |set x | x in s|
  {
    NoDuplicatesCardinality(Dedupe(s));
    assert (set x | x in Dedupe(s)) == (set x | x in s);
  }

  lemma DedupeAppend<T(!new)>(s: seq<T>, x: T)
    ensures Dedupe(s + [x]) == if x in Dedupe(s) then Dedupe(s) else Dedupe(s) + [x]
  {
    assert (s + [x])[..|s|] == s;
  }

  /** A sequence without repetitions holds each element at most once. */
  lemma {:induction false} NoDuplicatesMultiplicity<T>(s: seq<T>, x: T)
    requires NoDuplicates(s)
    ensures multiset(s)[x] <= 1
  {
    if s != [] {
      var t := s[..|s| - 1];
      assert s == t + [s[|s| - 1]];
      NoDuplicatesMultiplicity(t, x);
      if s[|s| - 1] == x {
        assert x !in t;
      }
    }
  }

  /** A rearrangement of a sequence without repetitions has none either. */
  lemma NoDuplicatesPermutation<T>(s: seq<T>, r: seq<T>)
    requires NoDuplicates(s) && multiset(r) == multiset(s)
    ensures NoDuplicates(r)
  {
    forall i, j | 0 <= i < j < |r|
      ensures r[i] != r[j]
    {
      if r[i] == r[j] {
        var x := r[i];
        assert r == r[..j] + [x] + r[j + 1..];
        assert x in r[..j];
        assert multiset(r)[x] >= 2;
        NoDuplicatesMultiplicity(s, x);
      }
    }
  }

  /** Elements of s satisfying p, in order (a Python list comprehension with an if). */
  function Filter<T(!new)>(s: seq<T>, p: T -> bool): (r: seq<T>)
    ensures |r| <= |s|
    ensures forall x :: x in r <==> x in s && p(x)
    decreases |s|
  {
    if s == [] then []
    else
      var t := s[..|s| - 1];
      var x := s[|s| - 1];
      assert forall y :: y in s <==> y in t || y == x by {
        assert s == t + [x];
      }
      if p(x) then Filter(t, p) + [x] else Filter(t, p)
  }

  lemma FilterAppend<T(!new)>(s: seq<T>, x: T, p: T -> bool)
    ensures Filter(s + [x], p) == if p(x) then Filter(s, p) + [x] else Filter(s, p)
  {
    assert (s + [x])[..|s|] == s;
  }

  /** One step of a filtering loop that appends to `acc`. */
  lemma FilterStep<T(!new)>(acc: seq<T>, s: seq<T>, i: nat, p: T -> bool)
    requires i < |s|
    ensures acc + Filter(s[..i + 1], p) ==
      if p(s[i]) then (acc + Filter(s[..i], p)) + [s[i]] else acc + Filter(s[..i], p)
  {
    assert s[..i + 1] == s[..i] + [s[i]];
    FilterAppend(s[..i], s[i], p);
  }

  lemma {:induction false} FilterConcat<T(!new)>(s: seq<T>, t: seq<T>, p: T -> bool)
    ensures Filter(s + t, p) == Filter(s, p) + Filter(t, p)
    decreases |t|
  {
    if t == [] {
      assert s + t == s;
    } else {
      var u, x := t[..|t| - 1], t[|t| - 1];
      var tail := if p(x) then [x] else [];
      calc {
        Filter(s + t, p);
        { assert s + t == (s + u) + [x]; }
        Filter((s + u) + [x], p);
        { FilterAppend(s + u, x, p); }
        Filter(s + u, p) + tail;
        { FilterConcat(s, u, p); }
        (Filter(s, p) + Filter(u, p)) + tail;
        Filter(s, p) + (Filter(u, p) + tail);
        { assert t == u + [x]; FilterAppend(u, x, p); }
        Filter(s, p) + Filter(t, p);
      }
    }
  }

  /** The positions in s of the elements satisfying p, in increasing order. */
  function Positions<T>(s: seq<T>, p: T -> bool): (idx: seq<nat>)
    ensures |idx| <= |s|
    ensures forall j :: 0 <= j < |idx| ==> idx[j] < |s|
  {
    if s == [] then []
    else
      var front := s[..|s| - 1];
      if p(s[|s| - 1]) then Positions(front, p) + [|s| - 1] else Positions(front, p)
  }

  /** The positions are increasing, and a position is listed exactly when its element satisfies p. */
  lemma {:induction false} PositionsExact<T>(s: seq<T>, p: T -> bool)
    ensures forall j, j' :: 0 <= j < j' < |Positions(s, p)| ==> Positions(s, p)[j] < Positions(s, p)[j']
    ensures forall i :: 0 <= i < |s| ==> (p(s[i]) <==> i in Positions(s, p))
  {
    if s != [] {
      var front := s[..|s| - 1];
      PositionsExact(front, p);
      forall i | 0 <= i < |front| ensures p(s[i]) <==> i in Positions(s, p) {
        assert front[i] == s[i];
      }
    }
  }

  /** f applied to every element of s (a list comprehension). */
  function MapSeq<T, U>(s: seq<T>, f: T -> U): (r: seq<U>)
    ensures |r| == |s|
    ensures forall i :: 0 <= i < |s| ==> r[i] == f(s[i])
  {
    seq(|s|, i requires 0 <= i < |s| => f(s[i]))
  }

  lemma MapSeqStep<T, U>(s: seq<T>, f: T -> U, i: nat)
    requires i < |s|
    ensures MapSeq(s[..i + 1], f) == MapSeq(s[..i], f) + [f(s[i])]
  {
    assert forall j :: 0 <= j <= i ==> s[..i + 1][j] == s[j];
  }

  lemma MapSeqConcat<T, U>(a: seq<T>, b: seq<T>, f: T -> U)
    ensures MapSeq(a + b, f) == MapSeq(a, f) + MapSeq(b, f)
  {
  }

  /** f applied to the elements of s that satisfy p, in order. */
  function Select<T, U>(s: seq<T>, p: T -> bool, f: T -> U): seq<U> {
    if s == [] then []
    else
      var front := s[..|s| - 1];
      if p(s[|s| - 1]) then Select(front, p, f) + [f(s[|s| - 1])] else Select(front, p, f)
  }

  lemma SelectStep<T, U>(s: seq<T>, p: T -> bool, f: T -> U, i: nat)
    requires i < |s|
    ensures Select(s[..i + 1], p, f) == if p(s[i]) then Select(s[..i], p, f) + [f(s[i])] else Select(s[..i], p, f)
  {
    assert s[..i + 1][..i] == s[..i];
  }

  /** y is selected exactly when some element satisfying p is mapped to it. */
  lemma {:induction false} SelectMembers<T, U>(s: seq<T>, p: T -> bool, f: T -> U, y: U)
    ensures y in Select(s, p, f) <==> exists x :: x in s && p(x) && f(x) == y
  {
    if s != [] {
      var front, last := s[..|s| - 1], s[|s| - 1];
      SelectMembers(front, p, f, y);
      assert forall x :: x in s <==> x in front || x == last by {
        assert s == front + [last];
      }
    }
  }

  /** The j-th selected value comes from the element at the j-th position satisfying p. */
  lemma {:induction false} SelectPositions<T, U>(s: seq<T>, p: T -> bool, f: T -> U)
    ensures |Select(s, p, f)| == |Positions(s, p)|
    ensures forall j :: 0 <= j < |Positions(s, p)| ==> Select(s, p, f)[j] == f(s[Positions(s, p)[j]])
  {
    if s != [] {
      var front := s[..|s| - 1];
      SelectPositions(front, p, f);
      assert forall i :: 0 <= i < |front| ==> front[i] == s[i];
    }
  }

  /** Sum of the numbers in s. */
  function Sum(s: seq<nat>): nat {
    if s == [] then 0 else Sum(s[..|s| - 1]) + s[|s| - 1]
  }

  /** How often each of `keys` occurs in s. */
  function Multiplicities<T(==)>(keys: seq<T>, s: seq<T>): (m: seq<nat>)
    ensures |m| == |keys|
  {
    seq(|keys|, i requires 0 <= i < |keys| => multiset(s)[keys[i]])
  }

  lemma {:induction false} SumBumpAt(a: seq<nat>, b: seq<nat>, p: nat)
    requires |a| == |b| && p < |a|
    requires b[p] == a[p] + 1
    requires forall i :: 0 <= i < |a| && i != p ==> b[i] == a[i]
    ensures Sum(b) == Sum(a) + 1
  {
    var n := |a| - 1;
    if p == n {
      assert a[..n] == b[..n];
    } else {
      SumBumpAt(a[..n], b[..n], p);
    }
  }

  /** Counting every distinct element of s by its multiplicity counts all of s. */
  lemma {:induction false} DedupeMultiplicitiesSum<T(!new)>(s: seq<T>)
    ensures Sum(Multiplicities(Dedupe(s), s)) == |s|
  {
    if s != [] {
      var t, x := s[..|s| - 1], s[|s| - 1];
      assert s == t + [x];
      DedupeMultiplicitiesSum(t);
      DedupeAppend(t, x);
      if x in Dedupe(t) {
        MultiplicitiesSeen(t, x);
      } else {
        MultiplicitiesNew(t, x);
      }
    }
  }

  /** An element already seen bumps its own count by one. */
  lemma MultiplicitiesSeen<T(!new)>(t: seq<T>, x: T)
    requires x in Dedupe(t)
    ensures Sum(Multiplicities(Dedupe(t), t + [x])) == Sum(Multiplicities(Dedupe(t), t)) + 1
  {
    var d := Dedupe(t);
    var p :| 0 <= p < |d| && d[p] == x;
    SumBumpAt(Multiplicities(d, t), Multiplicities(d, t + [x]), p);
  }

  /** A new element adds a count of one behind the others, which stay as they were. */
  lemma MultiplicitiesNew<T(!new)>(t: seq<T>, x: T)
    requires x !in Dedupe(t)
    ensures Sum(Multiplicities(Dedupe(t) + [x], t + [x])) == Sum(Multiplicities(Dedupe(t), t)) + 1
  {
    var d := Dedupe(t);
    assert x !in t;
    var m := Multiplicities(d + [x], t + [x]);
    assert m[..|d|] == Multiplicities(d, t);
    assert m[|d|] == 1;
  }

  /** Extending a prefix of s by one element, behind a fixed front part. */
  lemma AppendStep<T>(acc: seq<T>, a: seq<T>, b: seq<T>, x: seq<T>)
    requires b == a + x
    ensures acc + b == (acc + a) + x
  {
  }

  lemma PrefixStep<T>(before: seq<T>, s: seq<T>, j: nat)
    requires j < |s|
    ensures before + s[..j + 1] == (before + s[..j]) + [s[j]]
  {
    assert s[..j + 1] == s[..j] + [s[j]];
  }

  /** The concatenation of f(x) for every x of s, in order (a list grown by nested loops). */
  function FlatMap<T, U>(s: seq<T>, f: T -> seq<U>): seq<U> {
    if s == [] then [] else FlatMap(s[..|s| - 1], f) + f(s[|s| - 1])
  }

  lemma FlatMapStep<T, U>(s: seq<T>, f: T -> seq<U>, j: nat)
    requires j < |s|
    ensures FlatMap(s[..j + 1], f) == FlatMap(s[..j], f) + f(s[j])
  {
    assert s[..j + 1][..j] == s[..j];
  }

  /** x is produced exactly when some element of s produces it. */
  lemma {:induction false} FlatMapMembers<T, U>(s: seq<T>, f: T -> seq<U>, x: U)
    ensures x in FlatMap(s, f) <==> exists y :: y in s && x in f(y)
  {
    if s != [] {
      var front, last := s[..|s| - 1], s[|s| - 1];
      FlatMapMembers(front, f, x);
      assert forall y :: y in s <==> y in front || y == last by {
        assert s == front + [last];
      }
    }
  }

  /** The dict filled by `d[k] = v` for each element of s that f maps to some (k, v), in order. */
  function CollectMap<T, K, V>(s: seq<T>, f: T -> Option<(K, V)>): map<K, V> {
    if s == [] then map[]
    else
      var m := CollectMap(s[..|s| - 1], f);
      match f(s[|s| - 1])
      case Some(kv) => m[kv.0 := kv.1]
      case None => m
  }

  lemma CollectMapStep<T, K, V>(s: seq<T>, f: T -> Option<(K, V)>, j: nat)
    requires j < |s|
    ensures CollectMap(s[..j + 1], f) ==
      match f(s[j]) case Some(kv) => CollectMap(s[..j], f)[kv.0 := kv.1] case None => CollectMap(s[..j], f)
  {
    assert s[..j + 1][..j] == s[..j];
  }

  /** A key is present exactly when some element maps to it, and it holds the value of such an
      element. */
  lemma {:induction false} CollectMapMembers<T, K, V>(s: seq<T>, f: T -> Option<(K, V)>, k: K)
    ensures k in CollectMap(s, f) <==> exists i :: 0 <= i < |s| && f(s[i]).Some? && f(s[i]).value.0 == k
    ensures k in CollectMap(s, f) ==>
      exists i :: 0 <= i < |s| && f(s[i]).Some? && f(s[i]).value == (k, CollectMap(s, f)[k])
  {
    if s != [] {
      var n := |s| - 1;
      var front := s[..n];
      CollectMapMembers(front, f, k);
      assert forall i :: 0 <= i < n ==> front[i] == s[i];
      if f(s[n]).Some? && f(s[n]).value.0 == k {
        assert f(s[n]).value == (k, CollectMap(s, f)[k]);
      } else if k in CollectMap(s, f) {
        var i :| 0 <= i < n && f(front[i]).Some? && f(front[i]).value == (k, CollectMap(front, f)[k]);
        assert f(s[i]).value == (k, CollectMap(s, f)[k]);
      }
    }
  }
}
