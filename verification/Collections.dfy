/** Options, results and the little finite-set arithmetic the index proofs need. */
module Collections {

  datatype Option<+T> = None | Some(value: T)

  datatype Result<+T, +E> = Success(value: T) | Failure(error: E)

  // ---------------------------------------------------------------- sums over sets

  ghost function SumOver<T(!new)>(s: set<T>, f: T -> int): int {
    if s == {} then 0 else var x :| x in s; f(x) + SumOver(s - {x}, f)
  }

  /** The sum does not depend on which element is taken out first. */
  lemma {:induction false} SumTakeOut<T(!new)>(s: set<T>, f: T -> int, x: T)
    requires x in s
    ensures SumOver(s, f) == f(x) + SumOver(s - {x}, f)
    decreases s
  {
    var y :| y in s && SumOver(s, f) == f(y) + SumOver(s - {y}, f);
    if y != x {
      SumTakeOut(s - {y}, f, x);
      SumTakeOut(s - {x}, f, y);
      assert s - {y} - {x} == s - {x} - {y};
    }
  }

  lemma SumAdd<T(!new)>(s: set<T>, f: T -> int, x: T)
    requires x !in s
    ensures SumOver(s + {x}, f) == f(x) + SumOver(s, f)
  {
    SumTakeOut(s + {x}, f, x);
    assert s + {x} - {x} == s;
  }

  lemma {:induction false} SumCongruent<T(!new)>(s: set<T>, f: T -> int, g: T -> int)
    requires forall x :: x in s ==> f(x) == g(x)
    ensures SumOver(s, f) == SumOver(s, g)
    decreases s
  {
    if s != {} {
      var x :| x in s;
      SumTakeOut(s, f, x);
      SumTakeOut(s, g, x);
      SumCongruent(s - {x}, f, g);
    }
  }

  lemma {:induction false} SumMonotone<T(!new)>(s: set<T>, f: T -> int, g: T -> int)
    requires forall x :: x in s ==> f(x) <= g(x)
    ensures SumOver(s, f) <= SumOver(s, g)
    decreases s
  {
    if s != {} {
      var x :| x in s;
      SumTakeOut(s, f, x);
      SumTakeOut(s, g, x);
      SumMonotone(s - {x}, f, g);
    }
  }

  lemma OneMore(a: int, n: nat)
    ensures a * (n + 1) == a * n + a
  {
  }

  lemma {:induction false} SumBetween<T(!new)>(s: set<T>, f: T -> int, low: int, high: int)
    requires forall x :: x in s ==> low <= f(x) <= high
    ensures low * |s| <= SumOver(s, f) <= high * |s|
    decreases s
  {
    if s != {} {
      var x :| x in s;
      SumTakeOut(s, f, x);
      SumBetween(s - {x}, f, low, high);
      OneMore(low, |s - {x}|);
      OneMore(high, |s - {x}|);
      assert |s| == |s - {x}| + 1;
    }
  }

  lemma {:induction false} SumUnion<T(!new)>(s: set<T>, t: set<T>, f: T -> int)
    requires s !! t
    ensures SumOver(s + t, f) == SumOver(s, f) + SumOver(t, f)
    decreases t
  {
    if t == {} {
      assert s + t == s;
    } else {
      var x :| x in t;
      SumTakeOut(t, f, x);
      SumTakeOut(s + t, f, x);
      assert s + t - {x} == s + (t - {x});
      SumUnion(s, t - {x}, f);
    }
  }

  /** Summing along a one-to-one onto map. */
  lemma {:induction false} SumReindex<A(!new), B(!new)>(s: set<A>, t: set<B>, g: A -> B, f: B -> int, h: A -> int)
    requires forall x :: x in s ==> g(x) in t && h(x) == f(g(x))
    requires forall y :: y in t ==> exists x :: x in s && g(x) == y
    requires forall x, y :: x in s && y in s && g(x) == g(y) ==> x == y
    ensures SumOver(s, h) == SumOver(t, f)
    decreases s
  {
    if s == {} {
      assert t == {};
    } else {
      var x :| x in s;
      SumTakeOut(s, h, x);
      SumTakeOut(t, f, g(x));
      SumReindex(s - {x}, t - {g(x)}, g, f, h);
    }
  }

  /** The multiplicities of a multiset add up to its size. */
  lemma {:induction false} MultiplicitiesAddUp<T(!new)>(m: multiset<T>, support: set<T>)
    requires forall x :: x in m ==> x in support
    ensures SumOver(support, x => m[x]) == |m|
    decreases support
  {
    var count := x => m[x];
    if support == {} {
      assert m == multiset{};
    } else {
      var x :| x in support;
      var rest := m[x := 0];
      var restCount := y => rest[y];
      SumTakeOut(support, count, x);
      MultiplicitiesAddUp(rest, support - {x});
      SumCongruent(support - {x}, count, restCount);
      assert |rest| == |m| - m[x];
    }
  }

  ghost function Fibre<K, L(!new)>(keys: set<K>, tag: K -> L, l: L): set<K> {
    set k | k in keys && tag(k) == l
  }

  /** Grouping: the sizes of the fibres of a tagging add up to the size of the set. */
  lemma {:induction false} FibresAddUp<K(!new), L(!new)>(keys: set<K>, tag: K -> L, tags: set<L>, size: L -> int)
    requires forall k :: k in keys ==> tag(k) in tags
    requires forall l :: l in tags ==> size(l) == |Fibre(keys, tag, l)|
    ensures SumOver(tags, size) == |keys|
    decreases tags
  {
    if tags == {} {
      assert keys == {};
    } else {
      var l :| l in tags;
      var rest := keys - Fibre(keys, tag, l);
      forall m | m in tags - {l}
        ensures size(m) == |Fibre(rest, tag, m)|
      {
        assert Fibre(keys, tag, m) == Fibre(rest, tag, m);
      }
      SumTakeOut(tags, size, l);
      FibresAddUp(rest, tag, tags - {l}, size);
    }
  }

  /** A map between sets that is onto and one-to-one preserves size. */
  lemma {:induction false} BijectionPreservesSize<A(!new), B(!new)>(s: set<A>, t: set<B>, f: A -> B)
    requires forall x :: x in s ==> f(x) in t
    requires forall y :: y in t ==> exists x :: x in s && f(x) == y
    requires forall x, y :: x in s && y in s && f(x) == f(y) ==> x == y
    ensures |s| == |t|
    decreases s
  {
    if s == {} {
      assert t == {};
    } else {
      var x :| x in s;
      BijectionPreservesSize(s - {x}, t - {f(x)}, f);
    }
  }

  lemma SubsetSize<T>(s: set<T>, t: set<T>)
    requires s <= t
    ensures |s| <= |t|
    ensures |s| == |t| ==> s == t
  {
    assert t == s + (t - s);
  }

  // ---------------------------------------------------------------- sequences

  function Sum(s: seq<int>): int {
    if s == [] then 0 else s[|s| - 1] + Sum(s[..|s| - 1])
  }

  lemma SumSnoc(s: seq<int>, x: int)
    ensures Sum(s + [x]) == Sum(s) + x
  {
    assert (s + [x])[..|s|] == s;
  }

  lemma Position<T>(s: seq<T>, x: T) returns (i: nat)
    requires x in s
    ensures i < |s| && s[i] == x
  {
    i :| 0 <= i < |s| && s[i] == x;
  }

  lemma HasElement<T>(s: seq<T>)
    ensures s != [] ==> exists x :: x in s
  {
    if s != [] { assert s[0] in s; }
  }

  function Elements<T>(s: seq<T>): set<T> {
    set x | x in s
  }

  ghost predicate Distinct<T>(s: seq<T>) {
    forall i, j :: 0 <= i < j < |s| ==> s[i] != s[j]
  }

  lemma PrefixSnoc<T>(s: seq<T>, i: nat)
    requires i < |s|
    ensures s[..i + 1] == s[..i] + [s[i]]
  {
  }

  lemma ElementsSnoc<T>(s: seq<T>, i: nat)
    requires i < |s|
    ensures Elements(s[..i + 1]) == Elements(s[..i]) + {s[i]}
    ensures Distinct(s) ==> s[i] !in s[..i]
  {
    assert s[..i + 1] == s[..i] + [s[i]];
  }

  lemma {:induction false} DistinctSize<T>(s: seq<T>)
    requires Distinct(s)
    ensures |Elements(s)| == |s|
  {
    if s == [] {
      assert Elements(s) == {};
    } else {
      var i := |s| - 1;
      ElementsSnoc(s, i);
      assert s[..i + 1] == s;
      DistinctSize(s[..i]);
    }
  }

  /** A sequence with as many elements as positions repeats none. */
  lemma {:induction false} FullSizeIsDistinct<T>(s: seq<T>)
    ensures |Elements(s)| <= |s|
    ensures |Elements(s)| == |s| ==> Distinct(s)
  {
    if s == [] {
      assert Elements(s) == {};
    } else {
      var n := |s| - 1;
      FullSizeIsDistinct(s[..n]);
      assert s == s[..n] + [s[n]];
      assert Elements(s) == Elements(s[..n]) + {s[n]};
      if s[n] in Elements(s[..n]) { assert Elements(s) == Elements(s[..n]); }
    }
  }

  /** Where in a sequence a test holds. */
  ghost function PlacesWhere<T>(s: seq<T>, test: T -> bool): set<nat> {
    set i: nat | i < |s| && test(s[i])
  }

  lemma PlacesWhereSnoc<T>(s: seq<T>, test: T -> bool)
    requires s != []
    ensures var n := |s| - 1; |PlacesWhere(s, test)| == |PlacesWhere(s[..n], test)| + if test(s[n]) then 1 else 0
  {
    var n := |s| - 1;
    assert PlacesWhere(s, test) == PlacesWhere(s[..n], test) + (if test(s[n]) then {n} else {});
  }

  // ---------------------------------------------------------------- ORDER BY id

  ghost function Pick<T>(s: set<T>): (x: T)
    requires s != {}
    ensures x in s
  {
    var x :| x in s; x
  }

  predicate IsLeast(s: set<int>, m: int) {
    m in s && forall x :: x in s ==> m <= x
  }

  lemma {:induction false} HasMinimum(s: set<int>)
    requires s != {}
    ensures exists m :: IsLeast(s, m)
    decreases s
  {
    var x := Pick(s);
    var rest := s - {x};
    if rest == {} {
      assert s == {x};
      assert IsLeast(s, x);
    } else {
      HasMinimum(rest);
      var m :| IsLeast(rest, m);
      assert s == rest + {x};
      assert IsLeast(s, if x <= m then x else m);
    }
  }

  /** The ids of a set in ascending order. */
  method Ascending(s: set<int>) returns (ids: seq<int>)
    ensures Elements(ids) == s
    ensures forall i, j :: 0 <= i < j < |ids| ==> ids[i] < ids[j]
  {
    ids := [];
    var rest := s;
    while rest != {}
      invariant Elements(ids) + rest == s
      invariant forall x, y :: x in ids && y in rest ==> x < y
      invariant forall i, j :: 0 <= i < j < |ids| ==> ids[i] < ids[j]
      decreases rest
    {
      HasMinimum(rest);
      var m :| m in rest && IsLeast(rest, m);
      assert Elements(ids + [m]) == Elements(ids) + {m};
      assert forall i :: 0 <= i < |ids| ==> ids[i] in ids;
      ids, rest := ids + [m], rest - {m};
    }
  }

  /** The members of a set in some order. */
  method Listing<T(==)>(s: set<T>) returns (xs: seq<T>)
    ensures Elements(xs) == s && Distinct(xs)
  {
    xs := [];
    var rest := s;
    while rest != {}
      invariant Elements(xs) + rest == s && Elements(xs) !! rest
      invariant Distinct(xs)
      decreases rest
    {
      var x :| x in rest;
      assert Elements(xs + [x]) == Elements(xs) + {x};
      assert forall i :: 0 <= i < |xs| ==> xs[i] in Elements(xs);
      xs, rest := xs + [x], rest - {x};
    }
  }
}
