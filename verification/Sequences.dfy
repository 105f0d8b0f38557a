/** Sequences without repetition, and concatenation of many. */
module Sequences {
  ghost predicate IsDistinct<T>(xs: seq<T>) {
    forall i, j :: 0 <= i < j < |xs| ==> xs[i] != xs[j]
  }

  lemma {:induction false} DistinctCounts<T>(xs: seq<T>)
    ensures IsDistinct(xs) <==> forall x :: multiset(xs)[x] <= 1
  {
    if xs != [] {
      var init, last := xs[..|xs| - 1], xs[|xs| - 1];
      DistinctCounts(init);
      assert xs == init + [last];
      assert last in init <==> multiset(init)[last] >= 1;
      assert multiset(xs)[last] == multiset(init)[last] + 1;
      if IsDistinct(xs) {
        assert last !in init;
      }
      if forall x :: multiset(xs)[x] <= 1 {
        assert forall x :: multiset(init)[x] <= multiset(xs)[x];
      }
    }
  }

  lemma PermutationIsDistinct<T>(xs: seq<T>, ys: seq<T>)
    requires multiset(xs) == multiset(ys) && IsDistinct(xs)
    ensures IsDistinct(ys)
  {
    DistinctCounts(xs);
    DistinctCounts(ys);
  }

  function Flatten<T>(xss: seq<seq<T>>): seq<T> {
    if xss == [] then [] else Flatten(xss[..|xss| - 1]) + xss[|xss| - 1]
  }

  lemma FlattenPrefix<T>(xss: seq<seq<T>>, i: nat)
    requires i < |xss|
    ensures Flatten(xss[..i + 1]) == Flatten(xss[..i]) + xss[i]
  {
    assert xss[..i + 1][..i] == xss[..i];
  }

  lemma PrefixCounts<T>(xs: seq<T>, i: nat, x: T)
    requires i < |xs|
    ensures multiset(xs[..i + 1])[x] == multiset(xs[..i])[x] + if xs[i] == x then 1 else 0
  {
    assert xs[..i + 1] == xs[..i] + [xs[i]];
  }

  function Sum(ns: seq<nat>): nat {
    if ns == [] then 0 else Sum(ns[..|ns| - 1]) + ns[|ns| - 1]
  }

  lemma SumOfMore(ns: seq<nat>, n: nat)
    ensures Sum(ns + [n]) == Sum(ns) + n
  {
    assert (ns + [n])[..|ns|] == ns;
  }

  lemma FlattenOfMore<T>(xss: seq<seq<T>>, xs: seq<T>)
    ensures Flatten(xss + [xs]) == Flatten(xss) + xs
  {
    assert (xss + [xs])[..|xss|] == xss;
  }

  lemma {:induction false} FlattenOfNothing<T>(xss: seq<seq<T>>)
    requires forall i :: 0 <= i < |xss| ==> xss[i] == []
    ensures Flatten(xss) == []
  {
    if xss != [] {
      FlattenOfNothing(xss[..|xss| - 1]);
    }
  }

  /** How often the parts have `x`, together. */
  lemma {:induction false} FlattenSum<T>(xss: seq<seq<T>>, x: T, ns: seq<nat>)
    requires |xss| == |ns| && forall i :: 0 <= i < |xss| ==> multiset(xss[i])[x] == ns[i]
    ensures multiset(Flatten(xss))[x] == Sum(ns)
  {
    if xss != [] {
      var init, last := xss[..|xss| - 1], xss[|xss| - 1];
      var before := ns[..|ns| - 1];
      FlattenSum(init, x, before);
      assert xss == init + [last] && ns == before + [ns[|ns| - 1]];
      FlattenOfMore(init, last);
      CountsAdd(Flatten(init), last, x);
      SumOfMore(before, ns[|ns| - 1]);
    }
  }

  lemma {:induction false} SumOfLarger(ns: seq<nat>, r: nat, d: nat)
    requires r < |ns|
    ensures Sum(ns[r := ns[r] + d]) == Sum(ns) + d
  {
    var init, last := ns[..|ns| - 1], ns[|ns| - 1];
    assert ns == init + [last];
    SumOfMore(init, last);
    if r < |init| {
      SumOfLarger(init, r, d);
      assert ns[r := ns[r] + d] == init[r := init[r] + d] + [last];
      SumOfMore(init[r := init[r] + d], last);
    } else {
      assert ns[r := ns[r] + d] == init + [last + d];
      SumOfMore(init, last + d);
    }
  }

  lemma {:induction false} SumOfTwo(ns: seq<nat>, i: nat, j: nat)
    requires i < |ns| && j < |ns|
    ensures Sum(ns) >= ns[i]
    ensures i != j ==> Sum(ns) >= ns[i] + ns[j]
    decreases |ns|
  {
    var last := |ns| - 1;
    if i < last && j < last {
      SumOfTwo(ns[..last], i, j);
    } else if i < last {
      SumOfTwo(ns[..last], i, i);
    } else if j < last {
      SumOfTwo(ns[..last], j, j);
    }
  }

  /** Two of the parts have `x`. */
  ghost predicate IsShared<T>(xss: seq<seq<T>>, x: T) {
    exists i, j :: 0 <= i < j < |xss| && x in xss[i] && x in xss[j]
  }

  lemma SharedByLast<T>(init: seq<seq<T>>, last: seq<T>, x: T)
    ensures IsShared(init + [last], x) <==> IsShared(init, x) || (x in last && x in Flatten(init))
  {
    var all := init + [last];
    FlattenMembers(init, x);
    if IsShared(init, x) {
      var i, j :| 0 <= i < j < |init| && x in init[i] && x in init[j];
      assert all[i] == init[i] && all[j] == init[j];
    }
    if i :| 0 <= i < |init| && x in init[i] && x in last {
      assert all[i] == init[i] && all[|init|] == last;
    }
    if i, j :| 0 <= i < j < |all| && x in all[i] && x in all[j] {
      assert all[i] == init[i];
      assert j < |init| ==> all[j] == init[j];
    }
  }

  /** When no part has `x` twice, the concatenation has it twice exactly when two parts have it. */
  lemma {:induction false} FlattenRepeats<T>(xss: seq<seq<T>>, x: T)
    requires forall i :: 0 <= i < |xss| ==> multiset(xss[i])[x] <= 1
    ensures multiset(Flatten(xss))[x] > 1 <==> IsShared(xss, x)
  {
    if xss != [] {
      var init, last := xss[..|xss| - 1], xss[|xss| - 1];
      FlattenRepeats(init, x);
      SharedByLast(init, last, x);
      assert xss == init + [last];
      CountsAdd(Flatten(init), last, x);
    }
  }

  lemma CountsAdd<T>(a: seq<T>, b: seq<T>, x: T)
    ensures multiset(a + b)[x] == multiset(a)[x] + multiset(b)[x]
    ensures (x in a <==> multiset(a)[x] > 0) && (x in b <==> multiset(b)[x] > 0)
  {
  }

  lemma {:induction false} FlattenMembers<T>(xss: seq<seq<T>>, x: T)
    ensures x in Flatten(xss) <==> exists i :: 0 <= i < |xss| && x in xss[i]
  {
    if xss != [] {
      FlattenMembers(xss[..|xss| - 1], x);
      assert xss == xss[..|xss| - 1] + [xss[|xss| - 1]];
    }
  }
}
