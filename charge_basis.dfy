/**
 * The basis of charge states: every occupancy vector of `d` dots with at
 * most `m` electrons per dot, enumerated as `itertools.product` does
 * (first dot slowest, last dot fastest) and then stably sorted by total
 * occupancy, as `sorted(basis, key=sum)` does.
 */
module ChargeBasis {

  /** sum(x): the total occupancy of a charge state */
  function Total(s: seq<int>): int
  {
    if s == [] then 0 else s[0] + Total(s[1..])
  }

  function Pow(b: nat, e: nat): nat
  {
    if e == 0 then 1 else b * Pow(b, e - 1)
  }

  function Zeros(d: nat): seq<int>
  {
    seq(d, _ => 0)
  }

  /** s is a charge state of d dots with at most m electrons on each */
  predicate IsState(s: seq<int>, d: nat, m: nat)
  {
    |s| == d && forall k :: 0 <= k < |s| ==> 0 <= s[k] <= m
  }

  /** Strict lexicographic order of two states of the same length. */
  predicate LexLess(a: seq<int>, b: seq<int>)
  {
    |a| == |b| && |a| > 0 && (a[0] < b[0] || (a[0] == b[0] && LexLess(a[1..], b[1..])))
  }

  /** The order of the sorted basis: by total first, then by generation order. */
  predicate Before(a: seq<int>, b: seq<int>)
  {
    Total(a) < Total(b) || (Total(a) == Total(b) && LexLess(a, b))
  }

  ghost predicate LexIncreasing(ps: seq<seq<int>>)
  {
    forall i, j :: 0 <= i < j < |ps| ==> LexLess(ps[i], ps[j])
  }

  ghost predicate StrictlyOrdered(ps: seq<seq<int>>)
  {
    forall i, j :: 0 <= i < j < |ps| ==> Before(ps[i], ps[j])
  }

  /** [a] + t for every tail t, in order */
  function Prefix(a: int, ts: seq<seq<int>>): seq<seq<int>>
  {
    seq(|ts|, i requires 0 <= i < |ts| => [a] + ts[i])
  }

  /** Leading digit a, a + 1, ..., m, each followed by every tail in ts */
  function Leading(a: nat, m: nat, ts: seq<seq<int>>): seq<seq<int>>
    decreases m + 1 - a
  {
    if a > m then [] else Prefix(a, ts) + Leading(a + 1, m, ts)
  }

  /** itertools.product(range(m + 1), repeat=d) */
  function Product(d: nat, m: nat): seq<seq<int>>
  {
    if d == 0 then [[]] else Leading(0, m, Product(d - 1, m))
  }

  /**
   * One step of a stable insertion sort by total: s goes after every
   * state whose total is at most Total(s).
   */
  function Insert(s: seq<int>, sorted: seq<seq<int>>): seq<seq<int>>
  {
    if sorted == [] then [s]
    else if Total(s) < Total(sorted[0]) then [s] + sorted
    else [sorted[0]] + Insert(s, sorted[1..])
  }

  /** sorted(ps, key=sum): a stable sort of ps by total occupancy */
  function SortByTotal(ps: seq<seq<int>>): seq<seq<int>>
  {
    if ps == [] then [] else Insert(ps[|ps| - 1], SortByTotal(ps[..|ps| - 1]))
  }

  /** The basis built by makebasis. */
  function Basis(d: nat, m: nat): seq<seq<int>>
  {
    SortByTotal(Product(d, m))
  }

  /** np.sum(basis, axis=1) */
  function Totals(b: seq<seq<int>>): seq<int>
  {
    seq(|b|, i requires 0 <= i < |b| => Total(b[i]))
  }

  // ---------------------------------------------------------------------
  // The product enumeration

  lemma {:induction false} LeadingLength(a: nat, m: nat, ts: seq<seq<int>>)
    requires a <= m + 1
    ensures |Leading(a, m, ts)| == (m + 1 - a) * |ts|
    decreases m + 1 - a
  {
    if a <= m {
      LeadingLength(a + 1, m, ts);
    }
  }

  /** There are (m + 1)^d states in the product. */
  lemma {:induction false} ProductLength(d: nat, m: nat)
    ensures |Product(d, m)| == Pow(m + 1, d)
  {
    if d > 0 {
      ProductLength(d - 1, m);
      LeadingLength(0, m, Product(d - 1, m));
    }
  }

  lemma {:induction false} LeadingStates(a: nat, m: nat, d: nat, ts: seq<seq<int>>)
    requires forall t :: t in ts ==> IsState(t, d, m)
    ensures forall x :: x in Leading(a, m, ts) ==> IsState(x, d + 1, m) && x[0] >= a
    decreases m + 1 - a
  {
    if a <= m {
      LeadingStates(a + 1, m, d, ts);
      forall x | x in Prefix(a, ts)
        ensures IsState(x, d + 1, m) && x[0] >= a
      {
        var i :| 0 <= i < |ts| && x == Prefix(a, ts)[i];
        assert ts[i] in ts;
      }
    }
  }

  /** Every enumerated state has d entries, each in 0..m. */
  lemma {:induction false} ProductStates(d: nat, m: nat)
    ensures forall x :: x in Product(d, m) ==> IsState(x, d, m)
  {
    if d > 0 {
      ProductStates(d - 1, m);
      LeadingStates(0, m, d - 1, Product(d - 1, m));
    }
  }

  lemma {:induction false} LeadingContains(a: nat, m: nat, ts: seq<seq<int>>, s: seq<int>)
    requires |s| > 0 && a <= s[0] <= m && s[1..] in ts
    ensures s in Leading(a, m, ts)
    decreases m + 1 - a
  {
    if s[0] == a {
      var i :| 0 <= i < |ts| && ts[i] == s[1..];
      assert Prefix(a, ts)[i] == s;
    } else {
      LeadingContains(a + 1, m, ts, s);
    }
  }

  /** Every state with d entries in 0..m is enumerated. */
  lemma {:induction false} ProductComplete(d: nat, m: nat, s: seq<int>)
    requires IsState(s, d, m)
    ensures s in Product(d, m)
  {
    if d > 0 {
      ProductComplete(d - 1, m, s[1..]);
      LeadingContains(0, m, Product(d - 1, m), s);
    }
  }

  lemma {:induction false} LeadingLexIncreasing(a: nat, m: nat, d: nat, ts: seq<seq<int>>)
    requires LexIncreasing(ts)
    requires forall t :: t in ts ==> IsState(t, d, m)
    ensures LexIncreasing(Leading(a, m, ts))
    decreases m + 1 - a
  {
    if a <= m {
      LeadingLexIncreasing(a + 1, m, d, ts);
      LeadingStates(a + 1, m, d, ts);
      var p, rest := Prefix(a, ts), Leading(a + 1, m, ts);
      var all := p + rest;
      forall i, j | 0 <= i < j < |all|
        ensures LexLess(all[i], all[j])
      {
        if j < |p| {
          assert all[i] == [a] + ts[i] && all[j] == [a] + ts[j];
          assert all[i][1..] == ts[i] && all[j][1..] == ts[j];
        } else if i < |p| {
          assert all[j] == rest[j - |p|];
          assert rest[j - |p|] in rest;
          assert ts[i] in ts;
        } else {
          assert all[i] == rest[i - |p|] && all[j] == rest[j - |p|];
        }
      }
    }
  }

  /** The product is generated in strictly increasing lexicographic order. */
  lemma {:induction false} ProductLexIncreasing(d: nat, m: nat)
    ensures LexIncreasing(Product(d, m))
  {
    if d > 0 {
      ProductLexIncreasing(d - 1, m);
      ProductStates(d - 1, m);
      LeadingLexIncreasing(0, m, d - 1, Product(d - 1, m));
    }
  }

  // ---------------------------------------------------------------------
  // The stable sort by total

  lemma {:induction false} InsertPermutes(s: seq<int>, q: seq<seq<int>>)
    ensures multiset(Insert(s, q)) == multiset(q) + multiset{s}
  {
    if q != [] && Total(s) >= Total(q[0]) {
      InsertPermutes(s, q[1..]);
      assert q == [q[0]] + q[1..];
    }
  }

  /** The sort is a permutation of its input. */
  lemma {:induction false} SortPermutes(ps: seq<seq<int>>)
    ensures multiset(SortByTotal(ps)) == multiset(ps)
  {
    if ps != [] {
      var init := ps[..|ps| - 1];
      SortPermutes(init);
      InsertPermutes(ps[|ps| - 1], SortByTotal(init));
      assert ps == init + [ps[|ps| - 1]];
    }
  }

  lemma {:induction false} InsertOrdered(s: seq<int>, q: seq<seq<int>>)
    requires StrictlyOrdered(q)
    requires forall t :: t in q ==> LexLess(t, s)
    ensures StrictlyOrdered(Insert(s, q))
  {
    if q == [] {
    } else if Total(s) < Total(q[0]) {
      var r := [s] + q;
      forall i, j | 0 <= i < j < |r|
        ensures Before(r[i], r[j])
      {
        if i == 0 {
          if j > 1 {
            assert Before(q[0], q[j - 1]);
          }
        } else {
          assert r[i] == q[i - 1] && r[j] == q[j - 1];
        }
      }
    } else {
      var rest := q[1..];
      assert StrictlyOrdered(rest) by {
        forall i, j | 0 <= i < j < |rest|
          ensures Before(rest[i], rest[j])
        {
          assert rest[i] == q[i + 1] && rest[j] == q[j + 1];
        }
      }
      InsertOrdered(s, rest);
      InsertPermutes(s, rest);
      var tail := Insert(s, rest);
      var r := [q[0]] + tail;
      forall i, j | 0 <= i < j < |r|
        ensures Before(r[i], r[j])
      {
        if i == 0 {
          var x := tail[j - 1];
          assert x in multiset(tail);
          if x == s {
            assert LexLess(q[0], s);
          } else {
            assert x in rest;
            var k :| 0 <= k < |rest| && rest[k] == x;
            assert Before(q[0], q[k + 1]);
          }
        } else {
          assert r[i] == tail[i - 1] && r[j] == tail[j - 1];
        }
      }
    }
  }

  /**
   * Sorting a lexicographically increasing sequence by total gives a
   * sequence ordered by total and, among equal totals, still in its
   * original (lexicographic) order: the sort is stable.
   */
  lemma {:induction false} SortOrdered(ps: seq<seq<int>>)
    requires LexIncreasing(ps)
    ensures StrictlyOrdered(SortByTotal(ps))
  {
    if ps != [] {
      var init, last := ps[..|ps| - 1], ps[|ps| - 1];
      assert LexIncreasing(init) by {
        forall i, j | 0 <= i < j < |init|
          ensures LexLess(init[i], init[j])
        {
          assert init[i] == ps[i] && init[j] == ps[j];
        }
      }
      SortOrdered(init);
      SortPermutes(init);
      forall t | t in SortByTotal(init)
        ensures LexLess(t, last)
      {
        assert t in multiset(SortByTotal(init));
        assert t in init;
        var k :| 0 <= k < |init| && init[k] == t;
        assert ps[k] == t;
      }
      InsertOrdered(last, SortByTotal(init));
    }
  }

  // ---------------------------------------------------------------------
  // Totals

  lemma {:induction false} TotalNonnegative(s: seq<int>)
    requires forall k :: 0 <= k < |s| ==> s[k] >= 0
    ensures Total(s) >= 0
    ensures Total(s) == 0 ==> s == Zeros(|s|)
  {
    if s != [] {
      TotalNonnegative(s[1..]);
      if Total(s) == 0 {
        assert s == [s[0]] + s[1..];
      }
    }
  }

  lemma {:induction false} TotalOfZeros(d: nat)
    ensures Total(Zeros(d)) == 0
  {
    if d > 0 {
      TotalOfZeros(d - 1);
      assert Zeros(d)[1..] == Zeros(d - 1);
    }
  }

  lemma {:induction false} LexLessIrreflexive(a: seq<int>)
    ensures !LexLess(a, a)
  {
    if |a| > 0 {
      LexLessIrreflexive(a[1..]);
    }
  }

  // ---------------------------------------------------------------------
  // The basis

  /**
   * The basis holds (m + 1)^d states, each of d entries in 0..m, and every
   * such state occurs in it.
   */
  lemma BasisEnumeratesAllStates(d: nat, m: nat)
    ensures |Basis(d, m)| == Pow(m + 1, d)
    ensures forall x :: x in Basis(d, m) <==> IsState(x, d, m)
  {
    SortPermutes(Product(d, m));
    ProductLength(d, m);
    assert |multiset(Basis(d, m))| == |multiset(Product(d, m))|;
    ProductStates(d, m);
    forall x
      ensures x in Basis(d, m) <==> IsState(x, d, m)
    {
      if IsState(x, d, m) {
        ProductComplete(d, m, x);
      }
      assert x in Basis(d, m) <==> x in multiset(Product(d, m));
    }
  }

  /**
   * Totals never decrease along the basis, states are pairwise distinct,
   * and states with equal total appear in generation (lexicographic) order.
   */
  lemma BasisOrdered(d: nat, m: nat)
    ensures forall i, j :: 0 <= i < j < |Basis(d, m)| ==>
      Total(Basis(d, m)[i]) <= Total(Basis(d, m)[j]) && Basis(d, m)[i] != Basis(d, m)[j]
    ensures forall i, j :: 0 <= i < j < |Basis(d, m)| && Total(Basis(d, m)[i]) == Total(Basis(d, m)[j]) ==>
      LexLess(Basis(d, m)[i], Basis(d, m)[j])
  {
    ProductLexIncreasing(d, m);
    SortOrdered(Product(d, m));
    var b := Basis(d, m);
    forall i, j | 0 <= i < j < |b|
      ensures b[i] != b[j]
    {
      assert Before(b[i], b[j]);
      LexLessIrreflexive(b[i]);
    }
  }

  /** The first basis state is the empty (all-zero) state. */
  lemma BasisStartsEmpty(d: nat, m: nat)
    ensures |Basis(d, m)| > 0 && Basis(d, m)[0] == Zeros(d)
  {
    var b := Basis(d, m);
    BasisEnumeratesAllStates(d, m);
    BasisOrdered(d, m);
    assert IsState(Zeros(d), d, m);
    var j :| 0 <= j < |b| && b[j] == Zeros(d);
    if j > 0 {
      TotalOfZeros(d);
      assert b[0] in b;
      TotalNonnegative(b[0]);
    }
  }
}
