/** Dividing an integer budget among the visible sites of a map. */
module SiteBudgets {

  function Shown(visible: seq<bool>, n: nat): nat
    requires n <= |visible|
  {
    if n == 0 then 0 else Shown(visible, n - 1) + if visible[n - 1] then 1 else 0
  }

  function Sum(shares: seq<int>): int {
    if shares == [] then 0 else Sum(shares[..|shares| - 1]) + shares[|shares| - 1]
  }

  function Floor(budget: int, sites: nat): int
    requires sites >= 1
  {
    budget / sites
  }

  function Ceiling(budget: int, sites: nat): int
    requires sites >= 1
  {
    -(-budget / sites)
  }

  /** How many sites get no extra unit: they come first. */
  function Plain(budget: int, sites: nat): (n: nat)
    requires sites >= 1
    ensures n <= sites
  {
    sites - budget % sites
  }

  /** What is left after `k` of the visible sites were served. */
  function LeftAfter(budget: int, sites: nat, k: nat): int
    requires sites >= 1 && k <= sites
  {
    var extra := if k < Plain(budget, sites) then 0 else k - Plain(budget, sites);
    budget - k * Floor(budget, sites) - extra
  }

  lemma {:induction false} AtLeast(x: int, r: int)
    requires x >= 1 && r > 0
    ensures x * r >= r
  {}

  lemma {:induction false} SameQuotient(a: int, q: int, r: int, m: int, m': int)
    requires r > 0 && a * r + m == q * r + m' && 0 <= m < r && 0 <= m' < r
    ensures a == q
  {
    assert (a - q) * r == m' - m && (q - a) * r == m - m';
    if a > q { AtLeast(a - q, r); }
    if a < q { AtLeast(q - a, r); }
  }

  lemma {:induction false} Quotient(l: int, r: int, q: int, m: int)
    requires r > 0 && l == q * r + m && 0 <= m < r
    ensures l / r == q
  {
    SameQuotient(l / r, q, r, l % r, m);
  }

  /** Each share is the floor for the first sites and one more for the rest. */
  lemma {:induction false} ShareAt(budget: int, sites: nat, k: nat)
    requires sites >= 1 && k < sites
    ensures var share := LeftAfter(budget, sites, k) / (sites - k);
            share == Floor(budget, sites) + (if k < Plain(budget, sites) then 0 else 1) &&
            LeftAfter(budget, sites, k + 1) == LeftAfter(budget, sites, k) - share
  {
    var q, m := budget / sites, budget % sites;
    assert budget == q * sites + m;
    assert q * sites - k * q == q * (sites - k);
    assert (k + 1) * q == k * q + q;
    if k < Plain(budget, sites) {
      Quotient(LeftAfter(budget, sites, k), sites - k, q, m);
    } else {
      assert q * (sites - k) + (sites - k) == (q + 1) * (sites - k);
      Quotient(LeftAfter(budget, sites, k), sites - k, q + 1, 0);
    }
  }

  lemma {:induction false} CeilingIsNext(budget: int, sites: nat)
    requires sites >= 1
    ensures Ceiling(budget, sites) == Floor(budget, sites) + if budget % sites == 0 then 0 else 1
  {
    var q, m := budget / sites, budget % sites;
    assert budget == q * sites + m;
    if m == 0 {
      Quotient(-budget, sites, -q, 0);
    } else {
      assert (-q - 1) * sites == -q * sites - sites;
      Quotient(-budget, sites, -q - 1, sites - m);
    }
  }

  lemma {:induction false} NothingLeft(budget: int, sites: nat)
    requires sites >= 1
    ensures LeftAfter(budget, sites, 0) == budget && LeftAfter(budget, sites, sites) == 0
  {
    assert budget == budget / sites * sites + budget % sites;
  }

  lemma {:induction false} ShownMonotone(visible: seq<bool>, i: nat, n: nat)
    requires i <= n <= |visible|
    ensures Shown(visible, i) <= Shown(visible, n)
  {
    if i < n { ShownMonotone(visible, i, n - 1); }
  }

  lemma {:induction false} ShownNext(visible: seq<bool>, i: nat)
    ensures Shown(visible, 0) == 0
    ensures i < |visible| ==> Shown(visible, i + 1) == Shown(visible, i) + if visible[i] then 1 else 0
  {}

  lemma {:induction false} SumNext(shares: seq<int>, share: int)
    ensures Sum([]) == 0 && Sum(shares + [share]) == Sum(shares) + share
  {
    assert (shares + [share])[..|shares|] == shares;
  }

  method Count(visible: seq<bool>) returns (count: nat)
    ensures count == Shown(visible, |visible|)
  {
    count := 0;
    for k := 0 to |visible|
      invariant count == Shown(visible, k)
    {
      if visible[k] { count := count + 1; }
    }
  }

  /** The fair share of the visible site number `k`. */
  function FairShare(budget: int, sites: nat, k: nat): int
    requires sites >= 1
  {
    Floor(budget, sites) + if k < Plain(budget, sites) then 0 else 1
  }

  method Divide(visible: seq<bool>, budget: int) returns (shares: seq<int>)
    ensures |shares| == |visible|
    ensures forall i :: 0 <= i < |visible| && !visible[i] ==> shares[i] == 0
    ensures forall i :: 0 <= i < |visible| && visible[i] ==>
              var n := Shown(visible, |visible|);
              n >= 1 && shares[i] == FairShare(budget, n, Shown(visible, i))
    ensures Sum(shares) == if Shown(visible, |visible|) >= 1 then budget else 0
  {
    hide FairShare, LeftAfter, Floor, Plain, Shown, Sum;
    var count := Count(visible);
    var left, remaining := budget, count;
    shares := [];
    SumNext([], 0);
    ShownNext(visible, 0);
    if count >= 1 { NothingLeft(budget, count); }
    for i := 0 to |visible|
      invariant |shares| == i && remaining == count - Shown(visible, i)
      invariant forall j :: 0 <= j < i && !visible[j] ==> shares[j] == 0
      invariant forall j :: 0 <= j < i && visible[j] ==>
                  count >= 1 && shares[j] == FairShare(budget, count, Shown(visible, j))
      invariant Shown(visible, i) <= count
      invariant Sum(shares) == budget - left
      invariant if count >= 1 then left == LeftAfter(budget, count, Shown(visible, i)) else left == budget
    {
      ShownMonotone(visible, i + 1, |visible|);
      ShownNext(visible, i);
      var share := 0;
      if visible[i] {
        ShareIsFair(budget, count, Shown(visible, i));
        share := left / remaining;
        remaining := remaining - 1;
        left := left - share;
      }
      SumNext(shares, share);
      shares := shares + [share];
    }
  }

  lemma {:induction false} ShareIsFair(budget: int, sites: nat, k: nat)
    requires sites >= 1 && k < sites
    ensures LeftAfter(budget, sites, k) / (sites - k) == FairShare(budget, sites, k)
    ensures LeftAfter(budget, sites, k + 1) == LeftAfter(budget, sites, k) - FairShare(budget, sites, k)
  {
    hide LeftAfter, Floor, Plain;
    ShareAt(budget, sites, k);
  }

  /** A fair share is the floor or the ceiling of the budget over the sites, and exactly
      as many sites as the division leaves over get the larger one. */
  lemma {:induction false} FairShareBounds(budget: int, sites: nat, k: nat)
    requires sites >= 1 && k < sites
    ensures FairShare(budget, sites, k) == Floor(budget, sites) || FairShare(budget, sites, k) == Ceiling(budget, sites)
    ensures FairShare(budget, sites, k) != Floor(budget, sites) <==> k >= sites - budget % sites
  {
    CeilingIsNext(budget, sites);
  }
}
