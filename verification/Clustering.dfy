/** The greedy complete-link clustering, on observations in processing order.
    Positions here are ranks: 0 is the first observation that the loop considers. */
module Clustering {
  import opened Ordering
  import opened ChangeBoxes

  /** The matching relation, a parameter so that the clustering facts hold of any. */
  type Linkage = (Observation, Observation) -> bool

  /** All that the clustering needs of matching: it is symmetric and crosses tiles. */
  ghost predicate CrossTile(linked: Linkage) {
    forall a, b :: linked(a, b) ==> linked(b, a) && a.tile != b.tile
  }

  predicate Increasing(s: seq<nat>) {
    forall p, q :: 0 <= p < q < |s| ==> s[p] < s[q]
  }

  /** Unassigned ranks below `n` that match the seed. */
  function MatchesUpTo(linked: Linkage, os: seq<Observation>, seed: nat, taken: set<nat>, n: nat): (ms: seq<nat>)
    requires seed < |os| && n <= |os|
    ensures Below(ms, n)
  {
    if n == 0 then []
    else
      var ms := MatchesUpTo(linked, os, seed, taken, n - 1);
      if n - 1 !in taken && n - 1 != seed && linked(os[seed], os[n - 1]) then ms + [n - 1] else ms
  }

  /** The entries of `ms` observed in the given tile. */
  function SameTile(os: seq<Observation>, ms: seq<nat>, tile: string): (r: seq<nat>)
    requires Below(ms, |os|)
    ensures Below(r, |os|)
  {
    if ms == [] then []
    else
      var rest, last := ms[..|ms| - 1], ms[|ms| - 1];
      if os[last].tile == tile then SameTile(os, rest, tile) + [last] else SameTile(os, rest, tile)
  }

  /** Complete link: `i` matches every member so far. */
  predicate LinkedToAll(linked: Linkage, os: seq<Observation>, g: seq<nat>, i: nat)
    requires Below(g, |os|) && i < |os|
  {
    forall k :: 0 <= k < |g| ==> linked(os[i], os[g[k]])
  }

  /** Members after the first `n` matches were considered. */
  function Grow(linked: Linkage, os: seq<Observation>, seed: nat, ms: seq<nat>, n: nat): (g: seq<nat>)
    requires seed < |os| && Below(ms, |os|) && n <= |ms|
    ensures |g| >= 1 && g[0] == seed && Below(g, |os|)
  {
    if n == 0 then [seed]
    else
      var g, i := Grow(linked, os, seed, ms, n - 1), ms[n - 1];
      if |SameTile(os, ms, os[i].tile)| == 1 && LinkedToAll(linked, os, g, i) then g + [i] else g
  }

  function Members(linked: Linkage, os: seq<Observation>, seed: nat, taken: set<nat>): (g: seq<nat>)
    requires seed < |os|
    ensures |g| >= 1 && g[0] == seed && Below(g, |os|)
  {
    var ms := MatchesUpTo(linked, os, seed, taken, |os|);
    Grow(linked, os, seed, ms, |ms|)
  }

  function Ranks(g: seq<nat>): set<nat> {
    set p | p in g
  }

  datatype Progress = Progress(taken: set<nat>, groups: seq<seq<nat>>)

  predicate Grouped(groups: seq<seq<nat>>, n: nat) {
    forall k :: 0 <= k < |groups| ==> |groups[k]| >= 1 && Below(groups[k], n)
  }

  /** One iteration: a taken seed is skipped, another becomes a group with its members. */
  function Consider(linked: Linkage, os: seq<Observation>, s: Progress, seed: nat): (s': Progress)
    requires Grouped(s.groups, |os|) && seed < |os|
    ensures Grouped(s'.groups, |os|)
  {
    if seed in s.taken then s
    else
      var g := Members(linked, os, seed, s.taken);
      Progress(s.taken + Ranks(g), s.groups + [g])
  }

  /** The state of the clustering loop after the first `n` seeds. */
  function Greedy(linked: Linkage, os: seq<Observation>, n: nat): (s: Progress)
    requires n <= |os|
    ensures Grouped(s.groups, |os|)
  {
    if n == 0 then Progress({}, []) else Consider(linked, os, Greedy(linked, os, n - 1), n - 1)
  }

  function Flatten<T>(ss: seq<seq<T>>): seq<T> {
    if ss == [] then [] else Flatten(ss[..|ss| - 1]) + ss[|ss| - 1]
  }

  /** A run of the loop that records its states ends in the state of Greedy. */
  lemma {:induction false} TraceIsGreedy(linked: Linkage, os: seq<Observation>, trace: seq<Progress>)
    requires 0 < |trace| <= |os| + 1 && trace[0] == Progress({}, [])
    requires forall k :: 0 <= k < |trace| ==> Grouped(trace[k].groups, |os|)
    requires forall k :: 0 <= k < |trace| - 1 ==> trace[k + 1] == Consider(linked, os, trace[k], k)
    ensures trace[|trace| - 1] == Greedy(linked, os, |trace| - 1)
  {
    if |trace| > 1 {
      var front := trace[..|trace| - 1];
      TraceIsGreedy(linked, os, front);
    }
  }

  // ---- what one group is ----

  lemma {:induction false} MatchesUpToNext(linked: Linkage, os: seq<Observation>, seed: nat, taken: set<nat>, n: nat)
    requires seed < |os| && 0 < n <= |os|
    ensures var ms := MatchesUpTo(linked, os, seed, taken, n - 1);
            MatchesUpTo(linked, os, seed, taken, n) ==
              if n - 1 !in taken && n - 1 != seed && linked(os[seed], os[n - 1]) then ms + [n - 1] else ms
  {}

  lemma {:induction false} MatchesUpToExact(linked: Linkage, os: seq<Observation>, seed: nat, taken: set<nat>, n: nat)
    requires seed < |os| && n <= |os|
    ensures var ms := MatchesUpTo(linked, os, seed, taken, n);
            Increasing(ms) &&
            forall i: nat :: i in ms <==> i < n && i !in taken && i != seed && linked(os[seed], os[i])
  {
    if n > 0 {
      hide MatchesUpTo;
      MatchesUpToExact(linked, os, seed, taken, n - 1);
      MatchesUpToNext(linked, os, seed, taken, n);
      var ms := MatchesUpTo(linked, os, seed, taken, n - 1);
      assert forall i: nat :: i in ms + [n - 1] <==> i in ms || i == n - 1;
    }
  }

  lemma {:induction false} SameTileExact(os: seq<Observation>, ms: seq<nat>, tile: string)
    requires Below(ms, |os|) && Increasing(ms)
    ensures var r := SameTile(os, ms, tile);
            Increasing(r) && forall i: nat :: i in r <==> i in ms && os[i].tile == tile
  {
    if ms != [] {
      var rest, last := ms[..|ms| - 1], ms[|ms| - 1];
      assert ms == rest + [last];
      SameTileExact(os, rest, tile);
      var r := SameTile(os, rest, tile);
      forall k | 0 <= k < |r| ensures r[k] < last {
        assert r[k] in r;
        var m :| 0 <= m < |rest| && rest[m] == r[k];
      }
    }
  }

  /** No other match lies in the same tile. */
  predicate OnlyInTile(os: seq<Observation>, ms: seq<nat>, i: nat)
    requires Below(ms, |os|) && i < |os|
  {
    forall k :: 0 <= k < |ms| && os[ms[k]].tile == os[i].tile ==> ms[k] == i
  }

  lemma {:induction false} SoleMatch(os: seq<Observation>, ms: seq<nat>, i: nat)
    requires Below(ms, |os|) && Increasing(ms) && i in ms && i < |os|
    ensures |SameTile(os, ms, os[i].tile)| == 1 <==> OnlyInTile(os, ms, i)
  {
    var r := SameTile(os, ms, os[i].tile);
    SameTileExact(os, ms, os[i].tile);
    assert i in r;
    if |r| == 1 {
      forall k | 0 <= k < |ms| && os[ms[k]].tile == os[i].tile ensures ms[k] == i {
        assert ms[k] in r;
      }
    } else {
      assert |r| >= 2 && r[0] in r && r[1] in r;
      var j := if r[0] == i then r[1] else r[0];
      var k :| 0 <= k < |ms| && ms[k] == j;
      assert os[ms[k]].tile == os[i].tile && ms[k] != i;
    }
  }

  predicate CompleteLink(linked: Linkage, os: seq<Observation>, g: seq<nat>)
    requires Below(g, |os|)
  {
    forall x, y :: 0 <= x < y < |g| ==>
      linked(os[g[x]], os[g[y]]) && linked(os[g[y]], os[g[x]]) && os[g[x]].tile != os[g[y]].tile
  }

  predicate LinkedToEarlier(linked: Linkage, os: seq<Observation>, g: seq<nat>, i: nat)
    requires Below(g, |os|) && i < |os|
  {
    forall k :: 0 <= k < |g| && g[k] < i ==> linked(os[i], os[g[k]])
  }

  /** Joining is decided by the tile test and by the members that come earlier. */
  predicate JoinsExactly(linked: Linkage, os: seq<Observation>, ms: seq<nat>, g: seq<nat>, i: nat)
    requires Below(ms, |os|) && Below(g, |os|) && i < |os|
  {
    i in g <==> OnlyInTile(os, ms, i) && LinkedToEarlier(linked, os, g, i)
  }

  lemma {:induction false} GrowMembers(linked: Linkage, os: seq<Observation>, seed: nat, ms: seq<nat>, n: nat)
    requires seed < |os| && Below(ms, |os|) && Increasing(ms) && n <= |ms|
    requires forall k :: 0 <= k < |ms| ==> seed < ms[k]
    ensures var g := Grow(linked, os, seed, ms, n);
            Increasing(g) && forall k :: 0 <= k < |g| ==> g[k] == seed || g[k] in ms[..n]
    ensures n < |ms| ==> Below(Grow(linked, os, seed, ms, n), ms[n])
  {
    hide SameTile, LinkedToAll, Grow;
    GrowNext(linked, os, seed, ms, n);
    if n > 0 {
      GrowMembers(linked, os, seed, ms, n - 1);
      assert ms[..n] == ms[..n - 1] + [ms[n - 1]];
    }
  }

  lemma {:induction false} GrowNext(linked: Linkage, os: seq<Observation>, seed: nat, ms: seq<nat>, n: nat)
    requires seed < |os| && Below(ms, |os|) && n <= |ms|
    ensures n == 0 ==> Grow(linked, os, seed, ms, n) == [seed]
    ensures n > 0 ==> var g := Grow(linked, os, seed, ms, n - 1);
                      Grow(linked, os, seed, ms, n) == g || Grow(linked, os, seed, ms, n) == g + [ms[n - 1]]
  {
    hide SameTile, LinkedToAll;
  }

  lemma {:induction false} GrowLinks(linked: Linkage, os: seq<Observation>, seed: nat, ms: seq<nat>, n: nat)
    requires CrossTile(linked)
    requires seed < |os| && Below(ms, |os|) && n <= |ms|
    ensures CompleteLink(linked, os, Grow(linked, os, seed, ms, n))
  {
    if n > 0 {
      GrowLinks(linked, os, seed, ms, n - 1);
      var g, i := Grow(linked, os, seed, ms, n - 1), ms[n - 1];
      if Grow(linked, os, seed, ms, n) == g + [i] && LinkedToAll(linked, os, g, i) {
        assert forall k :: 0 <= k < |g| ==> linked(os[g[k]], os[i]) && os[g[k]].tile != os[i].tile;
      }
    }
  }

  lemma {:induction false} GrowStep(linked: Linkage, os: seq<Observation>, seed: nat, ms: seq<nat>, n: nat)
    requires seed < |os| && Below(ms, |os|) && Increasing(ms) && n < |ms|
    ensures var g, i := Grow(linked, os, seed, ms, n), ms[n];
            Grow(linked, os, seed, ms, n + 1) ==
              if OnlyInTile(os, ms, i) && LinkedToAll(linked, os, g, i)
              then g + [i] else g
  {
    assert ms[n] in ms;
    SoleMatch(os, ms, ms[n]);
  }

  predicate AllJoinExactly(linked: Linkage, os: seq<Observation>, ms: seq<nat>, g: seq<nat>, n: nat)
    requires Below(ms, |os|) && Below(g, |os|) && n <= |ms|
  {
    forall k :: 0 <= k < n ==> JoinsExactly(linked, os, ms, g, ms[k])
  }

  lemma {:induction false} GrowExact(linked: Linkage, os: seq<Observation>, seed: nat, ms: seq<nat>, n: nat)
    requires seed < |os| && Below(ms, |os|) && Increasing(ms) && n <= |ms|
    requires forall k :: 0 <= k < |ms| ==> seed < ms[k]
    ensures AllJoinExactly(linked, os, ms, Grow(linked, os, seed, ms, n), n)
  {
    if n > 0 {
      GrowExact(linked, os, seed, ms, n - 1);
      GrowExactStep(linked, os, seed, ms, n - 1);
    }
  }

  lemma {:induction false} GrowExactStep(linked: Linkage, os: seq<Observation>, seed: nat, ms: seq<nat>, n: nat)
    requires seed < |os| && Below(ms, |os|) && Increasing(ms) && n < |ms|
    requires forall k :: 0 <= k < |ms| ==> seed < ms[k]
    requires AllJoinExactly(linked, os, ms, Grow(linked, os, seed, ms, n), n)
    ensures AllJoinExactly(linked, os, ms, Grow(linked, os, seed, ms, n + 1), n + 1)
  {
    var g := Grow(linked, os, seed, ms, n);
    GrowMembers(linked, os, seed, ms, n);
    GrowStep(linked, os, seed, ms, n);
    if OnlyInTile(os, ms, ms[n]) && LinkedToAll(linked, os, g, ms[n]) {
      JoinNext(linked, os, ms, g, g + [ms[n]], n);
    } else {
      JoinNext(linked, os, ms, g, g, n);
    }
  }

  lemma {:induction false} JoinNext(linked: Linkage, os: seq<Observation>, ms: seq<nat>, g: seq<nat>, g': seq<nat>, n: nat)
    requires Below(ms, |os|) && Below(g, |os|) && Below(g', |os|) && n < |ms| && Increasing(ms)
    requires Below(g, ms[n])
    requires g' == if OnlyInTile(os, ms, ms[n]) && LinkedToAll(linked, os, g, ms[n])
                   then g + [ms[n]] else g
    requires AllJoinExactly(linked, os, ms, g, n)
    ensures AllJoinExactly(linked, os, ms, g', n + 1)
  {
    JoinLast(linked, os, ms, g, g', ms[n]);
    forall k | 0 <= k < n ensures JoinsExactly(linked, os, ms, g', ms[k]) {
      JoinEarlier(linked, os, ms, g, g', ms[n], ms[k]);
    }
  }

  lemma {:induction false} JoinLast(linked: Linkage, os: seq<Observation>, ms: seq<nat>, g: seq<nat>, g': seq<nat>, i: nat)
    requires Below(ms, |os|) && Below(g, |os|) && Below(g', |os|) && i < |os|
    requires Below(g, i)
    requires g' == if OnlyInTile(os, ms, i) && LinkedToAll(linked, os, g, i)
                   then g + [i] else g
    ensures JoinsExactly(linked, os, ms, g', i)
  {
    if g' == g {
      assert i !in g;
    } else {
      assert g'[|g|] == i;
    }
  }

  lemma {:induction false} JoinEarlier(linked: Linkage, os: seq<Observation>, ms: seq<nat>, g: seq<nat>, g': seq<nat>, i: nat, j: nat)
    requires Below(ms, |os|) && Below(g, |os|) && Below(g', |os|) && j < i < |os|
    requires (g' == g || g' == g + [i]) && JoinsExactly(linked, os, ms, g, j)
    ensures JoinsExactly(linked, os, ms, g', j)
  {
    assert forall k :: 0 <= k < |g| ==> g'[k] == g[k];
    assert forall k :: 0 <= k < |g'| && g'[k] < j ==> k < |g|;
    assert LinkedToEarlier(linked, os, g', j) ==> LinkedToEarlier(linked, os, g, j);
    assert j in g' <==> j in g;
  }

  /** What the group taken at `seed` is, when every earlier rank is taken. */
  lemma {:induction false} MembersFacts(linked: Linkage, os: seq<Observation>, seed: nat, taken: set<nat>)
    requires CrossTile(linked)
    requires seed < |os| && forall p: nat :: p < seed ==> p in taken
    requires seed !in taken
    ensures var g := Members(linked, os, seed, taken);
            Increasing(g) && CompleteLink(linked, os, g) && forall k :: 0 <= k < |g| ==> g[k] !in taken
    ensures var g, ms := Members(linked, os, seed, taken), MatchesUpTo(linked, os, seed, taken, |os|);
            forall i: nat :: i < |os| && i !in taken && i != seed && linked(os[seed], os[i])
                             ==> JoinsExactly(linked, os, ms, g, i)
  {
    var ms := MatchesUpTo(linked, os, seed, taken, |os|);
    MatchesUpToExact(linked, os, seed, taken, |os|);
    forall k | 0 <= k < |ms| ensures seed < ms[k] { assert ms[k] in ms; }
    GrowMembers(linked, os, seed, ms, |ms|);
    GrowLinks(linked, os, seed, ms, |ms|);
    GrowExact(linked, os, seed, ms, |ms|);
    var g := Members(linked, os, seed, taken);
    assert ms[..|ms|] == ms;
    forall k | 0 <= k < |g| ensures g[k] !in taken {
      assert g[k] == seed || g[k] in ms;
    }
    forall i: nat | i < |os| && i !in taken && i != seed && linked(os[seed], os[i])
      ensures JoinsExactly(linked, os, ms, g, i)
    {
      assert i in ms;
      var k :| 0 <= k < |ms| && ms[k] == i;
    }
  }

  // ---- what the whole loop does ----

  lemma {:induction false} IncreasingIsSet(g: seq<nat>)
    requires Increasing(g)
    ensures multiset(g) == multiset(Ranks(g))
  {
    forall p: nat ensures multiset(g)[p] == multiset(Ranks(g))[p] { CountOnce(g, p); }
    assert forall p: nat :: multiset(g)[p] == multiset(Ranks(g))[p];
  }

  lemma {:induction false} CountOnce(g: seq<nat>, p: nat)
    requires Increasing(g)
    ensures multiset(g)[p] == if p in g then 1 else 0
  {
    if g != [] {
      var front, last := g[..|g| - 1], g[|g| - 1];
      assert g == front + [last];
      CountOnce(front, p);
    }
  }

  predicate Consistent(linked: Linkage, os: seq<Observation>, groups: seq<seq<nat>>)
    requires Grouped(groups, |os|)
  {
    forall k :: 0 <= k < |groups| ==> Increasing(groups[k]) && CompleteLink(linked, os, groups[k])
  }

  /** The taken ranks are those of the groups, each held once. */
  predicate Accounted(s: Progress, n: nat) {
    multiset(Flatten(s.groups)) == multiset(s.taken) && forall p: nat :: p in s.taken ==> p < n
  }

  lemma {:induction false} TakeGroup(s: Progress, s': Progress, g: seq<nat>, n: nat)
    requires Accounted(s, n) && Increasing(g) && Below(g, n)
    requires forall k :: 0 <= k < |g| ==> g[k] !in s.taken
    requires s' == Progress(s.taken + Ranks(g), s.groups + [g])
    ensures Accounted(s', n)
  {
    IncreasingIsSet(g);
    AddSet(s.taken, Ranks(g));
    assert s'.groups[..|s.groups|] == s.groups;
    forall p: nat | p in s'.taken ensures p < n {
      if p !in s.taken { var k :| 0 <= k < |g| && g[k] == p; }
    }
  }

  lemma {:induction false} AddSet(a: set<nat>, b: set<nat>)
    requires a !! b
    ensures multiset(a + b) == multiset(a) + multiset(b)
  {}

  /** What holds after `n` seeds. */
  predicate Processed(linked: Linkage, os: seq<Observation>, s: Progress, n: nat) {
    Grouped(s.groups, |os|) && Accounted(s, |os|) && Consistent(linked, os, s.groups) &&
    forall p: nat :: p < n ==> p in s.taken
  }

  lemma {:induction false} ProcessSeed(linked: Linkage, os: seq<Observation>, s: Progress, s': Progress, n: nat)
    requires CrossTile(linked) && n < |os| && Processed(linked, os, s, n) && s' == Consider(linked, os, s, n)
    ensures Processed(linked, os, s', n + 1)
  {
    hide Members, Increasing, CompleteLink, Accounted, MatchesUpTo, JoinsExactly, CrossTile;
    if n !in s.taken {
      var g := Members(linked, os, n, s.taken);
      MembersFacts(linked, os, n, s.taken);
      TakeGroup(s, s', g, |os|);
      assert n in g by { assert g[0] == n; }
      assert Consistent(linked, os, s'.groups);
    }
  }

  /** Every rank below `n` is taken, once, and every group is complete-link. */
  lemma {:induction false} GreedyFacts(linked: Linkage, os: seq<Observation>, n: nat)
    requires CrossTile(linked) && n <= |os|
    ensures Processed(linked, os, Greedy(linked, os, n), n)
  {
    hide Consider, CrossTile;
    if n == 0 {
      assert Greedy(linked, os, 0) == Progress({}, []);
      assert Flatten<nat>([]) == [];
    } else {
      GreedyFacts(linked, os, n - 1);
      ProcessSeed(linked, os, Greedy(linked, os, n - 1), Greedy(linked, os, n), n - 1);
    }
  }

  /** Who joins: an unassigned match of the seed becomes a member exactly when no other
      such match shares its tile and it is linked to every member of lower rank. */
  lemma {:induction false} SeedDecides(linked: Linkage, os: seq<Observation>, seed: nat, i: nat)
    requires CrossTile(linked) && seed < |os| && i < |os| && i != seed
    requires var taken := Greedy(linked, os, seed).taken;
             seed !in taken && i !in taken && linked(os[seed], os[i])
    ensures var taken := Greedy(linked, os, seed).taken;
            var g := Members(linked, os, seed, taken);
            i in g <==>
              (forall j: nat :: j < |os| && j !in taken && j != seed && j != i && linked(os[seed], os[j])
                                ==> os[j].tile != os[i].tile) &&
              (forall k :: 0 <= k < |g| && g[k] < i ==> linked(os[i], os[g[k]]))
  {
    var taken := Greedy(linked, os, seed).taken;
    var g, ms := Members(linked, os, seed, taken), MatchesUpTo(linked, os, seed, taken, |os|);
    assert JoinsExactly(linked, os, ms, g, i) by {
      GreedyFacts(linked, os, seed);
      MembersFacts(linked, os, seed, taken);
    }
    MatchesUpToExact(linked, os, seed, taken, |os|);
    AloneExactly(linked, os, seed, taken, ms, i);
  }

  lemma {:induction false} AloneExactly(linked: Linkage, os: seq<Observation>, seed: nat, taken: set<nat>,
                                        ms: seq<nat>, i: nat)
    requires seed < |os| && i < |os| && Below(ms, |os|)
    requires forall j: nat :: j in ms <==> j < |os| && j !in taken && j != seed && linked(os[seed], os[j])
    ensures OnlyInTile(os, ms, i) <==>
            forall j: nat :: j < |os| && j !in taken && j != seed && j != i && linked(os[seed], os[j])
                             ==> os[j].tile != os[i].tile
  {
    if OnlyInTile(os, ms, i) {
      forall j: nat | j < |os| && j !in taken && j != seed && j != i && linked(os[seed], os[j])
        ensures os[j].tile != os[i].tile
      {
        var k :| 0 <= k < |ms| && ms[k] == j;
      }
    }
    assert forall k :: 0 <= k < |ms| ==> ms[k] in ms;
  }

  /** The groups partition the observations. */
  lemma {:induction false} GreedyPartition(linked: Linkage, os: seq<Observation>)
    requires CrossTile(linked)
    ensures var groups := Greedy(linked, os, |os|).groups;
            multiset(Flatten(groups)) == multiset(Range(|os|))
  {
    var s := Greedy(linked, os, |os|);
    GreedyFacts(linked, os, |os|);
    assert Increasing(Range(|os|));
    IncreasingIsSet(Range(|os|));
    assert s.taken == Ranks(Range(|os|)) by {
      forall p: nat ensures p in s.taken <==> p in Range(|os|) {
        if p < |os| { assert Range(|os|)[p] == p; }
      }
    }
  }

  // ---- the rule that the groups obey, without the loop ----

  lemma {:induction false} FlattenIn<T>(ss: seq<seq<T>>, x: T)
    ensures x in Flatten(ss) <==> exists k :: 0 <= k < |ss| && x in ss[k]
  {
    if ss != [] {
      var front, last := ss[..|ss| - 1], ss[|ss| - 1];
      assert ss == front + [last];
      FlattenIn(front, x);
      if x in Flatten(front) {
        var k :| 0 <= k < |front| && x in front[k];
        assert x in ss[k];
      }
      if k :| 0 <= k < |ss| && x in ss[k] {
        assert k < |front| ==> x in front[k];
      }
    }
  }

  /** No group with a smaller leader holds rank `i`. */
  predicate Unclaimed(groups: seq<seq<nat>>, lead: nat, i: nat)
    requires forall h :: 0 <= h < |groups| ==> |groups[h]| >= 1
  {
    forall h :: 0 <= h < |groups| && groups[h][0] < lead ==> i !in groups[h]
  }

  /** Rank `i` is left over for the group of `lead` and linked to that leader. */
  predicate Contends(linked: Linkage, os: seq<Observation>, groups: seq<seq<nat>>, lead: nat, i: nat)
    requires Grouped(groups, |os|) && lead < |os|
  {
    i < |os| && i != lead && Unclaimed(groups, lead, i) && linked(os[lead], os[i])
  }

  /** No other contender was observed in its tile. */
  ghost predicate Alone(linked: Linkage, os: seq<Observation>, groups: seq<seq<nat>>, lead: nat, i: nat)
    requires Grouped(groups, |os|) && lead < |os| && i < |os|
  {
    forall j: nat :: j != i && Contends(linked, os, groups, lead, j) ==> os[j].tile != os[i].tile
  }

  /** A group is its leader and the contenders that are alone in their tile and linked to
      every member that ranks before them. */
  ghost predicate ByRule(linked: Linkage, os: seq<Observation>, groups: seq<seq<nat>>, h: nat, i: nat)
    requires Grouped(groups, |os|) && h < |groups| && i < |os|
  {
    var g := groups[h];
    i in g <==> i == g[0] || (Contends(linked, os, groups, g[0], i) && Alone(linked, os, groups, g[0], i) &&
                              LinkedToEarlier(linked, os, g, i))
  }

  /** Members and leaders come in rank order, and no rank is in two groups. */
  predicate Arranged(groups: seq<seq<nat>>) {
    (forall h :: 0 <= h < |groups| ==> |groups[h]| >= 1 && Increasing(groups[h])) &&
    forall h, h' :: 0 <= h < h' < |groups| ==>
      groups[h][0] < groups[h'][0] && forall k :: 0 <= k < |groups[h]| ==> groups[h][k] !in groups[h']
  }

  predicate Held(groups: seq<seq<nat>>, i: nat) {
    exists h :: 0 <= h < |groups| && i in groups[h]
  }

  ghost predicate AllByRule(linked: Linkage, os: seq<Observation>, groups: seq<seq<nat>>)
    requires Grouped(groups, |os|)
  {
    forall h: nat, i: nat :: h < |groups| && i < |os| ==> ByRule(linked, os, groups, h, i)
  }

  /** A grouping of all the observations in which every group obeys the rule. */
  ghost predicate Grouping(linked: Linkage, os: seq<Observation>, groups: seq<seq<nat>>) {
    Grouped(groups, |os|) && Arranged(groups) && AllByRule(linked, os, groups) &&
    forall i: nat :: i < |os| ==> Held(groups, i)
  }

  /** After the seeds below `n`: the leaders are below `n`, and taken is what groups hold. */
  ghost predicate Obeys(linked: Linkage, os: seq<Observation>, s: Progress, n: nat) {
    Grouped(s.groups, |os|) && Arranged(s.groups) && AllByRule(linked, os, s.groups) &&
    (forall h :: 0 <= h < |s.groups| ==> s.groups[h][0] < n) &&
    forall i: nat :: i in s.taken <==> Held(s.groups, i)
  }

  /** A group with a larger leader changes nothing for the groups before it. */
  lemma {:induction false} RuleStays(linked: Linkage, os: seq<Observation>, groups: seq<seq<nat>>, g: seq<nat>, h: nat, i: nat)
    requires Grouped(groups + [g], |os|) && Grouped(groups, |os|) && h < |groups| && i < |os|
    requires |g| >= 1 && groups[h][0] < g[0] && ByRule(linked, os, groups, h, i)
    ensures ByRule(linked, os, groups + [g], h, i)
  {
    hide LinkedToEarlier;
    var lead := groups[h][0];
    forall j: nat ensures Unclaimed(groups + [g], lead, j) == Unclaimed(groups, lead, j) {
      assert forall m :: 0 <= m < |groups| ==> (groups + [g])[m] == groups[m];
    }
    assert forall j: nat :: Contends(linked, os, groups + [g], lead, j) == Contends(linked, os, groups, lead, j);
    assert Alone(linked, os, groups + [g], lead, i) == Alone(linked, os, groups, lead, i);
  }

  lemma {:induction false} MembersMatch(linked: Linkage, os: seq<Observation>, seed: nat, taken: set<nat>, i: nat)
    requires seed < |os| && i in Members(linked, os, seed, taken) && forall p: nat :: p < seed ==> p in taken
    ensures i == seed || (i < |os| && i !in taken && linked(os[seed], os[i]))
  {
    var ms := MatchesUpTo(linked, os, seed, taken, |os|);
    MatchesUpToExact(linked, os, seed, taken, |os|);
    forall k | 0 <= k < |ms| ensures seed < ms[k] { assert ms[k] in ms; }
    GrowMembers(linked, os, seed, ms, |ms|);
    assert ms[..|ms|] == ms;
  }

  /** The group taken at a seed obeys the rule. */
  lemma {:induction false} NewByRule(linked: Linkage, os: seq<Observation>, s: Progress, seed: nat, i: nat)
    requires CrossTile(linked) && seed < |os| && i < |os| && s == Greedy(linked, os, seed)
    requires Obeys(linked, os, s, seed) && seed !in s.taken && forall p: nat :: p < seed ==> p in s.taken
    ensures ByRule(linked, os, s.groups + [Members(linked, os, seed, s.taken)], |s.groups|, i)
  {
    hide Greedy, Members, CrossTile, Arranged, ByRule;
    var g := Members(linked, os, seed, s.taken);
    var groups := s.groups + [g];
    forall j: nat ensures Unclaimed(groups, seed, j) <==> j !in s.taken {
      assert groups[|s.groups|][0] == seed;
      assert forall m :: 0 <= m < |s.groups| ==> groups[m] == s.groups[m];
    }
    var contends := Contends(linked, os, groups, seed, i);
    if contends { SeedDecides(linked, os, seed, i); }
    if i in g { MembersMatch(linked, os, seed, s.taken, i); }
    assert g[0] == seed && seed in g;
    NewMember(linked, os, groups, |s.groups|, i);
  }

  lemma {:induction false} NewMember(linked: Linkage, os: seq<Observation>, groups: seq<seq<nat>>, h: nat, i: nat)
    requires Grouped(groups, |os|) && h < |groups| && i < |os|
    requires var g := groups[h];
             if i == g[0] then i in g
             else if !Contends(linked, os, groups, g[0], i) then i !in g
             else i in g <==> Alone(linked, os, groups, g[0], i) && LinkedToEarlier(linked, os, g, i)
    ensures ByRule(linked, os, groups, h, i)
  {
    hide Contends, Alone, LinkedToEarlier;
  }

  lemma {:induction false} ObeysNext(linked: Linkage, os: seq<Observation>, n: nat)
    requires CrossTile(linked) && n < |os| && Obeys(linked, os, Greedy(linked, os, n), n)
    ensures Obeys(linked, os, Greedy(linked, os, n + 1), n + 1)
  {
    hide Members, CrossTile, Greedy, Accounted, Consistent, ByRule, Increasing, CompleteLink, Held;
    var s := Greedy(linked, os, n);
    GreedyFacts(linked, os, n);
    GreedyLast(linked, os, n);
    if n !in s.taken {
      var g := Members(linked, os, n, s.taken);
      var s' := Progress(s.taken + Ranks(g), s.groups + [g]);
      MembersFacts(linked, os, n, s.taken);
      forall h: nat, i: nat | h < |s'.groups| && i < |os| ensures ByRule(linked, os, s'.groups, h, i) {
        if h < |s.groups| {
          RuleStays(linked, os, s.groups, g, h, i);
        } else {
          NewByRule(linked, os, s, n, i);
        }
      }
      ArrangeNext(s, g, n);
    }
  }

  lemma {:induction false} GreedyLast(linked: Linkage, os: seq<Observation>, n: nat)
    requires n < |os|
    ensures Greedy(linked, os, n + 1) == Consider(linked, os, Greedy(linked, os, n), n)
  {
    hide Consider;
  }

  lemma {:induction false} ArrangeNext(s: Progress, g: seq<nat>, n: nat)
    requires Arranged(s.groups) && |g| >= 1 && g[0] == n && Increasing(g)
    requires forall h :: 0 <= h < |s.groups| ==> s.groups[h][0] < n
    requires forall i: nat :: i in s.taken <==> Held(s.groups, i)
    requires forall k :: 0 <= k < |g| ==> g[k] !in s.taken
    ensures Arranged(s.groups + [g])
    ensures forall i: nat :: i in s.taken + Ranks(g) <==> Held(s.groups + [g], i)
  {
    hide Increasing;
    var groups := s.groups + [g];
    forall h, k | 0 <= h < |s.groups| && 0 <= k < |groups[h]| ensures groups[h][k] !in g {
      assert groups[h] == s.groups[h] && Held(s.groups, groups[h][k]);
    }
    forall i: nat ensures Held(groups, i) <==> Held(s.groups, i) || i in g {
      if Held(s.groups, i) {
        var h :| 0 <= h < |s.groups| && i in s.groups[h];
        assert i in groups[h];
      }
      if i in g { assert i in groups[|s.groups|]; }
    }
  }

  /** The loop's groups are a grouping by the rule. */
  lemma {:induction false} GreedyObeys(linked: Linkage, os: seq<Observation>, n: nat)
    requires CrossTile(linked) && n <= |os|
    ensures Obeys(linked, os, Greedy(linked, os, n), n)
    ensures n == |os| ==> Grouping(linked, os, Greedy(linked, os, n).groups)
  {
    hide CrossTile, ByRule, Arranged, Consider;
    if n == 0 {
      assert Arranged([]) by { NoneArranged(); }
    } else {
      GreedyObeys(linked, os, n - 1);
      ObeysNext(linked, os, n - 1);
    }
    GreedyFacts(linked, os, n);
  }

  lemma {:induction false} NoneArranged()
    ensures Arranged([])
  {}

  // ---- the rule leaves no choice ----

  lemma {:induction false} IncreasingLast(g: seq<nat>)
    requires Increasing(g) && g != []
    ensures var front, last := g[..|g| - 1], g[|g| - 1];
            Increasing(front) && last in g && (forall i: nat :: i in g ==> i <= last) &&
            forall i: nat :: i in front <==> i in g && i != last
  {
    var front, last := g[..|g| - 1], g[|g| - 1];
    forall i: nat | i in g ensures i <= last {
      var k :| 0 <= k < |g| && g[k] == i;
    }
    assert g == front + [last];
    assert forall k :: 0 <= k < |front| ==> front[k] < last;
  }

  lemma {:induction false} IncreasingEqual(a: seq<nat>, b: seq<nat>)
    requires Increasing(a) && Increasing(b) && forall i: nat :: i in a <==> i in b
    ensures a == b
  {
    hide Increasing;
    assert (a != [] ==> a[0] in a) && (b != [] ==> b[0] in b);
    if a != [] {
      IncreasingLast(a);
      IncreasingLast(b);
      var x, y := a[|a| - 1], b[|b| - 1];
      assert x == y;
      IncreasingEqual(a[..|a| - 1], b[..|b| - 1]);
      assert a == a[..|a| - 1] + [x] && b == b[..|b| - 1] + [y];
    }
  }

  /** A leader is held by none of the groups before its own. */
  lemma {:induction false} LeaderNew(groups: seq<seq<nat>>, h: nat)
    requires Arranged(groups) && h < |groups|
    ensures !Held(groups[..h], groups[h][0])
  {
    hide Increasing;
    assert groups[h][0] in groups[h];
    forall m | 0 <= m < h ensures groups[h][0] !in groups[..h][m] {
      assert groups[..h][m] == groups[m];
      assert forall k :: 0 <= k < |groups[m]| ==> groups[m][k] !in groups[h];
    }
  }

  /** A smaller leader would be a member of no group. */
  lemma {:induction false} LeaderLeast(a: seq<seq<nat>>, b: seq<seq<nat>>, h: nat)
    requires Arranged(a) && Arranged(b) && h < |a| && h < |b| && a[..h] == b[..h] && Held(b, a[h][0])
    ensures a[h][0] >= b[h][0]
  {
    LeaderNew(a, h);
    forall m | 0 <= m < h ensures a[h][0] !in b[m] { assert b[..h][m] == b[m]; }
    var m :| 0 <= m < |b| && a[h][0] in b[m];
    var k :| 0 <= k < |b[m]| && b[m][k] == a[h][0];
    assert b[m][0] <= b[m][k];
  }

  lemma {:induction false} UnclaimedBefore(groups: seq<seq<nat>>, h: nat, i: nat)
    requires Arranged(groups) && h < |groups|
    ensures Unclaimed(groups, groups[h][0], i) <==> forall m :: 0 <= m < h ==> i !in groups[..h][m]
  {
    hide Increasing;
    if Unclaimed(groups, groups[h][0], i) {
      forall m | 0 <= m < h ensures i !in groups[..h][m] { assert groups[..h][m] == groups[m]; }
    } else {
      var m :| 0 <= m < |groups| && groups[m][0] < groups[h][0] && i in groups[m];
      assert m < h && groups[..h][m] == groups[m];
    }
  }

  /** With the same groups before and the same leader, membership is decided rank by rank. */
  lemma {:induction false} MembersEqual(linked: Linkage, os: seq<Observation>, a: seq<seq<nat>>, b: seq<seq<nat>>, h: nat, i: nat)
    requires Grouping(linked, os, a) && Grouping(linked, os, b) && h < |a| && h < |b| && i < |os|
    requires a[..h] == b[..h] && a[h][0] == b[h][0]
    ensures i in a[h] <==> i in b[h]
  {
    hide Increasing;
    var lead := a[h][0];
    forall j: nat ensures Contends(linked, os, a, lead, j) == Contends(linked, os, b, lead, j) {
      UnclaimedBefore(a, h, j);
      UnclaimedBefore(b, h, j);
    }
    assert Alone(linked, os, a, lead, i) == Alone(linked, os, b, lead, i);
    forall j: nat | j < i ensures j in a[h] <==> j in b[h] { MembersEqual(linked, os, a, b, h, j); }
    EarlierEqual(linked, os, a[h], b[h], i);
    assert ByRule(linked, os, a, h, i) && ByRule(linked, os, b, h, i);
  }

  lemma {:induction false} EarlierEqual(linked: Linkage, os: seq<Observation>, g: seq<nat>, g': seq<nat>, i: nat)
    requires Below(g, |os|) && Below(g', |os|) && i < |os| && forall j: nat :: j < i ==> (j in g <==> j in g')
    ensures LinkedToEarlier(linked, os, g, i) == LinkedToEarlier(linked, os, g', i)
  {
    forall k | 0 <= k < |g'| && g'[k] < i && LinkedToEarlier(linked, os, g, i) ensures linked(os[i], os[g'[k]]) {
      assert g'[k] in g';
      var m :| 0 <= m < |g| && g[m] == g'[k];
    }
    forall k | 0 <= k < |g| && g[k] < i && LinkedToEarlier(linked, os, g', i) ensures linked(os[i], os[g[k]]) {
      assert g[k] in g;
      var m :| 0 <= m < |g'| && g'[m] == g[k];
    }
  }

  lemma {:induction false} PrefixUnique(linked: Linkage, os: seq<Observation>, a: seq<seq<nat>>, b: seq<seq<nat>>, h: nat)
    requires Grouping(linked, os, a) && Grouping(linked, os, b) && h <= |a| && h <= |b|
    ensures a[..h] == b[..h]
  {
    hide ByRule, Increasing;
    if h > 0 {
      var n := h - 1;
      PrefixUnique(linked, os, a, b, n);
      LeaderLeast(a, b, n);
      LeaderLeast(b, a, n);
      forall i: nat ensures i in a[n] <==> i in b[n] {
        if i < |os| { MembersEqual(linked, os, a, b, n, i); }
      }
      IncreasingEqual(a[n], b[n]);
      assert a[..h] == a[..n] + [a[n]] && b[..h] == b[..n] + [b[n]];
    }
  }

  /** There is one grouping by the rule: that of the loop. */
  lemma {:induction false} GroupingUnique(linked: Linkage, os: seq<Observation>, groups: seq<seq<nat>>)
    requires CrossTile(linked)
    ensures Grouping(linked, os, groups) <==> groups == Greedy(linked, os, |os|).groups
  {
    hide CrossTile, Greedy, ByRule, Arranged, Held;
    var own := Greedy(linked, os, |os|).groups;
    GreedyObeys(linked, os, |os|);
    if Grouping(linked, os, groups) {
      var n := if |groups| < |own| then |groups| else |own|;
      PrefixUnique(linked, os, groups, own, n);
      assert groups[..n] == own[..n];
      if n < |groups| { LeaderNew(groups, n); }
      if n < |own| { LeaderNew(own, n); }
      LeadersKnown(os, groups, own, n);
      assert (n == |groups| ==> groups[..n] == groups) && (n == |own| ==> own[..n] == own);
    }
  }

  /** A complete grouping holds every leader. */
  lemma {:induction false} LeadersKnown(os: seq<Observation>, a: seq<seq<nat>>, b: seq<seq<nat>>, n: nat)
    requires Grouped(a, |os|) && Grouped(b, |os|) && n <= |a| && n <= |b|
    requires forall i: nat :: i < |os| ==> Held(a, i) && Held(b, i)
    ensures n < |a| ==> Held(b, a[n][0])
    ensures n < |b| ==> Held(a, b[n][0])
  {
    hide Held;
  }
}
