/** Reconciliation of overlapping proposals: the method, the value it computes,
    and what that value means. */
module Reconciliation {
  import opened Boxes
  import opened Ordering
  import opened ChangeBoxes
  import opened Clustering
  import opened ConflictFlags

  function MergeMethod(members: nat): string {
    if members > 1 then "cross_tile_consensus" else "single_observation"
  }

  function GroupView(rs: seq<Row>, os: seq<Observation>, g: seq<nat>): View
    requires |rs| == |os| && |g| >= 1 && Below(g, |os|)
  {
    View(rs[g[0]], Pick(os, g), MergeMethod(|g|), false, [])
  }

  function GroupViews(rs: seq<Row>, os: seq<Observation>, groups: seq<seq<nat>>): (r: seq<View>)
    requires |rs| == |os| && Grouped(groups, |os|)
    ensures |r| == |groups|
    ensures forall k :: 0 <= k < |groups| ==> r[k] == GroupView(rs, os, groups[k])
  {
    seq(|groups|, k requires 0 <= k < |groups| => GroupView(rs, os, groups[k]))
  }

  function RowKeys(cs: seq<View>): (r: seq<seq<Cell>>)
    ensures |r| == |cs| && forall k :: 0 <= k < |cs| ==> r[k] == Cells(cs[k].row)
  {
    seq(|cs|, k requires 0 <= k < |cs| => Cells(cs[k].row))
  }

  function SortViews(cs: seq<View>): (r: seq<View>)
    ensures |r| == |cs|
  {
    Pick(cs, SortIndices(RowKeys(cs), |cs|))
  }

  /** The candidates before conflicts are flagged. */
  function Merged(rows: seq<Row>, index: map<string, Window>): seq<View>
    requires AllLocated(rows, index)
  {
    var rs := Ranked(rows, index);
    var os := ObserveAll(rs, index);
    SortViews(GroupViews(rs, os, Greedy(Matches, os, |os|).groups))
  }

  /** The answer, as a function of the proposed rows and the windows. */
  function Reconciled(rows: seq<Row>, index: map<string, Window>): seq<View>
    requires AllLocated(rows, index)
  {
    FlagAll(Opposing, Merged(rows, index))
  }

  // ---- the method ----

  method Reconcile(rows: seq<Row>, windows: seq<Window>) returns (result: seq<Candidate>)
    requires AllLocated(rows, IndexWindows(windows))
    ensures DistinctObjects(result) && forall k :: 0 <= k < |result| ==> fresh(result[k])
    ensures Values(result) == Reconciled(rows, IndexWindows(windows))
  {
    hide Greedy, Matches, Opposing, Observe, FlagAll, SortIndices;
    var index := IndexWindows(windows);
    var observations := ObserveAll(rows, index);
    var order := Order(rows, index);
    RankedContents(rows, index);
    assert Pick(observations, order) == ObserveAll(Ranked(rows, index), index);
    var created := Merge(Matches, rows, observations, order);
    result := SortByRow(created, Values(created));
    FlagConflicts(Opposing, result);
  }

  /** Sorts the objects by their rows; `views` are their values. */
  method SortByRow(created: seq<Candidate>, views: seq<View>) returns (result: seq<Candidate>)
    requires DistinctObjects(created) && Values(created) == views
    ensures DistinctObjects(result) && forall k :: 0 <= k < |result| ==> result[k] in created
    ensures Values(result) == SortViews(views)
  {
    hide SortIndices;
    var keys := seq(|created|, k requires 0 <= k < |created| reads created => Cells(created[k].row));
    assert keys == RowKeys(views);
    var order := SortIndices(keys, |keys|);
    SortIndicesContents(keys, |keys|);
    result := Pick(created, order);
    forall p, q | 0 <= p < q < |result| ensures result[p] != result[q] {
      assert order[p] != order[q];
    }
    assert Values(result) == Pick(views, order);
  }

  /** `taken` holds the indices of exactly the given ranks. */
  predicate Renames(order: seq<nat>, ranks: set<nat>, taken: set<nat>) {
    forall q :: 0 <= q < |order| ==> (order[q] in taken <==> q in ranks)
  }

  method Merge(linked: Linkage, rows: seq<Row>, observations: seq<Observation>, order: seq<nat>)
    returns (result: seq<Candidate>)
    requires |rows| == |observations| == |order| && Below(order, |rows|) && Distinct(order)
    ensures DistinctObjects(result) && forall k :: 0 <= k < |result| ==> fresh(result[k])
    ensures var rs, os := Pick(rows, order), Pick(observations, order);
            Values(result) == GroupViews(rs, os, Greedy(linked, os, |os|).groups)
  {
    hide Consider, Greedy, Members, Renames, GroupViews, Pick, Distinct;
    ghost var rs, os := Pick(rows, order), Pick(observations, order);
    var taken: set<nat> := {};
    result := [];
    ghost var trace := [Progress({}, [])];
    NothingRenamed(order);
    for p := 0 to |order|
      invariant |trace| == p + 1 && trace[0] == Progress({}, [])
      invariant forall k :: 0 <= k <= p ==> Grouped(trace[k].groups, |os|)
      invariant forall k :: 0 <= k < p ==> trace[k + 1] == Consider(linked, os, trace[k], k)
      invariant Renames(order, trace[p].taken, taken)
      invariant DistinctObjects(result) && forall k :: 0 <= k < |result| ==> fresh(result[k])
      invariant Values(result) == GroupViews(rs, os, trace[p].groups)
    {
      taken, result := MergeSeed(linked, rows, observations, order, p, taken, result, trace[p]);
      trace := trace + [Consider(linked, os, trace[p], p)];
    }
    TraceIsGreedy(linked, os, trace);
  }

  lemma {:induction false} NothingRenamed(order: seq<nat>)
    ensures Renames(order, {}, {})
  {}

  method MergeSeed(linked: Linkage, rows: seq<Row>, observations: seq<Observation>, order: seq<nat>, p: nat,
                   taken: set<nat>, before: seq<Candidate>, ghost s: Progress)
    returns (taken': set<nat>, result: seq<Candidate>)
    requires |rows| == |observations| == |order| && Below(order, |rows|) && Distinct(order) && p < |order|
    requires Grouped(s.groups, |order|) && Renames(order, s.taken, taken) && DistinctObjects(before)
    requires Values(before) == GroupViews(Pick(rows, order), Pick(observations, order), s.groups)
    ensures DistinctObjects(result) && forall k :: 0 <= k < |result| ==> result[k] in before || fresh(result[k])
    ensures var s' := Consider(linked, Pick(observations, order), s, p);
            Renames(order, s'.taken, taken') &&
            Values(result) == GroupViews(Pick(rows, order), Pick(observations, order), s'.groups)
  {
    hide Members, GroupViews, Distinct, Renames;
    var seed := order[p];
    TakenRank(order, s.taken, taken, p);
    if seed in taken {
      return taken, before;
    }
    ghost var os := Pick(observations, order);
    var members := TakeMembers(linked, observations, order, taken, p, s.taken);
    ghost var g := Members(linked, os, p, s.taken);
    RenameMore(order, s.taken, taken, g);
    taken' := taken + (set i | i in members);
    assert Pick(observations, members) == Pick(os, g);
    GroupViewsAppend(Pick(rows, order), os, s.groups, g);
    var candidate := new Candidate(rows[seed], Pick(observations, members), MergeMethod(|members|));
    result := before + [candidate];
    assert Values(result) == Values(before) + [candidate.Value()];
  }

  lemma {:induction false} TakenRank(order: seq<nat>, ranks: set<nat>, taken: set<nat>, p: nat)
    requires Renames(order, ranks, taken) && p < |order|
    ensures order[p] in taken <==> p in ranks
  {}

  lemma {:induction false} GroupViewsAppend(rs: seq<Row>, os: seq<Observation>, groups: seq<seq<nat>>, g: seq<nat>)
    requires |rs| == |os| && Grouped(groups, |os|) && |g| >= 1 && Below(g, |os|)
    ensures GroupViews(rs, os, groups + [g]) == GroupViews(rs, os, groups) + [GroupView(rs, os, g)]
  {}

  /** The members that join the seed: one unambiguous match per tile, linked to all before. */
  method TakeMembers(linked: Linkage, observations: seq<Observation>, order: seq<nat>, taken: set<nat>,
                     p: nat, ghost ranks: set<nat>) returns (members: seq<nat>)
    requires |observations| == |order| && Below(order, |order|) && Distinct(order) && p < |order|
    requires Renames(order, ranks, taken)
    ensures members == Pick(order, Members(linked, Pick(observations, order), p, ranks))
  {
    var matches := FindMatches(linked, observations, order, taken, p, ranks);
    ghost var ms := MatchesUpTo(linked, Pick(observations, order), p, ranks, |order|);
    members := JoinMatches(linked, observations, order, p, matches, ms);
  }

  method JoinMatches(linked: Linkage, observations: seq<Observation>, order: seq<nat>, p: nat,
                     matches: seq<nat>, ghost ms: seq<nat>) returns (members: seq<nat>)
    requires |observations| == |order| && Below(order, |order|) && p < |order|
    requires Below(ms, |order|) && matches == Pick(order, ms)
    ensures members == Pick(order, Grow(linked, Pick(observations, order), p, ms, |ms|))
  {
    hide Grow, SameTile, LinkedToAll, Pick;
    ghost var os := Pick(observations, order);
    var byTile := GroupByTile(observations, matches);
    members := [order[p]];
    assert members == Pick(order, Grow(linked, os, p, ms, 0)) by { GrowNext(linked, os, p, ms, 0); }
    for k := 0 to |matches|
      invariant members == Pick(order, Grow(linked, os, p, ms, k))
    {
      var i := matches[k];
      var tile := observations[i].tile;
      GrowRenamed(linked, observations, order, p, ms, k);
      if |byTile[tile]| == 1 && LinkedToAll(linked, observations, members, i) {
        members := members + [i];
      }
    }
  }

  lemma {:induction false} GrowRenamed(linked: Linkage, observations: seq<Observation>, order: seq<nat>,
                                       p: nat, ms: seq<nat>, k: nat)
    requires |observations| == |order| && Below(order, |order|) && Below(ms, |order|) && k < |ms| && p < |order|
    ensures var os, i := Pick(observations, order), order[ms[k]];
            var members := Pick(order, Grow(linked, os, p, ms, k));
            Pick(order, Grow(linked, os, p, ms, k + 1)) ==
              if |SameTile(observations, Pick(order, ms), observations[i].tile)| == 1
                 && LinkedToAll(linked, observations, members, i)
              then members + [i] else members
  {
    var os := Pick(observations, order);
    var g := Grow(linked, os, p, ms, k);
    SameTileRenamed(observations, order, ms, os[ms[k]].tile);
    LinksRenamed(linked, observations, order, g, ms[k]);
    assert Pick(order, g + [ms[k]]) == Pick(order, g) + [order[ms[k]]];
  }

  method FindMatches(linked: Linkage, observations: seq<Observation>, order: seq<nat>, taken: set<nat>,
                     p: nat, ghost ranks: set<nat>) returns (matches: seq<nat>)
    requires |observations| == |order| && Below(order, |order|) && Distinct(order) && p < |order|
    requires Renames(order, ranks, taken)
    ensures Below(matches, |order|)
    ensures matches == Pick(order, MatchesUpTo(linked, Pick(observations, order), p, ranks, |order|))
  {
    hide MatchesUpTo, Pick, Distinct;
    ghost var os := Pick(observations, order);
    var seed := order[p];
    matches := [];
    assert Pick(order, MatchesUpTo(linked, os, p, ranks, 0)) == [] by { NoMatches(linked, os, p, ranks); }
    for q := 0 to |order|
      invariant matches == Pick(order, MatchesUpTo(linked, os, p, ranks, q))
    {
      var i := order[q];
      ghost var ms := MatchesUpTo(linked, os, p, ranks, q);
      MatchesUpToNext(linked, os, p, ranks, q + 1);
      DistinctRanks(order, p, q);
      if i !in taken && i != seed && linked(observations[seed], observations[i]) {
        matches := matches + [i];
        PickNext(order, ms, q);
      }
    }
  }

  lemma {:induction false} NoMatches(linked: Linkage, os: seq<Observation>, p: nat, ranks: set<nat>)
    requires p < |os|
    ensures MatchesUpTo(linked, os, p, ranks, 0) == []
  {}

  lemma {:induction false} DistinctRanks(order: seq<nat>, p: nat, q: nat)
    requires Distinct(order) && p < |order| && q < |order|
    ensures order[p] == order[q] <==> p == q
  {}

  lemma {:induction false} PickNext<T>(items: seq<T>, ms: seq<nat>, q: nat)
    requires Below(ms, |items|) && q < |items|
    ensures Pick(items, ms + [q]) == Pick(items, ms) + [items[q]]
  {}

  method GroupByTile(observations: seq<Observation>, matches: seq<nat>) returns (byTile: map<string, seq<nat>>)
    requires Below(matches, |observations|)
    ensures forall k :: 0 <= k < |matches| ==> observations[matches[k]].tile in byTile
    ensures forall t :: t in byTile ==> byTile[t] == SameTile(observations, matches, t)
  {
    byTile := map[];
    for k := 0 to |matches|
      invariant forall t :: t !in byTile ==> SameTile(observations, matches[..k], t) == []
      invariant forall t :: t in byTile ==> byTile[t] == SameTile(observations, matches[..k], t)
      invariant forall j :: 0 <= j < k ==> observations[matches[j]].tile in byTile
    {
      var i := matches[k];
      var tile := observations[i].tile;
      assert matches[..k + 1][..k] == matches[..k];
      byTile := byTile[tile := (if tile in byTile then byTile[tile] else []) + [i]];
    }
    assert matches[..|matches|] == matches;
  }

  lemma {:induction false} LinksRenamed(linked: Linkage, observations: seq<Observation>, order: seq<nat>,
                                        g: seq<nat>, i: nat)
    requires |observations| == |order| && Below(order, |order|) && Below(g, |order|) && i < |order|
    ensures LinkedToAll(linked, observations, Pick(order, g), order[i])
        <==> LinkedToAll(linked, Pick(observations, order), g, i)
  {}

  lemma {:induction false} RenameMore(order: seq<nat>, ranks: set<nat>, taken: set<nat>, g: seq<nat>)
    requires Distinct(order) && Renames(order, ranks, taken) && Below(g, |order|)
    ensures Renames(order, ranks + Ranks(g), taken + (set i | i in Pick(order, g)))
  {
    forall q | 0 <= q < |order| ensures order[q] in Pick(order, g) <==> q in g {
      if q in g {
        var k :| 0 <= k < |g| && g[k] == q;
        assert Pick(order, g)[k] == order[q];
      }
      if order[q] in Pick(order, g) {
        var k :| 0 <= k < |g| && order[g[k]] == order[q];
      }
    }
  }

  lemma {:induction false} SameTileRenamed(observations: seq<Observation>, order: seq<nat>, ms: seq<nat>, t: string)
    requires |observations| == |order| && Below(order, |order|) && Below(ms, |order|)
    ensures SameTile(observations, Pick(order, ms), t)
         == Pick(order, SameTile(Pick(observations, order), ms, t))
  {
    if ms != [] {
      var rest := ms[..|ms| - 1];
      SameTileRenamed(observations, order, rest, t);
      assert Pick(order, ms)[..|ms| - 1] == Pick(order, rest);
    }
  }
}
