/** What reconciliation promises about its answer, for every input. */
module ReconciliationFacts {
  import opened Boxes
  import opened Ordering
  import opened ChangeBoxes
  import opened Clustering
  import opened ConflictFlags
  import opened Reconciliation

  /** The order in which rows arrive does not matter, duplicates included. */
  lemma {:induction false} OrderIndependent(rows: seq<Row>, rows': seq<Row>, index: map<string, Window>)
    requires AllLocated(rows, index) && AllLocated(rows', index)
    requires multiset(rows) == multiset(rows')
    ensures Reconciled(rows, index) == Reconciled(rows', index)
  {
    RankedUnique(rows, rows', index);
  }

  /** Windows without rows do not matter either. */
  lemma {:induction false} OtherWindowsIrrelevant(rows: seq<Row>, index: map<string, Window>, index': map<string, Window>)
    requires AllLocated(rows, index) && AllLocated(rows, index')
    requires forall k :: 0 <= k < |rows| ==> index[rows[k].tile] == index'[rows[k].tile]
    ensures Reconciled(rows, index) == Reconciled(rows, index')
  {
    assert Keys(rows, index) == Keys(rows, index');
    var order := Order(rows, index);
    assert order == Order(rows, index');
    var rs := Ranked(rows, index);
    forall k | 0 <= k < |rs| ensures Observe(rs[k], index) == Observe(rs[k], index') {
      assert rs[k] == rows[order[k]];
    }
    assert ObserveAll(rs, index) == ObserveAll(rs, index');
  }

  lemma {:induction false} MatchingCrossesTiles()
    ensures CrossTile(Matches)
  {
    forall a: Observation, b: Observation | Matches(a, b) ensures Matches(b, a) && a.tile != b.tile {
      MatchesSymmetric(a, b);
    }
  }

  function RankedObservations(rows: seq<Row>, index: map<string, Window>): (os: seq<Observation>)
    requires AllLocated(rows, index)
    ensures |os| == |rows|
  {
    ObserveAll(Ranked(rows, index), index)
  }

  function Groups(rows: seq<Row>, index: map<string, Window>): (groups: seq<seq<nat>>)
    requires AllLocated(rows, index)
    ensures Grouped(groups, |rows|)
  {
    Greedy(Matches, RankedObservations(rows, index), |rows|).groups
  }

  // ---- partition ----

  lemma {:induction false} FlattenAppend<T>(ss: seq<seq<T>>, s: seq<T>)
    ensures Flatten(ss + [s]) == Flatten(ss) + s
  {
    assert (ss + [s])[..|ss|] == ss;
  }

  lemma {:induction false} FlattenWithout<T>(ss: seq<seq<T>>, k: nat)
    requires k < |ss|
    ensures multiset(Flatten(ss)) == multiset(Flatten(Without(ss, k))) + multiset(ss[k])
  {
    hide Flatten;
    var front, last := ss[..|ss| - 1], ss[|ss| - 1];
    assert ss == front + [last];
    FlattenAppend(front, last);
    if k < |front| {
      FlattenWithout(front, k);
      assert Without(ss, k) == Without(front, k) + [last];
      FlattenAppend(Without(front, k), last);
    } else {
      assert Without(ss, k) == front;
    }
  }

  /** Reordering the parts keeps the whole, counted. */
  lemma {:induction false} FlattenMultiset<T>(a: seq<seq<T>>, b: seq<seq<T>>)
    requires multiset(a) == multiset(b)
    ensures multiset(Flatten(a)) == multiset(Flatten(b))
  {
    if a == [] {
      assert |b| == |multiset(b)| == 0;
    } else {
      assert a[0] in multiset(b);
      var k :| 0 <= k < |b| && b[k] == a[0];
      RemoveAt(a, 0);
      RemoveAt(b, k);
      assert multiset(Without(a, 0)) == multiset(a) - multiset{a[0]};
      assert multiset(Without(b, k)) == multiset(b) - multiset{a[0]};
      FlattenMultiset(Without(a, 0), Without(b, k));
      FlattenWithout(a, 0);
      FlattenWithout(b, k);
    }
  }

  lemma {:induction false} PickAppend<T>(items: seq<T>, p: seq<nat>, q: seq<nat>)
    requires Below(p, |items|) && Below(q, |items|)
    ensures Pick(items, p + q) == Pick(items, p) + Pick(items, q)
  {}

  lemma {:induction false} FlattenPick(os: seq<Observation>, parts: seq<seq<Observation>>, groups: seq<seq<nat>>)
    requires Grouped(groups, |os|) && |parts| == |groups|
    requires forall k :: 0 <= k < |groups| ==> parts[k] == Pick(os, groups[k])
    ensures Below(Flatten(groups), |os|) && Flatten(parts) == Pick(os, Flatten(groups))
  {
    if groups != [] {
      var n := |groups| - 1;
      FlattenPick(os, parts[..n], groups[..n]);
      PickAppend(os, Flatten(groups[..n]), groups[n]);
    }
  }

  lemma {:induction false} EvidenceSorted(cs: seq<View>)
    ensures multiset(Evidence(SortViews(cs))) == multiset(Evidence(cs))
  {
    SortPermutes(Evidence(cs), RowKeys(cs));
    assert Evidence(SortViews(cs)) == Pick(Evidence(cs), SortIndices(RowKeys(cs), |cs|));
  }

  lemma {:induction false} MergedPartition(rows: seq<Row>, index: map<string, Window>)
    requires AllLocated(rows, index)
    ensures multiset(Flatten(Evidence(Merged(rows, index)))) == multiset(ObserveAll(rows, index))
  {
    var rs, os, groups := Ranked(rows, index), RankedObservations(rows, index), Groups(rows, index);
    var views := GroupViews(rs, os, groups);
    EvidenceSorted(views);
    FlattenMultiset(Evidence(SortViews(views)), Evidence(views));
    FlattenPick(os, Evidence(views), groups);
    MatchingCrossesTiles();
    GreedyPartition(Matches, os);
    ImageMultiset(Flatten(groups), Range(|os|), Pick(os, Flatten(groups)), os);
    RankedContents(rows, index);
  }

  lemma {:induction false} MergedUnflagged(rows: seq<Row>, index: map<string, Window>)
    requires AllLocated(rows, index)
    ensures Unflagged(Merged(rows, index))
  {}

  lemma {:induction false} OpposingIsSymmetric()
    ensures Symmetric(Opposing)
  {
    forall a: Observation, b: Observation | Opposing(a, b) ensures Opposing(b, a) { OpposingSymmetric(a, b); }
  }

  lemma {:induction false} FlagsKeepEvidence(rows: seq<Row>, index: map<string, Window>)
    requires AllLocated(rows, index)
    ensures SameEvidence(Merged(rows, index), Reconciled(rows, index))
    ensures Evidence(Reconciled(rows, index)) == Evidence(Merged(rows, index))
  {
    OpposingIsSymmetric();
    MergedUnflagged(rows, index);
    FlagAllSound(Opposing, Merged(rows, index));
    var cs, r := Merged(rows, index), Reconciled(rows, index);
    forall k | 0 <= k < |cs| ensures r[k].observations == cs[k].observations { assert SameAt(cs[k], r[k]); }
  }

  /** No observation is lost, invented or shared: the candidates partition the input. */
  lemma {:induction false} Partition(rows: seq<Row>, index: map<string, Window>)
    requires AllLocated(rows, index)
    ensures multiset(Flatten(Evidence(Reconciled(rows, index)))) == multiset(ObserveAll(rows, index))
  {
    MergedPartition(rows, index);
    FlagsKeepEvidence(rows, index);
  }

  // ---- one candidate ----

  lemma {:induction false} MergedIsGroup(rows: seq<Row>, index: map<string, Window>, c: nat) returns (k: nat)
    requires AllLocated(rows, index) && c < |Merged(rows, index)|
    ensures k < |Groups(rows, index)|
    ensures Merged(rows, index)[c]
         == GroupView(Ranked(rows, index), RankedObservations(rows, index), Groups(rows, index)[k])
  {
    var views := GroupViews(Ranked(rows, index), RankedObservations(rows, index), Groups(rows, index));
    k := SortIndices(RowKeys(views), |views|)[c];
  }

  /** Unclipped first, then larger. */
  predicate Precedes(a: Observation, b: Observation) {
    (a.clipped != [] ==> b.clipped != []) &&
    ((a.clipped == [] <==> b.clipped == []) ==> Area(a.box) >= Area(b.box))
  }

  /** Any two members match in both directions: they come from different tiles, with one
      concept and one kind of change, in boxes that agree. */
  predicate MembersAgree(v: View) {
    forall x, y :: 0 <= x < |v.observations| && 0 <= y < |v.observations| && x != y ==>
      Agree(v.observations[x], v.observations[y])
  }

  /** The row is a proposed one, is observed first, and precedes every member. */
  predicate LedByRow(v: View, rows: seq<Row>, index: map<string, Window>) {
    v.row in rows && Located(v.row, index) &&
    |v.observations| >= 1 && v.observations[0] == Observe(v.row, index) &&
    v.mergeMethod == (if |v.observations| == 1 then "single_observation" else "cross_tile_consensus") &&
    forall x :: 0 < x < |v.observations| ==> Precedes(v.observations[0], v.observations[x])
  }

  lemma {:induction false} LeadingCells(f: bool, x: real, f': bool, x': real, rest: seq<Cell>, rest': seq<Cell>)
    requires !Less([Flag(f'), Num(x')] + rest', [Flag(f), Num(x)] + rest)
    ensures f ==> f'
    ensures f == f' ==> x <= x'
    ensures f == f' && x == x' ==> !Less(rest', rest)
  {
    var a, b := [Flag(f'), Num(x')] + rest', [Flag(f), Num(x)] + rest;
    assert a[1..] == [Num(x')] + rest' && b[1..] == [Num(x)] + rest;
    assert a[1..][1..] == rest' && b[1..][1..] == rest;
  }

  lemma {:induction false} KeyParts(row: Row, index: map<string, Window>)
    requires Located(row, index)
    ensures Observe(row, index).box == row.box
    ensures Key(row, index) == [Flag(Observe(row, index).clipped != []), Num(-Area(row.box))] + Cells(row)
  {}

  /** The processing order: complete observations first, then larger ones, then by row. */
  lemma {:induction false} RankPrecedes(rows: seq<Row>, index: map<string, Window>, p: nat, q: nat)
    requires AllLocated(rows, index) && p < q < |rows|
    ensures var os, rs := RankedObservations(rows, index), Ranked(rows, index);
            os[p] == Observe(rs[p], index) && os[q] == Observe(rs[q], index) && Precedes(os[p], os[q]) &&
            (Precedes(os[q], os[p]) ==> !RowBefore(rs[q], rs[p]))
  {
    hide Less, RowBefore, Area, Observe, Cells, Key, SortIndices;
    RankedContents(rows, index);
    var rs := Ranked(rows, index);
    assert !Less(Keys(rs, index)[q], Keys(rs, index)[p]);
    var a, b := Observe(rs[p], index), Observe(rs[q], index);
    KeyParts(rs[p], index);
    KeyParts(rs[q], index);
    LeadingCells(a.clipped != [], -Area(a.box), b.clipped != [], -Area(b.box), Cells(rs[p]), Cells(rs[q]));
    CellsOrder(rs[q], rs[p]);
  }

  /** Every candidate is an agreeing set of observations led by one of the proposed rows. */
  lemma {:induction false} CandidateFacts(rows: seq<Row>, index: map<string, Window>, c: nat)
    requires AllLocated(rows, index) && c < |Reconciled(rows, index)|
    ensures var v := Reconciled(rows, index)[c]; MembersAgree(v) && LedByRow(v, rows, index)
  {
    hide Reconciled, Merged, MembersAgree, LedByRow;
    FlagsKeepEvidence(rows, index);
    MergedFacts(rows, index, c);
    assert SameAt(Merged(rows, index)[c], Reconciled(rows, index)[c]);
    SameFacts(Merged(rows, index)[c], Reconciled(rows, index)[c], rows, index);
  }

  lemma {:induction false} SameFacts(v: View, w: View, rows: seq<Row>, index: map<string, Window>)
    requires SameAt(v, w) && MembersAgree(v) && LedByRow(v, rows, index)
    ensures MembersAgree(w) && LedByRow(w, rows, index)
  {}

  lemma {:induction false} GroupLinked(rows: seq<Row>, index: map<string, Window>, k: nat)
    requires AllLocated(rows, index) && k < |Groups(rows, index)|
    ensures Increasing(Groups(rows, index)[k])
    ensures CompleteLink(Matches, RankedObservations(rows, index), Groups(rows, index)[k])
  {
    hide Greedy, Matches, Accounted, CompleteLink, CrossTile, Increasing;
    MatchingCrossesTiles();
    GreedyFacts(Matches, RankedObservations(rows, index), |rows|);
  }

  lemma {:induction false} LinkedAgree(rs: seq<Row>, os: seq<Observation>, g: seq<nat>)
    requires |rs| == |os| && |g| >= 1 && Below(g, |os|) && CompleteLink(Matches, os, g)
    ensures MembersAgree(GroupView(rs, os, g))
  {
    hide Matches, Agree;
    forall x, y | 0 <= x < |g| && 0 <= y < |g| && x != y ensures Agree(os[g[x]], os[g[y]]) {
      MatchesExactly(os[g[x]], os[g[y]]);
    }
  }

  lemma {:induction false} GroupLed(rows: seq<Row>, index: map<string, Window>, g: seq<nat>)
    requires AllLocated(rows, index) && |g| >= 1 && Below(g, |rows|) && Increasing(g)
    ensures LedByRow(GroupView(Ranked(rows, index), RankedObservations(rows, index), g), rows, index)
  {
    hide Less, Precedes, SortIndices;
    var rs, os := Ranked(rows, index), RankedObservations(rows, index);
    assert rs[g[0]] == rows[Order(rows, index)[g[0]]];
    assert os[g[0]] == Observe(rs[g[0]], index);
    forall x | 0 < x < |g| ensures Precedes(os[g[0]], os[g[x]]) {
      RankPrecedes(rows, index, g[0], g[x]);
    }
  }

  lemma {:induction false} MergedFacts(rows: seq<Row>, index: map<string, Window>, c: nat)
    requires AllLocated(rows, index) && c < |Merged(rows, index)|
    ensures var v := Merged(rows, index)[c]; MembersAgree(v) && LedByRow(v, rows, index)
  {
    hide Merged, Greedy, MembersAgree, LedByRow, Ranked, CompleteLink, GroupView;
    var k := MergedIsGroup(rows, index, c);
    var g := Groups(rows, index)[k];
    GroupLinked(rows, index, k);
    LinkedAgree(Ranked(rows, index), RankedObservations(rows, index), g);
    GroupLed(rows, index, g);
  }

  // ---- which observations become one candidate ----

  /** Who joins a group: besides its leader, exactly the observations in no group with an
      earlier leader that match the leader, are the only such match in their tile, and
      match every member that ranks before them. */
  lemma {:induction false} JoiningExact(rows: seq<Row>, index: map<string, Window>, h: nat, i: nat)
    requires AllLocated(rows, index) && h < |Groups(rows, index)| && i < |rows|
    ensures var os, groups := RankedObservations(rows, index), Groups(rows, index);
            var g := groups[h];
            var lead := g[0];
            i in g <==>
              i == lead ||
              (Unclaimed(groups, lead, i) && Matches(os[lead], os[i]) &&
               (forall j: nat :: j < |rows| && j != i && j != lead && Unclaimed(groups, lead, j) && Matches(os[lead], os[j])
                                 ==> os[j].tile != os[i].tile) &&
               forall k :: 0 <= k < |g| && g[k] < i ==> Matches(os[i], os[g[k]]))
  {
    hide Matches, Greedy, Arranged, CrossTile, Unclaimed;
    var os, groups := RankedObservations(rows, index), Groups(rows, index);
    MatchingCrossesTiles();
    GreedyObeys(Matches, os, |rows|);
    assert ByRule(Matches, os, groups, h, i);
  }

  function EvidenceOf(os: seq<Observation>, groups: seq<seq<nat>>): (r: seq<seq<Observation>>)
    requires Grouped(groups, |os|)
    ensures |r| == |groups| && forall k :: 0 <= k < |groups| ==> r[k] == Pick(os, groups[k])
  {
    seq(|groups|, k requires 0 <= k < |groups| => Pick(os, groups[k]))
  }

  /** The rule leaves no choice: whatever grouping of the ranked observations obeys it, the
      candidates of the answer hold exactly its groups. */
  lemma {:induction false} AnswerByRule(rows: seq<Row>, index: map<string, Window>, groups: seq<seq<nat>>)
    requires AllLocated(rows, index) && Grouping(Matches, RankedObservations(rows, index), groups)
    ensures groups == Groups(rows, index)
    ensures multiset(Evidence(Reconciled(rows, index))) == multiset(EvidenceOf(RankedObservations(rows, index), groups))
    ensures |Reconciled(rows, index)| == |groups|
  {
    hide Matches, Greedy, Grouping, CrossTile;
    var rs, os := Ranked(rows, index), RankedObservations(rows, index);
    MatchingCrossesTiles();
    GroupingUnique(Matches, os, groups);
    var views := GroupViews(rs, os, groups);
    EvidenceSorted(views);
    assert Evidence(views) == EvidenceOf(os, groups);
    FlagsKeepEvidence(rows, index);
  }

  lemma {:induction false} RankedPair(rows: seq<Row>, index: map<string, Window>, p: nat, q: nat) returns (i: nat, j: nat)
    requires AllLocated(rows, index) && p < |rows| && q < |rows| && p != q
    ensures i < |rows| && j < |rows| && i != j
    ensures RankedObservations(rows, index)[p] == Observe(rows[i], index)
    ensures RankedObservations(rows, index)[q] == Observe(rows[j], index)
  {
    hide Observe;
    RankedContents(rows, index);
    i, j := Order(rows, index)[p], Order(rows, index)[q];
  }

  predicate AllMatch(rows: seq<Row>, index: map<string, Window>)
    requires AllLocated(rows, index)
  {
    forall i, j :: 0 <= i < j < |rows| ==> Matches(Observe(rows[i], index), Observe(rows[j], index))
  }

  lemma {:induction false} OneGroup(os: seq<Observation>)
    requires |os| >= 1 && forall p, q :: 0 <= p < |os| && 0 <= q < |os| && p != q ==> Matches(os[p], os[q])
    ensures Grouping(Matches, os, [Range(|os|)])
  {
    hide Matches;
    var g := Range(|os|);
    var groups: seq<seq<nat>> := [g];
    forall i: nat | i < |os| ensures ByRule(Matches, os, groups, 0, i) && Held(groups, i) {
      assert g[i] == i && groups[0] == g && i in groups[0];
      if i > 0 {
        assert Matches(os[0], os[i]) && Contends(Matches, os, groups, 0, i);
        forall j: nat | j != i && Contends(Matches, os, groups, 0, j) ensures os[j].tile != os[i].tile {
          assert Matches(os[i], os[j]);
          MatchingCrossesTiles();
        }
      }
    }
  }

  /** Sightings that all match each other become one candidate, which holds them all. */
  lemma {:induction false} MatchingBecomeOne(rows: seq<Row>, index: map<string, Window>)
    requires AllLocated(rows, index) && |rows| >= 1 && AllMatch(rows, index)
    ensures |Reconciled(rows, index)| == 1
    ensures multiset(Reconciled(rows, index)[0].observations) == multiset(ObserveAll(rows, index))
    ensures Reconciled(rows, index)[0].mergeMethod == if |rows| == 1 then "single_observation" else "cross_tile_consensus"
  {
    hide Matches, Observe, Grouping, Reconciled, MembersAgree;
    var os := RankedObservations(rows, index);
    forall p, q | 0 <= p < |os| && 0 <= q < |os| && p != q ensures Matches(os[p], os[q]) {
      var i, j := RankedPair(rows, index, p, q);
      MatchesSymmetric(os[p], os[q]);
    }
    OneGroup(os);
    AnswerByRule(rows, index, [Range(|os|)]);
    CandidateFacts(rows, index, 0);
    Partition(rows, index);
    var evidence := Evidence(Reconciled(rows, index));
    assert evidence == [evidence[0]] && evidence[..0] == [];
    assert Flatten(evidence) == evidence[0];
    assert |multiset(evidence[0])| == |multiset(ObserveAll(rows, index))|;
  }

  /** The candidates come in the order of their rows. */
  lemma {:induction false} CandidatesSorted(rows: seq<Row>, index: map<string, Window>, p: nat, q: nat)
    requires AllLocated(rows, index) && p < q < |Reconciled(rows, index)|
    ensures !RowBefore(Reconciled(rows, index)[q].row, Reconciled(rows, index)[p].row)
  {
    hide Greedy, FlagAll, Less, RowBefore, SortIndices;
    var views := GroupViews(Ranked(rows, index), RankedObservations(rows, index), Groups(rows, index));
    var keys, cs := RowKeys(views), Merged(rows, index);
    FlagsKeepEvidence(rows, index);
    SortIndicesSorted(keys, |keys|);
    var sorted := Pick(keys, SortIndices(keys, |keys|));
    assert sorted[p] == Cells(cs[p].row) && sorted[q] == Cells(cs[q].row);
    assert SameAt(cs[p], Reconciled(rows, index)[p]) && SameAt(cs[q], Reconciled(rows, index)[q]);
    CellsOrder(cs[q].row, cs[p].row);
  }

  // ---- conflicts ----

  lemma {:induction false} RawHeld(rows: seq<Row>, index: map<string, Window>, o: Observation)
    requires AllLocated(rows, index)
    ensures o in ObserveAll(rows, index) <==> exists d: nat :: Holds(Merged(rows, index), d, o)
  {
    var cs := Merged(rows, index);
    MergedPartition(rows, index);
    FlattenIn(Evidence(cs), o);
    assert o in ObserveAll(rows, index) <==> o in multiset(Flatten(Evidence(cs)));
    if d: nat :| Holds(cs, d, o) { assert o in Evidence(cs)[d]; }
    if k :| 0 <= k < |cs| && o in Evidence(cs)[k] { assert Holds(cs, k, o); }
  }

  lemma {:induction false} NeverOwn(v: View, a: Observation, o: Observation)
    requires MembersAgree(v) && a in v.observations && Opposing(a, o)
    ensures o !in v.observations
  {
    hide Matches, Opposing, Agree;
    OpposingNeverMatch(a, o);
    var x :| 0 <= x < |v.observations| && v.observations[x] == a;
    forall y | 0 <= y < |v.observations| ensures v.observations[y] != o {
      if y != x { MatchesExactly(v.observations[x], v.observations[y]); }
    }
  }

  /** Conflict flags do not depend on how observations were clustered: a candidate lists
      exactly the raw observations that contradict one of its own, and asks for a review
      exactly when it lists one. */
  lemma {:induction false} ConflictsExact(rows: seq<Row>, index: map<string, Window>, c: nat, o: Observation)
    requires AllLocated(rows, index) && c < |Reconciled(rows, index)|
    ensures var v := Reconciled(rows, index)[c];
            (v.reviewRequired <==> v.conflicting != []) && Distinct(v.conflicting) &&
            (o in v.conflicting <==>
               o in ObserveAll(rows, index) && exists a :: a in v.observations && Contradict(a, o))
  {
    hide Matches, Opposing, Contradict, Merged, FlagAll;
    forall a: Observation ensures Opposing(a, o) <==> Contradict(a, o) { OpposingExactly(a, o); }
    var cs, r := Merged(rows, index), Reconciled(rows, index);
    OpposingIsSymmetric();
    MergedUnflagged(rows, index);
    FlagsExact(Opposing, cs, c, o);
    RawHeld(rows, index, o);
    CandidateFacts(rows, index, c);
    assert Lists(r, c, o) <==> o in r[c].conflicting;
    if o in ObserveAll(rows, index) && exists a :: a in r[c].observations && Opposing(a, o) {
      var a :| a in r[c].observations && Opposing(a, o);
      NeverOwn(r[c], a, o);
      assert Holds(cs, c, a) && !Holds(cs, c, o);
    }
  }
}
