/** Flagging of opposing observations held by different candidates. */
module ConflictFlags {
  import opened ChangeBoxes

  /** The value of a candidate object. */
  datatype View = View(row: Row, observations: seq<Observation>, mergeMethod: string,
                       reviewRequired: bool, conflicting: seq<Observation>)

  class Candidate {
    var row: Row
    var observations: seq<Observation>
    var mergeMethod: string
    var reviewRequired: bool
    var conflicting: seq<Observation>

    constructor (row: Row, observations: seq<Observation>, mergeMethod: string)
      ensures Value() == View(row, observations, mergeMethod, false, [])
    {
      this.row, this.observations, this.mergeMethod := row, observations, mergeMethod;
      reviewRequired, conflicting := false, [];
    }

    function Value(): View
      reads this
    {
      View(row, observations, mergeMethod, reviewRequired, conflicting)
    }

    /** Records one opposing observation, unless it is already listed. */
    method Flag(observation: Observation)
      modifies this
      ensures Value() == Flagged(old(Value()), observation)
      ensures reviewRequired && row == old(row) && observations == old(observations) && mergeMethod == old(mergeMethod)
      ensures conflicting == if observation in old(conflicting) then old(conflicting) else old(conflicting) + [observation]
    {
      reviewRequired := true;
      if observation !in conflicting {
        conflicting := conflicting + [observation];
      }
    }
  }

  function Flagged(c: View, o: Observation): View {
    c.(reviewRequired := true, conflicting := if o in c.conflicting then c.conflicting else c.conflicting + [o])
  }

  function Values(cs: seq<Candidate>): (r: seq<View>)
    reads cs
    ensures |r| == |cs| && forall k :: 0 <= k < |cs| ==> r[k] == cs[k].Value()
  {
    seq(|cs|, k requires 0 <= k < |cs| reads cs => cs[k].Value())
  }

  /** The opposition relation, a parameter so that the flagging facts hold of any. */
  type Relation = (Observation, Observation) -> bool

  predicate SameAt(c: View, d: View) {
    d.row == c.row && d.observations == c.observations && d.mergeMethod == c.mergeMethod
  }

  /** Flags never touch rows, observations or merge methods. */
  predicate SameEvidence(cs: seq<View>, r: seq<View>) {
    |r| == |cs| && forall k :: 0 <= k < |cs| ==> SameAt(cs[k], r[k])
  }

  /** One visit of the innermost loop: observation `a` of candidate `i`, `b` of candidate `j`. */
  datatype Visit = Visit(i: nat, j: nat, a: Observation, b: Observation)

  // ---- the order in which the four nested loops visit pairs ----

  function VisitsAgainst(obs: seq<seq<Observation>>, i: nat, j: nat, a: Observation, n: nat): seq<Visit>
    requires j < |obs| && n <= |obs[j]|
  {
    if n == 0 then [] else VisitsAgainst(obs, i, j, a, n - 1) + [Visit(i, j, a, obs[j][n - 1])]
  }

  function VisitsBetween(obs: seq<seq<Observation>>, i: nat, j: nat, n: nat): seq<Visit>
    requires i < |obs| && j < |obs| && n <= |obs[i]|
  {
    if n == 0 then []
    else VisitsBetween(obs, i, j, n - 1) + VisitsAgainst(obs, i, j, obs[i][n - 1], |obs[j]|)
  }

  function VisitsFrom(obs: seq<seq<Observation>>, i: nat, n: nat): seq<Visit>
    requires i < n <= |obs|
  {
    if n == i + 1 then [] else VisitsFrom(obs, i, n - 1) + VisitsBetween(obs, i, n - 1, |obs[i]|)
  }

  function Visits(obs: seq<seq<Observation>>, n: nat): seq<Visit>
    requires n <= |obs|
  {
    if n == 0 then [] else Visits(obs, n - 1) + VisitsFrom(obs, n - 1, |obs|)
  }

  lemma {:induction false} VisitsFromNext(before: seq<Visit>, obs: seq<seq<Observation>>, i: nat, j: nat)
    requires i < j < |obs|
    ensures before + VisitsFrom(obs, i, j + 1)
         == before + VisitsFrom(obs, i, j) + VisitsBetween(obs, i, j, |obs[i]|)
  {}

  lemma {:induction false} VisitsNext(obs: seq<seq<Observation>>, i: nat)
    requires i < |obs|
    ensures Visits(obs, i + 1) == Visits(obs, i) + VisitsFrom(obs, i, |obs|)
  {}

  // ---- what the visits do ----

  predicate InRange(vs: seq<Visit>, n: nat) {
    forall k :: 0 <= k < |vs| ==> vs[k].i < vs[k].j < n
  }

  function FlagPair(opposes: Relation, cs: seq<View>, v: Visit): (r: seq<View>)
    requires v.i < v.j < |cs|
    ensures |r| == |cs|
  {
    if opposes(v.a, v.b) then cs[v.i := Flagged(cs[v.i], v.b)][v.j := Flagged(cs[v.j], v.a)] else cs
  }

  function FlagVisits(opposes: Relation, cs: seq<View>, vs: seq<Visit>): (r: seq<View>)
    requires InRange(vs, |cs|)
    ensures |r| == |cs|
  {
    if vs == [] then cs
    else FlagPair(opposes, FlagVisits(opposes, cs, vs[..|vs| - 1]), vs[|vs| - 1])
  }

  function Evidence(cs: seq<View>): (obs: seq<seq<Observation>>)
    ensures |obs| == |cs| && forall k :: 0 <= k < |cs| ==> obs[k] == cs[k].observations
  {
    seq(|cs|, k requires 0 <= k < |cs| => cs[k].observations)
  }

  /** The candidates after every pair was compared. */
  function FlagAll(opposes: Relation, cs: seq<View>): (r: seq<View>)
    ensures |r| == |cs|
  {
    VisitsInRange(Evidence(cs), |cs|);
    FlagVisits(opposes, cs, Visits(Evidence(cs), |cs|))
  }

  ghost predicate DistinctObjects(cs: seq<Candidate>) {
    forall p, q :: 0 <= p < q < |cs| ==> cs[p] != cs[q]
  }

  method FlagConflicts(opposes: Relation, candidates: seq<Candidate>)
    requires DistinctObjects(candidates)
    modifies candidates
    ensures Values(candidates) == FlagAll(opposes, old(Values(candidates)))
  {
    ghost var start := Values(candidates);
    ghost var done := FlagEach(opposes, candidates, start);
    assert FlagAll(opposes, start) == FlagVisits(opposes, start, done);
  }

  method FlagEach(opposes: Relation, candidates: seq<Candidate>, ghost start: seq<View>) returns (ghost done: seq<Visit>)
    requires DistinctObjects(candidates) && start == Values(candidates)
    modifies candidates
    ensures Reached(opposes, candidates, start, done) && done == Visits(Evidence(start), |start|)
  {
    hide Reached, VisitsFrom, VisitsBetween;
    ReachedStart(opposes, candidates, start);
    done := [];
    for i := 0 to |candidates|
      invariant done == Visits(Evidence(start), i) && Reached(opposes, candidates, start, done)
    {
      VisitsNext(Evidence(start), i);
      done := FlagLater(opposes, candidates, start, done, i);
    }
  }

  method FlagLater(opposes: Relation, candidates: seq<Candidate>, ghost start: seq<View>, ghost before: seq<Visit>,
                   i: nat) returns (ghost done: seq<Visit>)
    requires DistinctObjects(candidates) && i < |candidates| == |start|
    requires Reached(opposes, candidates, start, before)
    modifies candidates
    ensures Reached(opposes, candidates, start, done)
    ensures done == before + VisitsFrom(Evidence(start), i, |start|)
  {
    hide Reached, VisitsBetween;
    done := before;
    for j := i + 1 to |candidates|
      invariant done == before + VisitsFrom(Evidence(start), i, j) && Reached(opposes, candidates, start, done)
    {
      VisitsFromNext(before, Evidence(start), i, j);
      done := FlagTwo(opposes, candidates, start, done, i, j);
    }
  }

  /** The objects hold the values that the visits done so far give. */
  ghost predicate Reached(opposes: Relation, candidates: seq<Candidate>, start: seq<View>, done: seq<Visit>)
    reads candidates
  {
    InRange(done, |start|) && Values(candidates) == FlagVisits(opposes, start, done) &&
    forall k :: 0 <= k < |candidates| ==> k < |start| && candidates[k].observations == start[k].observations
  }

  lemma {:induction false} ReachedStart(opposes: Relation, candidates: seq<Candidate>, start: seq<View>)
    requires start == Values(candidates)
    ensures Reached(opposes, candidates, start, [])
  {}

  lemma {:induction false} ReachedEvidence(opposes: Relation, candidates: seq<Candidate>, start: seq<View>,
                                           done: seq<Visit>, k: nat)
    requires Reached(opposes, candidates, start, done) && k < |candidates| == |start|
    ensures candidates[k].observations == start[k].observations
  {
    hide FlagVisits;
  }

  method FlagTwo(opposes: Relation, candidates: seq<Candidate>, ghost start: seq<View>, ghost before: seq<Visit>,
                 i: nat, j: nat) returns (ghost done: seq<Visit>)
    requires DistinctObjects(candidates) && i < j < |candidates| == |start|
    requires Reached(opposes, candidates, start, before)
    modifies candidates[i], candidates[j]
    ensures Reached(opposes, candidates, start, done)
    ensures done == before + VisitsBetween(Evidence(start), i, j, |start[i].observations|)
  {
    hide Reached, FlagVisits;
    ghost var obs := Evidence(start);
    ReachedEvidence(opposes, candidates, start, before, i);
    ReachedEvidence(opposes, candidates, start, before, j);
    done := before;
    var left, right := candidates[i].observations, candidates[j].observations;
    for x := 0 to |left|
      invariant Reached(opposes, candidates, start, done) && done == before + VisitsBetween(obs, i, j, x)
    {
      ghost var row := done;
      for y := 0 to |right|
        invariant Reached(opposes, candidates, start, done) && done == row + VisitsAgainst(obs, i, j, left[x], y)
      {
        FlagOne(opposes, candidates, start, done, i, j, left[x], right[y]);
        done := done + [Visit(i, j, left[x], right[y])];
      }
    }
  }

  method FlagOne(opposes: Relation, candidates: seq<Candidate>, ghost start: seq<View>, ghost done: seq<Visit>,
                 i: nat, j: nat, a: Observation, b: Observation)
    requires DistinctObjects(candidates) && i < j < |candidates| == |start|
    requires Reached(opposes, candidates, start, done)
    modifies candidates[i], candidates[j]
    ensures Reached(opposes, candidates, start, done + [Visit(i, j, a, b)])
  {
    ghost var r, v := Values(candidates), Visit(i, j, a, b);
    if opposes(a, b) {
      candidates[i].Flag(b);
      candidates[j].Flag(a);
    }
    assert Values(candidates) == FlagPair(opposes, r, v);
    assert (done + [v])[..|done|] == done;
  }

  // ---- which pairs are visited ----

  lemma {:induction false} VisitsAgainstExact(obs: seq<seq<Observation>>, i: nat, j: nat, a: Observation, n: nat)
    requires j < |obs| && n <= |obs[j]|
    ensures forall v :: v in VisitsAgainst(obs, i, j, a, n)
                        <==> v.i == i && v.j == j && v.a == a && v.b in obs[j][..n]
  {
    if n > 0 {
      VisitsAgainstExact(obs, i, j, a, n - 1);
      assert obs[j][..n] == obs[j][..n - 1] + [obs[j][n - 1]];
    }
  }

  lemma {:induction false} VisitsBetweenExact(obs: seq<seq<Observation>>, i: nat, j: nat, n: nat)
    requires i < |obs| && j < |obs| && n <= |obs[i]|
    ensures forall v :: v in VisitsBetween(obs, i, j, n)
                        <==> v.i == i && v.j == j && v.a in obs[i][..n] && v.b in obs[j]
  {
    if n > 0 {
      VisitsBetweenExact(obs, i, j, n - 1);
      VisitsAgainstExact(obs, i, j, obs[i][n - 1], |obs[j]|);
      assert obs[i][..n] == obs[i][..n - 1] + [obs[i][n - 1]];
      assert obs[j][..|obs[j]|] == obs[j];
    }
  }

  predicate Visited(obs: seq<seq<Observation>>, v: Visit) {
    v.i < |obs| && v.j < |obs| && v.a in obs[v.i] && v.b in obs[v.j]
  }

  lemma {:induction false} VisitsFromExact(obs: seq<seq<Observation>>, i: nat, n: nat)
    requires i < n <= |obs|
    ensures forall v :: v in VisitsFrom(obs, i, n) <==> v.i == i && i < v.j < n && Visited(obs, v)
  {
    if n > i + 1 {
      VisitsFromExact(obs, i, n - 1);
      VisitsBetweenExact(obs, i, n - 1, |obs[i]|);
      assert obs[i][..|obs[i]|] == obs[i];
    }
  }

  /** Every pair of observations of two different candidates is visited, and nothing else. */
  lemma {:induction false} VisitsExact(obs: seq<seq<Observation>>, n: nat)
    requires n <= |obs|
    ensures forall v :: v in Visits(obs, n) <==> v.i < n && v.i < v.j && Visited(obs, v)
  {
    if n > 0 {
      VisitsExact(obs, n - 1);
      VisitsFromExact(obs, n - 1, |obs|);
    }
  }

  lemma {:induction false} VisitsInRange(obs: seq<seq<Observation>>, n: nat)
    requires n <= |obs|
    ensures InRange(Visits(obs, n), |obs|)
  {
    VisitsExact(obs, n);
    var vs := Visits(obs, n);
    forall k | 0 <= k < |vs| ensures vs[k].i < vs[k].j < |obs| { assert vs[k] in vs; }
  }

  // ---- what the flags mean ----

  predicate Lists(r: seq<View>, c: nat, o: Observation) {
    c < |r| && o in r[c].conflicting
  }

  predicate Holds(cs: seq<View>, c: nat, o: Observation) {
    c < |cs| && o in cs[c].observations
  }

  /** `o` is held by another candidate and opposes an observation of candidate `c`. */
  ghost predicate Justified(opposes: Relation, cs: seq<View>, c: nat, o: Observation) {
    (exists d: nat :: d != c && Holds(cs, d, o)) && exists a :: Holds(cs, c, a) && opposes(a, o)
  }

  /** A review is asked for exactly when the list is non-empty; entries are distinct. */
  predicate WellFlagged(v: View) {
    (v.reviewRequired <==> v.conflicting != []) &&
    forall p, q :: 0 <= p < q < |v.conflicting| ==> v.conflicting[p] != v.conflicting[q]
  }

  ghost predicate Sound(opposes: Relation, cs: seq<View>, r: seq<View>) {
    SameEvidence(cs, r) && (forall c :: 0 <= c < |r| ==> WellFlagged(r[c])) &&
    forall c: nat, o :: Lists(r, c, o) ==> Justified(opposes, cs, c, o)
  }

  /** `r'` lists at least what `r` lists. */
  ghost predicate Keeps(r: seq<View>, r': seq<View>) {
    forall c: nat, o :: Lists(r, c, o) ==> Lists(r', c, o)
  }

  ghost predicate Symmetric(opposes: Relation) {
    forall a, b :: opposes(a, b) ==> opposes(b, a)
  }

  predicate BothListed(r: seq<View>, v: Visit) {
    Lists(r, v.i, v.b) && Lists(r, v.j, v.a)
  }

  lemma {:induction false} FlaggedWell(c: View, o: Observation)
    requires WellFlagged(c)
    ensures WellFlagged(Flagged(c, o)) && SameAt(c, Flagged(c, o))
  {}

  lemma {:induction false} JustifyPair(opposes: Relation, cs: seq<View>, v: Visit)
    requires Symmetric(opposes) && opposes(v.a, v.b) && v.i < v.j && Holds(cs, v.i, v.a) && Holds(cs, v.j, v.b)
    ensures Justified(opposes, cs, v.i, v.b) && Justified(opposes, cs, v.j, v.a)
  {}

  lemma {:induction false} FlagPairSound(opposes: Relation, cs: seq<View>, r: seq<View>, v: Visit)
    requires Symmetric(opposes) && Sound(opposes, cs, r) && v.i < v.j && Holds(cs, v.i, v.a) && Holds(cs, v.j, v.b)
    ensures var r' := FlagPair(opposes, r, v);
            Sound(opposes, cs, r') && Keeps(r, r') && (opposes(v.a, v.b) ==> BothListed(r', v))
  {
    hide WellFlagged, Justified;
    if opposes(v.a, v.b) {
      var r' := FlagPair(opposes, r, v);
      FlaggedWell(r[v.i], v.b);
      FlaggedWell(r[v.j], v.a);
      JustifyPair(opposes, cs, v);
      forall c | 0 <= c < |r'| ensures WellFlagged(r'[c]) && SameAt(cs[c], r'[c]) {
        assert WellFlagged(r[c]) && SameAt(cs[c], r[c]);
      }
      forall c: nat, o | Lists(r', c, o) ensures Justified(opposes, cs, c, o) {
        assert Lists(r, c, o) || (c == v.i && o == v.b) || (c == v.j && o == v.a);
      }
    }
  }

  /** Every opposing pair visited so far is listed on both sides. */
  predicate AllListed(opposes: Relation, r: seq<View>, vs: seq<Visit>) {
    forall k :: 0 <= k < |vs| && opposes(vs[k].a, vs[k].b) ==> BothListed(r, vs[k])
  }

  predicate HoldsAll(cs: seq<View>, vs: seq<Visit>) {
    forall k :: 0 <= k < |vs| ==> vs[k].i < vs[k].j && Holds(cs, vs[k].i, vs[k].a) && Holds(cs, vs[k].j, vs[k].b)
  }

  lemma {:induction false} FlagVisitsSound(opposes: Relation, cs: seq<View>, vs: seq<Visit>)
    requires Symmetric(opposes) && Sound(opposes, cs, cs) && InRange(vs, |cs|) && HoldsAll(cs, vs)
    ensures var r := FlagVisits(opposes, cs, vs); Sound(opposes, cs, r) && AllListed(opposes, r, vs)
  {
    hide FlagVisits, FlagPair, Sound, BothListed, Symmetric;
    FlagVisitsLast(opposes, cs, vs);
    if vs != [] {
      var front, last := vs[..|vs| - 1], vs[|vs| - 1];
      var r := FlagVisits(opposes, cs, front);
      FlagVisitsSound(opposes, cs, front);
      FlagPairSound(opposes, cs, r, last);
      forall k | 0 <= k < |vs| && opposes(vs[k].a, vs[k].b)
        ensures BothListed(FlagPair(opposes, r, last), vs[k])
      {
        if k < |front| {
          assert front[k] == vs[k] && BothListed(r, front[k]);
          StillListed(r, FlagPair(opposes, r, last), vs[k]);
        }
      }
    }
  }

  lemma {:induction false} StillListed(r: seq<View>, r': seq<View>, v: Visit)
    requires Keeps(r, r') && BothListed(r, v)
    ensures BothListed(r', v)
  {}

  lemma {:induction false} FlagVisitsLast(opposes: Relation, cs: seq<View>, vs: seq<Visit>)
    requires InRange(vs, |cs|)
    ensures vs == [] ==> FlagVisits(opposes, cs, vs) == cs
    ensures vs != [] ==> InRange(vs[..|vs| - 1], |cs|)
    ensures vs != [] ==>
              FlagVisits(opposes, cs, vs) == FlagPair(opposes, FlagVisits(opposes, cs, vs[..|vs| - 1]), vs[|vs| - 1])
  {
    hide FlagPair;
  }

  predicate Unflagged(cs: seq<View>) {
    forall c :: 0 <= c < |cs| ==> !cs[c].reviewRequired && cs[c].conflicting == []
  }

  lemma {:induction false} FlagAllSound(opposes: Relation, cs: seq<View>)
    requires Symmetric(opposes) && Unflagged(cs)
    ensures var r := FlagAll(opposes, cs);
            Sound(opposes, cs, r) && AllListed(opposes, r, Visits(Evidence(cs), |cs|))
  {
    var vs := Visits(Evidence(cs), |cs|);
    VisitsExact(Evidence(cs), |cs|);
    VisitsInRange(Evidence(cs), |cs|);
    forall k | 0 <= k < |vs| ensures Holds(cs, vs[k].i, vs[k].a) && Holds(cs, vs[k].j, vs[k].b) {
      assert vs[k] in vs;
    }
    FlagVisitsSound(opposes, cs, vs);
  }

  /** An observation is listed at a candidate exactly when another candidate holds it
      and it opposes one of the candidate's own; a review is asked for exactly when
      something is listed, nothing is listed twice, and no evidence is altered. */
  lemma {:induction false} FlagsExact(opposes: Relation, cs: seq<View>, c: nat, o: Observation)
    requires Symmetric(opposes) && Unflagged(cs) && c < |cs|
    ensures var r := FlagAll(opposes, cs);
            SameAt(cs[c], r[c]) && WellFlagged(r[c]) && (Lists(r, c, o) <==> Justified(opposes, cs, c, o))
  {
    var r, vs := FlagAll(opposes, cs), Visits(Evidence(cs), |cs|);
    FlagAllSound(opposes, cs);
    if Justified(opposes, cs, c, o) {
      var d: nat :| d != c && Holds(cs, d, o);
      var a :| Holds(cs, c, a) && opposes(a, o);
      var v := if c < d then Visit(c, d, a, o) else Visit(d, c, o, a);
      VisitsExact(Evidence(cs), |cs|);
      assert v in vs;
      var k :| 0 <= k < |vs| && vs[k] == v;
      assert BothListed(r, vs[k]);
    }
  }
}
