/** Tuple comparison and stable sorting, as the reconciliation of boxes uses them. */
module Ordering {

  /** One component of a compared tuple. */
  datatype Cell = Flag(b: bool) | Num(x: real) | Text(s: string)

  predicate TextLess(s: string, t: string) {
    if t == [] then false
    else if s == [] then true
    else s[0] < t[0] || (s[0] == t[0] && TextLess(s[1..], t[1..]))
  }

  function Rank(c: Cell): int {
    match c case Flag(_) => 0 case Num(_) => 1 case Text(_) => 2
  }

  predicate CellLess(a: Cell, b: Cell) {
    match (a, b)
    case (Flag(p), Flag(q)) => !p && q
    case (Num(x), Num(y)) => x < y
    case (Text(s), Text(t)) => TextLess(s, t)
    case _ => Rank(a) < Rank(b)
  }

  /** Lexicographic comparison of tuples. */
  predicate Less(a: seq<Cell>, b: seq<Cell>) {
    if b == [] then false
    else if a == [] then true
    else CellLess(a[0], b[0]) || (a[0] == b[0] && Less(a[1..], b[1..]))
  }

  lemma {:induction false} TextOrder(s: string, t: string)
    ensures !(TextLess(s, t) && TextLess(t, s))
    ensures s == t || TextLess(s, t) || TextLess(t, s)
    ensures !TextLess(s, s)
    decreases |s| + |t|
  {
    if s != [] {
      if |s| > 1 || |t| > 0 { TextOrder(s[1..], if |t| > 0 then t[1..] else []); }
      if t != [] {
        assert s == [s[0]] + s[1..] && t == [t[0]] + t[1..];
      }
    }
  }

  lemma {:induction false} TextTransitive(s: string, t: string, u: string)
    requires TextLess(s, t) && TextLess(t, u)
    ensures TextLess(s, u)
  {
    if s != [] && s[0] == t[0] == u[0] {
      TextTransitive(s[1..], t[1..], u[1..]);
    }
  }

  lemma {:induction false} CellOrder(a: Cell, b: Cell)
    ensures !(CellLess(a, b) && CellLess(b, a))
    ensures a == b || CellLess(a, b) || CellLess(b, a)
    ensures !CellLess(a, a)
  {
    if a.Text? && b.Text? { TextOrder(a.s, b.s); }
    if a.Text? { TextOrder(a.s, a.s); }
  }

  lemma {:induction false} CellTransitive(a: Cell, b: Cell, c: Cell)
    requires CellLess(a, b) && CellLess(b, c)
    ensures CellLess(a, c)
  {
    if a.Text? && b.Text? && c.Text? { TextTransitive(a.s, b.s, c.s); }
  }

  /** Tuple comparison is a strict total order: equal keys are equal tuples. */
  lemma {:induction false} TotalOrder(a: seq<Cell>, b: seq<Cell>)
    ensures !(Less(a, b) && Less(b, a))
    ensures a == b || Less(a, b) || Less(b, a)
  {
    if a != [] && b != [] {
      CellOrder(a[0], b[0]);
      TotalOrder(a[1..], b[1..]);
      assert a == [a[0]] + a[1..] && b == [b[0]] + b[1..];
    }
  }

  lemma {:induction false} Transitive(a: seq<Cell>, b: seq<Cell>, c: seq<Cell>)
    requires !Less(b, a) && !Less(c, b)
    ensures !Less(c, a)
  {
    if b != [] && c != [] && a != [] {
      CellOrder(a[0], b[0]);
      CellOrder(b[0], c[0]);
      CellOrder(a[0], c[0]);
      if a[0] == b[0] == c[0] {
        Transitive(a[1..], b[1..], c[1..]);
      } else if a[0] != b[0] && b[0] != c[0] {
        CellTransitive(a[0], b[0], c[0]);
      }
    }
  }

  /** Texts compare at the first code point at which they differ; a proper prefix is less. */
  lemma {:induction false} TextLessExact(s: string, t: string)
    ensures TextLess(s, t) <==> exists k: nat :: TextLessAt(s, t, k)
  {
    if t != [] && s != [] && s[0] == t[0] {
      TextLessExact(s[1..], t[1..]);
      if k: nat :| TextLessAt(s[1..], t[1..], k) { assert TextLessAt(s, t, k + 1); }
      if k: nat :| TextLessAt(s, t, k) { assert TextLessAt(s[1..], t[1..], k - 1); }
    } else {
      assert TextLess(s, t) ==> TextLessAt(s, t, 0);
    }
  }

  predicate TextLessAt(s: string, t: string, k: nat) {
    k <= |s| && k < |t| && (forall j :: 0 <= j < k ==> s[j] == t[j]) && (k == |s| || s[k] < t[k])
  }

  /** Tuples of one length, from position `k` on. */
  lemma {:induction false} LessFrom(a: seq<Cell>, b: seq<Cell>, k: nat)
    requires |a| == |b| && k <= |a|
    ensures k == |a| ==> !Less(a[k..], b[k..])
    ensures k < |a| && a[k] != b[k] ==> (Less(a[k..], b[k..]) <==> CellLess(a[k], b[k]))
    ensures k < |a| && a[k] == b[k] ==> (Less(a[k..], b[k..]) <==> Less(a[k + 1..], b[k + 1..]))
  {
    if k < |a| {
      CellOrder(a[k], a[k]);
      assert a[k..][0] == a[k] && b[k..][0] == b[k];
      assert a[k..][1..] == a[k + 1..] && b[k..][1..] == b[k + 1..];
    }
  }

  /** Every element is a valid index below `n`. */
  predicate Below(positions: seq<nat>, n: nat) {
    forall k :: 0 <= k < |positions| ==> positions[k] < n
  }

  predicate Distinct<T(==)>(s: seq<T>) {
    forall p, q :: 0 <= p < q < |s| ==> s[p] != s[q]
  }

  /** The elements of `items` at the given positions, in the given order. */
  function Pick<T>(items: seq<T>, positions: seq<nat>): (r: seq<T>)
    requires Below(positions, |items|)
    ensures |r| == |positions|
    ensures forall k :: 0 <= k < |positions| ==> r[k] == items[positions[k]]
  {
    seq(|positions|, k requires 0 <= k < |positions| => items[positions[k]])
  }

  function Range(n: nat): (r: seq<nat>)
    ensures |r| == n && forall k :: 0 <= k < n ==> r[k] == k
  {
    seq(n, k => k)
  }

  predicate Sorted(keys: seq<seq<Cell>>) {
    forall p, q :: 0 <= p < q < |keys| ==> !Less(keys[q], keys[p])
  }

  /** Places index `i` after every index whose key is not greater: insertion is stable. */
  function InsertIndex(keys: seq<seq<Cell>>, i: nat, order: seq<nat>): (r: seq<nat>)
    requires i < |keys| && Below(order, i)
    ensures |r| == |order| + 1
    ensures Below(r, i + 1)
  {
    if order == [] then [i]
    else
      var front, last := order[..|order| - 1], order[|order| - 1];
      if Less(keys[i], keys[last]) then InsertIndex(keys, i, front) + [last] else order + [i]
  }

  /** Python's sorted(range(n), key=keys.__getitem__). */
  function SortIndices(keys: seq<seq<Cell>>, n: nat): (order: seq<nat>)
    requires n <= |keys|
    ensures |order| == n
    ensures Below(order, n)
  {
    if n == 0 then [] else InsertIndex(keys, n - 1, SortIndices(keys, n - 1))
  }

  lemma {:induction false} InsertIndexContents(keys: seq<seq<Cell>>, i: nat, order: seq<nat>)
    requires i < |keys| && Below(order, i)
    ensures multiset(InsertIndex(keys, i, order)) == multiset(order) + multiset{i}
    ensures Distinct(order) ==> Distinct(InsertIndex(keys, i, order))
  {
    if order != [] {
      var front, last := order[..|order| - 1], order[|order| - 1];
      assert order == front + [last];
      if Less(keys[i], keys[last]) {
        InsertIndexContents(keys, i, front);
        if Distinct(order) {
          var r := InsertIndex(keys, i, front);
          forall p | 0 <= p < |r| ensures r[p] != last {
            assert r[p] in multiset(r);
            assert r[p] in multiset(front) || r[p] == i;
            if r[p] in front {}
          }
        }
      }
    }
  }

  lemma {:induction false} InsertIndexSorted(keys: seq<seq<Cell>>, i: nat, order: seq<nat>)
    requires i < |keys| && Below(order, i)
    requires Sorted(Pick(keys, order))
    ensures Sorted(Pick(keys, InsertIndex(keys, i, order)))
  {
    hide Less;
    if order != [] {
      var front, last := order[..|order| - 1], order[|order| - 1];
      if Less(keys[i], keys[last]) {
        assert Pick(keys, front) == Pick(keys, order)[..|front|];
        InsertIndexSorted(keys, i, front);
        var r := InsertIndex(keys, i, front);
        InsertIndexBelow(keys, i, order, r);
        assert Pick(keys, r + [last]) == Pick(keys, r) + [keys[last]];
      } else {
        AppendSorted(keys, i, order);
      }
    }
  }

  /** A key that is not less than the last may follow all of them. */
  lemma {:induction false} AppendSorted(keys: seq<seq<Cell>>, i: nat, order: seq<nat>)
    requires i < |keys| && Below(order, i) && Sorted(Pick(keys, order)) && order != []
    requires !Less(keys[i], keys[order[|order| - 1]])
    ensures Sorted(Pick(keys, order + [i]))
  {
    hide Less;
    var last, ordered := order[|order| - 1], Pick(keys, order);
    forall p | 0 <= p < |order| ensures !Less(keys[i], ordered[p]) {
      TotalOrder(keys[last], keys[last]);
      Transitive(ordered[p], keys[last], keys[i]);
    }
    assert Pick(keys, order + [i]) == ordered + [keys[i]];
  }

  /** What is inserted before the last index has keys that are not greater than its key. */
  lemma {:induction false} InsertIndexBelow(keys: seq<seq<Cell>>, i: nat, order: seq<nat>, r: seq<nat>)
    requires i < |keys| && Below(order, i) && Sorted(Pick(keys, order)) && order != []
    requires Less(keys[i], keys[order[|order| - 1]])
    requires r == InsertIndex(keys, i, order[..|order| - 1])
    ensures forall p :: 0 <= p < |r| ==> !Less(keys[order[|order| - 1]], keys[r[p]])
  {
    hide Less, InsertIndex;
    var front, last := order[..|order| - 1], order[|order| - 1];
    var ordered := Pick(keys, order);
    InsertIndexContents(keys, i, front);
    TotalOrder(keys[i], keys[last]);
    forall p | 0 <= p < |r| ensures !Less(keys[last], keys[r[p]]) {
      assert r[p] in multiset(r);
      if r[p] != i {
        assert r[p] in multiset(front);
        var q :| 0 <= q < |front| && front[q] == r[p];
        assert ordered[q] == keys[r[p]] && ordered[|front|] == keys[last];
      }
    }
  }

  lemma {:induction false} RangeGrows(n: nat)
    ensures n == 0 ==> Range(n) == []
    ensures n > 0 ==> Range(n) == Range(n - 1) + [n - 1]
  {}

  lemma {:induction false} NoneDistinct()
    ensures Distinct<nat>([])
  {}

  lemma {:induction false} SortIndicesContents(keys: seq<seq<Cell>>, n: nat)
    requires n <= |keys|
    ensures multiset(SortIndices(keys, n)) == multiset(Range(n))
    ensures Distinct(SortIndices(keys, n))
  {
    hide InsertIndex, Range, Less, Distinct;
    RangeGrows(n);
    if n == 0 {
      assert SortIndices(keys, 0) == [];
      assert Distinct<nat>([]) by { NoneDistinct(); }
    } else {
      SortIndicesContents(keys, n - 1);
      InsertIndexContents(keys, n - 1, SortIndices(keys, n - 1));
    }
  }

  lemma {:induction false} SortIndicesSorted(keys: seq<seq<Cell>>, n: nat)
    requires n <= |keys|
    ensures Sorted(Pick(keys, SortIndices(keys, n)))
  {
    if n > 0 {
      SortIndicesSorted(keys, n - 1);
      InsertIndexSorted(keys, n - 1, SortIndices(keys, n - 1));
    }
  }

  function Without<T>(s: seq<T>, k: nat): (r: seq<T>)
    requires k < |s|
    ensures |r| == |s| - 1
    ensures forall i :: 0 <= i < |r| ==> r[i] == s[if i < k then i else i + 1]
  {
    s[..k] + s[k + 1..]
  }

  lemma {:induction false} RemoveAt<T>(s: seq<T>, k: nat)
    requires k < |s|
    ensures multiset(s) == multiset(Without(s, k)) + multiset{s[k]}
  {
    assert s == s[..k] + [s[k]] + s[k + 1..];
  }

  /** Equal contents have equal images under any function of the elements. */
  lemma {:induction false} ImageMultiset<T, U>(a: seq<T>, b: seq<T>, fa: seq<U>, fb: seq<U>)
    requires |fa| == |a| && |fb| == |b| && multiset(a) == multiset(b)
    requires forall i, j :: 0 <= i < |a| && 0 <= j < |b| && a[i] == b[j] ==> fa[i] == fb[j]
    ensures multiset(fa) == multiset(fb)
  {
    if a == [] {
      assert |b| == |multiset(b)| == 0;
    } else {
      assert a[0] in multiset(b);
      var k :| 0 <= k < |b| && b[k] == a[0];
      RemoveAt(a, 0);
      RemoveAt(b, k);
      assert multiset(Without(a, 0)) == multiset(a) - multiset{a[0]};
      assert multiset(Without(b, k)) == multiset(b) - multiset{a[0]};
      ImageMultiset(Without(a, 0), Without(b, k), Without(fa, 0), Without(fb, k));
      RemoveAt(fa, 0);
      RemoveAt(fb, k);
    }
  }

  /** Sorting loses nothing and invents nothing. */
  lemma {:induction false} SortPermutes<T>(items: seq<T>, keys: seq<seq<Cell>>)
    requires |keys| == |items|
    ensures multiset(Pick(items, SortIndices(keys, |keys|))) == multiset(items)
  {
    SortIndicesContents(keys, |keys|);
    var order := SortIndices(keys, |keys|);
    ImageMultiset(order, Range(|keys|), Pick(items, order), items);
  }

  /** A sorted sequence of keys is determined by the multiset of its keys. */
  lemma {:induction false} SortedUnique(a: seq<seq<Cell>>, b: seq<seq<Cell>>)
    requires Sorted(a) && Sorted(b) && multiset(a) == multiset(b)
    ensures a == b
  {
    hide Less;
    assert |a| == |multiset(a)| == |multiset(b)| == |b|;
    if a != [] {
      assert a[0] in multiset(b) && b[0] in multiset(a);
      TotalOrder(a[0], b[0]);
      assert a[0] == b[0];
      assert a == [a[0]] + a[1..] && b == [b[0]] + b[1..];
      assert multiset(a[1..]) == multiset(a) - multiset{a[0]};
      assert multiset(b[1..]) == multiset(b) - multiset{a[0]};
      SortedUnique(a[1..], b[1..]);
    }
  }
}
