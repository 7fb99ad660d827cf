/** Splitting document pages into overlapping chunks at whitespace. */
module Chunks {
  import opened Text

  const CHUNK_SIZE: nat := 1200
  const CHUNK_OVERLAP: nat := 150

  datatype Page = Page(number: int, text: string)
  datatype Chunk = Chunk(number: int, piece: string)
  datatype Span = Span(start: nat, cut: nat)

  /** The last position of `c`, or -1. */
  function RFind(s: string, c: char): (i: int)
    ensures -1 <= i < |s| && (i >= 0 ==> s[i] == c)
    ensures forall k :: i < k < |s| ==> s[k] != c
  {
    if s == "" then -1 else if s[|s| - 1] == c then |s| - 1 else RFind(s[..|s| - 1], c)
  }

  function Larger(a: int, b: int): int { if a >= b then a else b }

  function Smaller(a: int, b: int): int { if a <= b then a else b }

  function SplitAt(window: string): int {
    Larger(Larger(RFind(window, ' '), RFind(window, '\n')), RFind(window, '\t'))
  }

  /** Where the chunk that begins at `start` ends: at the last blank of a full window, if
      that leaves more than half of it, otherwise at the window's end. */
  function Cut(text: string, size: nat, start: nat): (cut: nat)
    requires size >= 1 && start < |text|
    ensures start < cut <= |text| && cut <= start + size
    ensures cut < |text| ==> cut - start >= size / 2 + 1
  {
    var end: nat := Smaller(start + size, |text|);
    if end < |text| && SplitAt(text[start..end]) > size / 2
    then start + SplitAt(text[start..end]) else end
  }

  /** Going back by the overlap, but never to where this chunk began. */
  function NextStart(start: nat, cut: nat, overlap: nat): (next: nat)
    requires start < cut
    ensures start < next <= cut
    ensures next - start >= cut - start - overlap
  {
    if cut - overlap > start then cut - overlap else cut
  }

  /** The stretches of the page that the loop takes, from `start` on. */
  function Spans(text: string, size: nat, overlap: nat, start: nat): seq<Span>
    requires size >= 1
    decreases |text| - start
  {
    if start >= |text| then []
    else
      var cut := Cut(text, size, start);
      if cut >= |text| then [Span(start, cut)]
      else [Span(start, cut)] + Spans(text, size, overlap, NextStart(start, cut, overlap))
  }

  predicate Within(text: string, spans: seq<Span>) {
    forall k :: 0 <= k < |spans| ==> spans[k].start < spans[k].cut <= |text|
  }

  lemma {:induction false} SpansWithin(text: string, size: nat, overlap: nat, start: nat)
    requires size >= 1
    ensures var spans := Spans(text, size, overlap, start);
            Within(text, spans) && forall k :: 0 <= k < |spans| ==> spans[k].cut - spans[k].start <= size
    decreases |text| - start
  {
    if start < |text| {
      var cut := Cut(text, size, start);
      if cut < |text| { SpansWithin(text, size, overlap, NextStart(start, cut, overlap)); }
    }
  }

  /** The chunks of one page: the stripped stretches that are not blank. */
  function Pieces(page: Page, spans: seq<Span>): seq<Chunk>
    requires Within(page.text, spans)
  {
    if spans == [] then []
    else
      var piece := Strip(page.text[spans[0].start..spans[0].cut]);
      (if piece == "" then [] else [Chunk(page.number, piece)]) + Pieces(page, spans[1..])
  }

  function PageChunks(page: Page, size: nat, overlap: nat): seq<Chunk>
    requires size >= 1
  {
    SpansWithin(page.text, size, overlap, 0);
    Pieces(page, Spans(page.text, size, overlap, 0))
  }

  function AllChunks(pages: seq<Page>, size: nat, overlap: nat): seq<Chunk>
    requires size >= 1
  {
    if pages == [] then []
    else AllChunks(pages[..|pages| - 1], size, overlap) + PageChunks(pages[|pages| - 1], size, overlap)
  }

  // ---- the loops ----

  method ChunkPages(pages: seq<Page>, size: nat, overlap: nat) returns (chunks: seq<Chunk>)
    requires size >= 1
    ensures chunks == AllChunks(pages, size, overlap)
  {
    chunks := [];
    for n := 0 to |pages|
      invariant chunks == AllChunks(pages[..n], size, overlap)
    {
      assert pages[..n + 1][..n] == pages[..n];
      var found := ChunkPage(pages[n], size, overlap);
      chunks := chunks + found;
    }
    assert pages[..|pages|] == pages;
  }

  method ChunkPage(page: Page, size: nat, overlap: nat) returns (chunks: seq<Chunk>)
    requires size >= 1
    ensures chunks == PageChunks(page, size, overlap)
  {
    hide Strip, Spans, Pieces, Within, SplitAt;
    chunks := [];
    NoPieces(page);
    var start, text, total := 0, page.text, |page.text|;
    assert |text| == 0 ==> Spans(text, size, overlap, 0) == [] by { SpansEnd(text, size, overlap); }
    SpansWithin(text, size, overlap, 0);
    ghost var whole := PageChunks(page, size, overlap);
    while start < total
      invariant Within(text, Spans(text, size, overlap, start))
      invariant chunks + Pieces(page, Spans(text, size, overlap, start)) == whole
      invariant start < total || total == 0
      decreases total - start
    {
      var end := Smaller(start + size, total);
      var cut := end;
      if end < total {
        var splitAt := SplitAt(text[start..end]);
        if splitAt > size / 2 {
          cut := start + splitAt;
        }
      }
      PiecesNext(page, size, overlap, start, chunks);
      var piece := Strip(text[start..cut]);
      if piece != "" {
        chunks := chunks + [Chunk(page.number, piece)];
      }
      if cut >= total {
        return;
      }
      var nextStart := cut - overlap;
      SpansWithin(text, size, overlap, NextStart(start, cut, overlap));
      start := if nextStart > start then nextStart else cut;
    }
  }

  lemma {:induction false} SpansNext(text: string, size: nat, overlap: nat, start: nat)
    requires size >= 1 && start < |text|
    ensures var cut := Cut(text, size, start);
            Spans(text, size, overlap, start) ==
              [Span(start, cut)] + if cut >= |text| then [] else Spans(text, size, overlap, NextStart(start, cut, overlap))
  {
    hide Cut, NextStart;
  }

  lemma {:induction false} PiecesFirst(page: Page, spans: seq<Span>)
    requires Within(page.text, spans) && spans != []
    ensures var piece := Strip(page.text[spans[0].start..spans[0].cut]);
            Pieces(page, spans) ==
              (if piece == "" then [] else [Chunk(page.number, piece)]) + Pieces(page, spans[1..])
  {
    hide Strip;
  }

  /** One round of the loop takes one stretch. */
  lemma {:induction false} PiecesNext(page: Page, size: nat, overlap: nat, start: nat, before: seq<Chunk>)
    requires size >= 1 && start < |page.text| && Within(page.text, Spans(page.text, size, overlap, start))
    ensures var text := page.text;
            var cut := Cut(text, size, start);
            var piece := Strip(text[start..cut]);
            var now := if piece == "" then before else before + [Chunk(page.number, piece)];
            if cut >= |text| then before + Pieces(page, Spans(text, size, overlap, start)) == now
            else Within(text, Spans(text, size, overlap, NextStart(start, cut, overlap))) &&
                 before + Pieces(page, Spans(text, size, overlap, start))
                 == now + Pieces(page, Spans(text, size, overlap, NextStart(start, cut, overlap)))
  {
    hide Cut, NextStart, Strip, Spans, Pieces, Within;
    var text, cut := page.text, Cut(page.text, size, start);
    var spans := Spans(text, size, overlap, start);
    SpansNext(text, size, overlap, start);
    PiecesFirst(page, spans);
    if cut >= |text| {
      assert spans[1..] == [];
      assert Pieces(page, []) == [] by { NoPieces(page); }
    } else {
      SpansWithin(text, size, overlap, NextStart(start, cut, overlap));
      assert spans[1..] == Spans(text, size, overlap, NextStart(start, cut, overlap));
    }
  }

  lemma {:induction false} SpansEnd(text: string, size: nat, overlap: nat)
    requires size >= 1
    ensures Spans(text, size, overlap, |text|) == []
  {}

  lemma {:induction false} NoPieces(page: Page)
    ensures Within(page.text, []) && Pieces(page, []) == []
  {}

  // ---- what the chunks are ----

  /** The chunk is a slice of the page, and the slice holds position `i`. */
  predicate HoldsAt(text: string, piece: string, offset: nat, i: nat) {
    SliceAt(text, piece, offset) && offset <= i < offset + |piece|
  }

  predicate SliceAt(text: string, piece: string, offset: nat) {
    offset + |piece| <= |text| && piece == text[offset..offset + |piece|]
  }

  ghost predicate IsSlice(text: string, piece: string) {
    exists offset: nat :: SliceAt(text, piece, offset)
  }

  lemma {:induction false} SliceOfSlice(text: string, lo: nat, hi: nat, a: nat, b: nat)
    requires lo <= hi <= |text| && a <= b <= hi - lo
    ensures text[lo..hi][a..b] == text[lo + a..lo + b]
  {
    var x, y := text[lo..hi][a..b], text[lo + a..lo + b];
    assert |x| == |y| && forall k :: 0 <= k < |x| ==> x[k] == text[lo + a + k] == y[k];
    assert x == y;
  }

  lemma {:induction false} StripSlice(text: string, lo: nat, hi: nat)
    requires lo <= hi <= |text|
    ensures var s := text[lo..hi];
            var offset := lo + Leading(s);
            offset + |Strip(s)| <= hi && SliceAt(text, Strip(s), offset) &&
            forall i :: lo <= i < hi && !IsSpace(text[i]) ==> offset <= i < offset + |Strip(s)|
  {
    hide IsSpace, Strip, Leading, Blank;
    var s := text[lo..hi];
    StripKeeps(s);
    var offset := Leading(s);
    SliceOfSlice(text, lo, hi, offset, offset + |Strip(s)|);
    forall i | lo <= i < hi && !IsSpace(text[i]) ensures lo + offset <= i < lo + offset + |Strip(s)| {
      assert s[i - lo] == text[i];
    }
  }

  /** Every chunk is a non-empty slice of its own page, no longer than the size, and is
      neither preceded nor followed by whitespace of its own. */
  lemma {:induction false} PiecesAreSlices(page: Page, spans: seq<Span>, size: nat)
    requires Within(page.text, spans) && forall k :: 0 <= k < |spans| ==> spans[k].cut - spans[k].start <= size
    ensures forall k :: 0 <= k < |Pieces(page, spans)| ==>
              var c := Pieces(page, spans)[k];
              c.number == page.number && IsSlice(page.text, c.piece) && 0 < |c.piece| <= size &&
              !IsSpace(c.piece[0]) && !IsSpace(c.piece[|c.piece| - 1])
  {
    hide IsSpace, Strip, Leading, Blank, SliceAt;
    if spans != [] {
      var lo, hi := spans[0].start, spans[0].cut;
      PiecesAreSlices(page, spans[1..], size);
      StripSlice(page.text, lo, hi);
      assert SliceAt(page.text, Strip(page.text[lo..hi]), lo + Leading(page.text[lo..hi]));
    }
  }

  lemma {:induction false} ChunkShape(page: Page, size: nat, overlap: nat, k: nat)
    requires size >= 1 && k < |PageChunks(page, size, overlap)|
    ensures var c := PageChunks(page, size, overlap)[k];
            c.number == page.number && IsSlice(page.text, c.piece) && 0 < |c.piece| <= size &&
            !IsSpace(c.piece[0]) && !IsSpace(c.piece[|c.piece| - 1])
  {
    SpansWithin(page.text, size, overlap, 0);
    PiecesAreSlices(page, Spans(page.text, size, overlap, 0), size);
  }

  /** The stretches leave no gap. */
  lemma {:induction false} SpansCover(text: string, size: nat, overlap: nat, start: nat, i: nat) returns (k: nat)
    requires size >= 1 && start <= i < |text|
    ensures k < |Spans(text, size, overlap, start)|
    ensures Spans(text, size, overlap, start)[k].start <= i < Spans(text, size, overlap, start)[k].cut
    decreases |text| - start
  {
    var cut := Cut(text, size, start);
    if i < cut {
      k := 0;
    } else {
      var later := SpansCover(text, size, overlap, NextStart(start, cut, overlap), i);
      k := 1 + later;
    }
  }

  lemma {:induction false} PieceOf(page: Page, spans: seq<Span>, k: nat, i: nat) returns (c: nat, offset: nat)
    requires Within(page.text, spans) && k < |spans| && spans[k].start <= i < spans[k].cut
    requires !IsSpace(page.text[i])
    ensures c < |Pieces(page, spans)| && HoldsAt(page.text, Pieces(page, spans)[c].piece, offset, i)
  {
    hide IsSpace, Strip, Leading, Blank, SliceAt;
    var piece := Strip(page.text[spans[0].start..spans[0].cut]);
    if k == 0 {
      StripSlice(page.text, spans[0].start, spans[0].cut);
      c, offset := 0, spans[0].start + Leading(page.text[spans[0].start..spans[0].cut]);
      assert piece != "";
    } else {
      var later, at := PieceOf(page, spans[1..], k - 1, i);
      c, offset := later + (if piece == "" then 0 else 1), at;
    }
  }

  /** Nothing is lost: every non-whitespace character of a page is in some chunk of it. */
  lemma {:induction false} EveryCharacterKept(page: Page, size: nat, overlap: nat, i: nat)
    requires size >= 1 && i < |page.text| && !IsSpace(page.text[i])
    ensures exists c, offset: nat :: 0 <= c < |PageChunks(page, size, overlap)| &&
                                     HoldsAt(page.text, PageChunks(page, size, overlap)[c].piece, offset, i)
  {
    SpansWithin(page.text, size, overlap, 0);
    var k := SpansCover(page.text, size, overlap, 0, i);
    var c, offset := PieceOf(page, Spans(page.text, size, overlap, 0), k, i);
    assert HoldsAt(page.text, PageChunks(page, size, overlap)[c].piece, offset, i);
  }

  // ---- where the chunks are cut ----

  predicate IsBlank(c: char) {
    c == ' ' || c == '\n' || c == '\t'
  }

  /** A stretch that would end within the page ends at the last blank of its second half, if
      there is one, and otherwise after `size` characters. */
  ghost predicate CutWell(text: string, size: nat, start: nat, cut: nat) {
    if start + size >= |text| then cut == |text|
    else if exists i :: start + size / 2 < i < start + size && IsBlank(text[i])
    then start + size / 2 < cut < start + size && IsBlank(text[cut]) &&
         forall i :: cut < i < start + size ==> !IsBlank(text[i])
    else cut == start + size
  }

  lemma {:induction false} SplitAtExact(window: string)
    ensures -1 <= SplitAt(window) < |window| && (SplitAt(window) >= 0 ==> IsBlank(window[SplitAt(window)]))
    ensures forall k :: SplitAt(window) < k < |window| ==> !IsBlank(window[k])
  {
    hide RFind;
  }

  lemma {:induction false} CutExact(text: string, size: nat, start: nat)
    requires size >= 1 && start < |text|
    ensures CutWell(text, size, start, Cut(text, size, start))
  {
    hide SplitAt, IsBlank;
    if start + size < |text| {
      var window := text[start..start + size];
      SplitAtExact(window);
      assert forall i :: start <= i < start + size ==> text[i] == window[i - start];
      if i :| start + size / 2 < i < start + size && IsBlank(text[i]) { assert IsBlank(window[i - start]); }
      forall i | start + SplitAt(window) < i < start + size ensures !IsBlank(text[i]) { assert !IsBlank(window[i - start]); }
    }
  }

  /** The stretches begin at the page's start and end at its end, each is cut well, and each
      after the first begins `overlap` characters before the last one's end, or at its end if
      that would be no progress. */
  ghost predicate Stretches(text: string, size: nat, overlap: nat, start: nat, spans: seq<Span>) {
    (start < |text| ==> |spans| >= 1 && spans[0].start == start && spans[|spans| - 1].cut == |text|) &&
    (start >= |text| ==> spans == []) &&
    (forall k :: 0 <= k < |spans| ==> CutWell(text, size, spans[k].start, spans[k].cut)) &&
    forall k :: 0 <= k < |spans| - 1 ==>
      spans[k].cut < |text| &&
      spans[k + 1].start == if spans[k].cut - overlap > spans[k].start then spans[k].cut - overlap else spans[k].cut
  }

  lemma {:induction false} SpansExact(text: string, size: nat, overlap: nat, start: nat)
    requires size >= 1
    ensures Stretches(text, size, overlap, start, Spans(text, size, overlap, start))
    decreases |text| - start
  {
    hide CutWell, Cut, Spans;
    if start < |text| {
      var cut := Cut(text, size, start);
      CutExact(text, size, start);
      SpansNext(text, size, overlap, start);
      if cut < |text| { SpansExact(text, size, overlap, NextStart(start, cut, overlap)); }
    } else {
      assert Spans(text, size, overlap, start) == [] by { SpansPast(text, size, overlap, start); }
    }
  }

  lemma {:induction false} SpansPast(text: string, size: nat, overlap: nat, start: nat)
    requires size >= 1 && start >= |text|
    ensures Spans(text, size, overlap, start) == []
  {}

  predicate Ascending(places: seq<nat>, n: nat) {
    (forall c :: 0 <= c < |places| ==> places[c] < n) && forall c, d :: 0 <= c < d < |places| ==> places[c] < places[d]
  }

  function Stretch(text: string, span: Span): string
    requires span.start < span.cut <= |text|
  {
    text[span.start..span.cut]
  }

  /** The chunks are the stretches at these places, stripped. */
  predicate ChunksAt(page: Page, spans: seq<Span>, chunks: seq<Chunk>, places: seq<nat>)
    requires Within(page.text, spans) && Ascending(places, |spans|)
  {
    |chunks| == |places| &&
    forall c :: 0 <= c < |chunks| ==> chunks[c] == Chunk(page.number, Strip(Stretch(page.text, spans[places[c]])))
  }

  predicate OthersBlank(page: Page, spans: seq<Span>, places: seq<nat>)
    requires Within(page.text, spans)
  {
    forall k :: 0 <= k < |spans| && k !in places ==> Blank(Stretch(page.text, spans[k]))
  }

  /** Chunk by chunk, the stretches at the given places, stripped; the others are blank. */
  predicate Stripped(page: Page, spans: seq<Span>, chunks: seq<Chunk>, places: seq<nat>) {
    Within(page.text, spans) && Ascending(places, |spans|) && ChunksAt(page, spans, chunks, places) &&
    OthersBlank(page, spans, places)
  }

  lemma {:induction false} PiecesInOrder(page: Page, spans: seq<Span>) returns (places: seq<nat>)
    requires Within(page.text, spans)
    ensures Stripped(page, spans, Pieces(page, spans), places)
  {
    hide Strip, Blank, Pieces, ChunksAt, OthersBlank, Ascending, Later;
    if spans == [] {
      places := [];
      NoPieces(page);
      NothingStripped(page);
    } else {
      var rest := PiecesInOrder(page, spans[1..]);
      PiecesFirst(page, spans);
      var piece := Strip(page.text[spans[0].start..spans[0].cut]);
      places := if piece == "" then Later(rest) else [0] + Later(rest);
      LaterPlaces(rest, |spans|);
      LaterChunks(page, spans, Pieces(page, spans[1..]), rest, places);
      LaterBlank(page, spans, rest, places);
    }
  }

  /** The same places in a list with one more stretch in front. */
  function Later(places: seq<nat>): (r: seq<nat>)
    ensures |r| == |places| && forall c :: 0 <= c < |places| ==> r[c] == places[c] + 1
  {
    seq(|places|, c requires 0 <= c < |places| => places[c] + 1)
  }

  lemma {:induction false} LaterPlaces(rest: seq<nat>, n: nat)
    requires n >= 1 && Ascending(rest, n - 1)
    ensures Ascending(Later(rest), n) && Ascending([0] + Later(rest), n)
  {
    hide Later;
  }

  lemma {:induction false} NothingStripped(page: Page)
    ensures Stripped(page, [], [], [])
  {}

  lemma {:induction false} LaterChunks(page: Page, spans: seq<Span>, chunks: seq<Chunk>, rest: seq<nat>, places: seq<nat>)
    requires spans != [] && Within(page.text, spans) && Ascending(rest, |spans| - 1) && Ascending(places, |spans|)
    requires ChunksAt(page, spans[1..], chunks, rest)
    requires var first: seq<nat> := if Strip(Stretch(page.text, spans[0])) == "" then [] else [0];
             |places| == |first| + |rest| && places[..|first|] == first &&
             forall c :: 0 <= c < |rest| ==> places[|first| + c] == rest[c] + 1
    ensures var piece := Strip(Stretch(page.text, spans[0]));
            ChunksAt(page, spans, (if piece == "" then [] else [Chunk(page.number, piece)]) + chunks, places)
  {
    hide Strip, Stretch;
    var n := if Strip(Stretch(page.text, spans[0])) == "" then 0 else 1;
    if n == 1 { assert places[..1][0] == 0; }
    forall c | 0 <= c < |rest| ensures chunks[c] == Chunk(page.number, Strip(Stretch(page.text, spans[places[n + c]]))) {
      assert spans[1..][rest[c]] == spans[places[n + c]];
    }
  }

  lemma {:induction false} LaterBlank(page: Page, spans: seq<Span>, rest: seq<nat>, places: seq<nat>)
    requires spans != [] && Within(page.text, spans) && OthersBlank(page, spans[1..], rest)
    requires Strip(Stretch(page.text, spans[0])) == "" || 0 in places
    requires forall c :: 0 <= c < |rest| ==> rest[c] + 1 in places
    ensures OthersBlank(page, spans, places)
  {
    hide Blank, Stretch;
    forall k | 0 <= k < |spans| && k !in places ensures Blank(Stretch(page.text, spans[k])) {
      if k > 0 { assert spans[1..][k - 1] == spans[k]; }
    }
  }

  /** The chunks of a page are its stretches in order, stripped, without the blank ones. */
  lemma {:induction false} ChunksAreStretches(page: Page, size: nat, overlap: nat) returns (spans: seq<Span>, places: seq<nat>)
    requires size >= 1
    ensures Stretches(page.text, size, overlap, 0, spans) && Stripped(page, spans, PageChunks(page, size, overlap), places)
  {
    hide Stretches, ChunksAt, OthersBlank, Spans, Pieces;
    spans := Spans(page.text, size, overlap, 0);
    SpansWithin(page.text, size, overlap, 0);
    SpansExact(page.text, size, overlap, 0);
    places := PiecesInOrder(page, spans);
  }

  /** Pages are cut one by one, in order. */
  lemma {:induction false} PagesInOrder(a: seq<Page>, b: seq<Page>, page: Page, size: nat, overlap: nat)
    requires size >= 1
    ensures AllChunks(a + b, size, overlap) == AllChunks(a, size, overlap) + AllChunks(b, size, overlap)
    ensures AllChunks([page], size, overlap) == PageChunks(page, size, overlap) && AllChunks([], size, overlap) == []
  {
    hide PageChunks;
    assert [page][..0] == [];
    if b == [] {
      assert a + b == a;
    } else {
      PagesInOrder(a, b[..|b| - 1], page, size, overlap);
      assert (a + b)[..|a + b| - 1] == a + b[..|b| - 1];
    }
  }

  /** Every step but the last advances by at least this much. */
  function Stride(size: nat, overlap: nat): (stride: nat)
    ensures stride >= 1
  {
    if size / 2 + 1 > overlap then size / 2 + 1 - overlap else 1
  }

  lemma {:induction false} OneMore(n: nat, stride: nat, rest: int, whole: int)
    requires (n - 1) * stride < rest && whole - rest >= stride
    ensures n * stride < whole
  {
    assert n * stride == (n - 1) * stride + stride;
  }

  /** Hence the number of chunks of a page is at most its length over that stride. */
  lemma {:induction false} SpansFew(text: string, size: nat, overlap: nat, start: nat)
    requires size >= 1 && start < |text|
    ensures (|Spans(text, size, overlap, start)| - 1) * Stride(size, overlap) < |text| - start
    decreases |text| - start
  {
    hide Cut, NextStart, Spans;
    var cut, stride := Cut(text, size, start), Stride(size, overlap);
    SpansNext(text, size, overlap, start);
    if cut < |text| {
      var next := NextStart(start, cut, overlap);
      SpansFew(text, size, overlap, next);
      OneMore(|Spans(text, size, overlap, next)|, stride, |text| - next, |text| - start);
    }
  }

  lemma {:induction false} PiecesFewer(page: Page, spans: seq<Span>)
    requires Within(page.text, spans)
    ensures |Pieces(page, spans)| <= |spans|
  {
    if spans != [] { PiecesFewer(page, spans[1..]); }
  }

  /** With the defaults a page of n characters gives at most (n - 1) / 451 + 1 chunks. */
  lemma {:induction false} DefaultChunkCount(page: Page)
    ensures var n := |PageChunks(page, CHUNK_SIZE, CHUNK_OVERLAP)|;
            if page.text == "" then n == 0 else n <= (|page.text| - 1) / 451 + 1
  {
    SpansWithin(page.text, CHUNK_SIZE, CHUNK_OVERLAP, 0);
    PiecesFewer(page, Spans(page.text, CHUNK_SIZE, CHUNK_OVERLAP, 0));
    if page.text != "" {
      SpansFew(page.text, CHUNK_SIZE, CHUNK_OVERLAP, 0);
      assert Stride(CHUNK_SIZE, CHUNK_OVERLAP) == 451;
    }
  }
}
