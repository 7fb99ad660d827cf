/** Model answers: parsing, and the map from image boxes to projected boxes. */
module VisionChange {
  import opened Wrappers
  import opened Boxes
  import opened ChangeBoxes
  import Text

  /** A decoded JSON value; numbers that are not finite are kept apart. */
  datatype Json = Null | Bool(b: bool) | Number(x: real) | NonFinite | Str(s: string)
                | List(items: seq<Json>) | Object(fields: map<string, Json>)

  datatype RawPixels = Pixels(x1: real, y1: real, x2: real, y2: real)

  /** A box in thousandths of the image, origin at the top left. */
  type PixelBox = p: RawPixels | 0.0 <= p.x1 < p.x2 <= 1000.0 && 0.0 <= p.y1 < p.y2 <= 1000.0
    witness Pixels(0.0, 0.0, 1.0, 1.0)

  datatype Change = Change(concept: string, changeType: string, confidence: string,
                           before: string, after: string, evidence: string, box: PixelBox)

  const CHANGE_CLASSES := map[
    "new_building" := "appeared", "appearance" := "appeared",
    "demolition" := "disappeared", "disappearance" := "disappeared",
    "extension" := "changed", "roof_change" := "changed", "site_work" := "changed"]

  const CONFIDENCE := ["high", "medium", "low"]

  // ---- parsing ----

  /** A non-blank string field, if there is one. */
  function Described(fields: map<string, Json>, name: string): Option<string> {
    if name in fields && fields[name].Str? && !Text.Blank(fields[name].s) then Some(fields[name].s) else None
  }

  /** A string field drawn from the allowed values, if there is one. */
  function Chosen(fields: map<string, Json>, name: string, allowed: seq<string>): Option<string> {
    if name in fields && fields[name].Str? && fields[name].s in allowed then Some(fields[name].s) else None
  }

  function ParseBox(fields: map<string, Json>): Option<PixelBox> {
    if "bbox_1000" !in fields || !fields["bbox_1000"].List? then None
    else
      var box := fields["bbox_1000"].items;
      if |box| != 4 || !box[0].Number? || !box[1].Number? || !box[2].Number? || !box[3].Number? then None
      else if 0.0 <= box[0].x < box[2].x <= 1000.0 && 0.0 <= box[1].x < box[3].x <= 1000.0
        then Some(Pixels(box[0].x, box[1].x, box[2].x, box[3].x))
      else None
  }

  const CHANGE_TYPES := ["new_building", "appearance", "demolition", "disappearance",
                         "extension", "roof_change", "site_work"]

  function ParseChange(change: Json, concepts: seq<string>): (r: Option<Change>)
    ensures r.Some? ==> r.value.changeType in CHANGE_CLASSES && r.value.concept in concepts
  {
    if !change.Object? then None
    else
      var f := change.fields;
      match (Chosen(f, "concept", concepts), Chosen(f, "change_type", CHANGE_TYPES),
             Chosen(f, "confidence_label", CONFIDENCE), ParseBox(f))
      case (Some(concept), Some(changeType), Some(confidence), Some(box)) =>
        (match (Described(f, "before"), Described(f, "after"), Described(f, "evidence"))
         case (Some(before), Some(after), Some(evidence)) =>
           Some(Change(concept, changeType, confidence, before, after, evidence, box))
         case _ => None)
      case _ => None
  }

  /** The fields of an entry, as the model is asked to write them. */
  function FieldsOf(c: Change): map<string, Json> {
    map["concept" := Str(c.concept), "change_type" := Str(c.changeType), "confidence_label" := Str(c.confidence),
        "before" := Str(c.before), "after" := Str(c.after), "evidence" := Str(c.evidence),
        "bbox_1000" := List([Number(c.box.x1), Number(c.box.y1), Number(c.box.x2), Number(c.box.y2)])]
  }

  predicate Acceptable(c: Change, concepts: seq<string>) {
    c.concept in concepts &&
    c.changeType in {"new_building", "appearance", "demolition", "disappearance", "extension", "roof_change", "site_work"} &&
    c.confidence in {"high", "medium", "low"} &&
    !Text.Blank(c.before) && !Text.Blank(c.after) && !Text.Blank(c.evidence)
  }

  /** The entry has the fields of `c`, and perhaps others. */
  predicate Writes(change: Json, c: Change) {
    change.Object? && forall name :: name in FieldsOf(c) ==> name in change.fields && change.fields[name] == FieldsOf(c)[name]
  }

  lemma {:induction false} ChangeTypesAreClasses(changeType: string)
    ensures changeType in CHANGE_TYPES <==> changeType in CHANGE_CLASSES
    ensures changeType in CHANGE_TYPES <==>
              changeType in {"new_building", "appearance", "demolition", "disappearance", "extension", "roof_change", "site_work"}
  {}

  lemma {:induction false} BoxExact(fields: map<string, Json>, box: PixelBox)
    ensures ParseBox(fields) == Some(box) <==>
              "bbox_1000" in fields && fields["bbox_1000"] == List([Number(box.x1), Number(box.y1), Number(box.x2), Number(box.y2)])
  {
    if "bbox_1000" in fields && fields["bbox_1000"].List? && |fields["bbox_1000"].items| == 4 {
      var b := fields["bbox_1000"].items;
      assert b == [b[0], b[1], b[2], b[3]];
    }
  }

  lemma {:induction false} WritesFields(fields: map<string, Json>, c: Change)
    ensures Writes(Object(fields), c) <==>
              "concept" in fields && fields["concept"] == Str(c.concept) &&
              "change_type" in fields && fields["change_type"] == Str(c.changeType) &&
              "confidence_label" in fields && fields["confidence_label"] == Str(c.confidence) &&
              "before" in fields && fields["before"] == Str(c.before) &&
              "after" in fields && fields["after"] == Str(c.after) &&
              "evidence" in fields && fields["evidence"] == Str(c.evidence) &&
              "bbox_1000" in fields &&
              fields["bbox_1000"] == List([Number(c.box.x1), Number(c.box.y1), Number(c.box.x2), Number(c.box.y2)])
  {
    var f := FieldsOf(c);
    assert "concept" in f && "change_type" in f && "confidence_label" in f && "before" in f && "after" in f &&
           "evidence" in f && "bbox_1000" in f;
  }

  /** An entry is accepted as `c` exactly when it writes out `c` and `c` is acceptable:
      accepted entries are read back exactly, and everything else is refused. */
  lemma {:induction false} ParseExact(change: Json, concepts: seq<string>, c: Change)
    ensures ParseChange(change, concepts) == Some(c) <==> Writes(change, c) && Acceptable(c, concepts)
  {
    hide Text.Blank, ParseBox, Writes, FieldsOf;
    if change.Object? {
      BoxExact(change.fields, c.box);
      WritesFields(change.fields, c);
      ChangeTypesAreClasses(c.changeType);
    } else {
      assert !Writes(change, c) by { NotObject(change, c); }
    }
  }

  lemma {:induction false} NotObject(change: Json, c: Change)
    requires !change.Object?
    ensures !Writes(change, c)
  {}

  /** All the values, or None as soon as one is missing. */
  function Collect<T>(parts: seq<Option<T>>): Option<seq<T>> {
    if parts == [] then Some([])
    else
      var n := |parts| - 1;
      match (Collect(parts[..n]), parts[n])
      case (Some(values), Some(value)) => Some(values + [value])
      case _ => None
  }

  function ParseItems(items: seq<Json>, concepts: seq<string>): (parts: seq<Option<Change>>)
    ensures |parts| == |items|
    ensures forall k :: 0 <= k < |items| ==> parts[k] == ParseChange(items[k], concepts)
  {
    seq(|items|, k requires 0 <= k < |items| => ParseChange(items[k], concepts))
  }

  /** None stands for the raised "invalid change candidates" error. */
  function ParseChanges(data: Json, concepts: seq<string>): Option<seq<Change>> {
    if data.Object? && "changes" in data.fields && data.fields["changes"].List?
    then Collect(ParseItems(data.fields["changes"].items, concepts))
    else None
  }

  /** Anything but an object with a list of changes is malformed. */
  lemma {:induction false} ParseNeedsList(data: Json, concepts: seq<string>)
    requires ParseChanges(data, concepts).Some?
    ensures data.Object? && "changes" in data.fields && data.fields["changes"].List?
  {}

  lemma {:induction false} CollectAll<T>(parts: seq<Option<T>>)
    ensures Collect(parts).Some? <==> forall k :: 0 <= k < |parts| ==> parts[k].Some?
    ensures Collect(parts).Some? ==>
            |Collect(parts).value| == |parts| &&
            forall k :: 0 <= k < |parts| ==> parts[k] == Some(Collect(parts).value[k])
  {
    if parts != [] {
      var n := |parts| - 1;
      CollectAll(parts[..n]);
      assert parts == parts[..n] + [parts[n]];
    }
  }

  /** One malformed entry rejects the whole tile; otherwise every entry is kept, in order. */
  lemma {:induction false} ParseAllOrNothing(data: Json, items: seq<Json>, concepts: seq<string>)
    requires data.Object? && "changes" in data.fields && data.fields["changes"] == List(items)
    ensures var r := ParseChanges(data, concepts);
            (r.Some? <==> forall k :: 0 <= k < |items| ==> ParseChange(items[k], concepts).Some?) &&
            (r.Some? ==> |r.value| == |items| &&
                         forall k :: 0 <= k < |items| ==> ParseChange(items[k], concepts) == Some(r.value[k]))
  {
    var parts := ParseItems(items, concepts);
    CollectAll(parts);
    assert forall k :: 0 <= k < |items| ==> parts[k] == ParseChange(items[k], concepts);
  }

  // ---- geometry ----

  /** `x` thousandths of a length. */
  function Scale(x: real, size: real): real {
    x * size / 1000.0
  }

  lemma {:induction false} ScaledOrder(lo: real, hi: real, size: real)
    requires lo < hi && 0.0 < size
    ensures Scale(lo, size) < Scale(hi, size)
  {
    ProductPositive(hi - lo, size);
    assert (hi - lo) * size == hi * size - lo * size;
  }

  lemma {:induction false} ScaledInside(x: real, size: real)
    requires 0.0 <= x <= 1000.0 && 0.0 < size
    ensures 0.0 <= Scale(x, size) <= size
  {
    if 0.0 < x { ScaledOrder(0.0, x, size); }
    if x < 1000.0 { ScaledOrder(x, 1000.0, size); }
  }

  /** Image y points down, northing points up. */
  function ToBox(w: Window, p: PixelBox): Box
    requires ValidWindow(w)
  {
    var width, height := w.lrx - w.ulx, w.uly - w.lry;
    ScaledOrder(p.x1, p.x2, width);
    ScaledOrder(p.y1, p.y2, height);
    Bounds(w.ulx + Scale(p.x1, width), w.uly - Scale(p.y2, height),
           w.ulx + Scale(p.x2, width), w.uly - Scale(p.y1, height))
  }

  function WindowBounds(w: Window): Bounds {
    Bounds(w.ulx, w.lry, w.lrx, w.uly)
  }

  /** Accepted boxes land inside their window. */
  lemma {:induction false} ToBoxInside(w: Window, p: PixelBox)
    requires ValidWindow(w)
    ensures Inside(ToBox(w, p), WindowBounds(w))
  {
    var width, height := w.lrx - w.ulx, w.uly - w.lry;
    ScaledInside(p.x1, width);
    ScaledInside(p.x2, width);
    ScaledInside(p.y1, height);
    ScaledInside(p.y2, height);
  }

  function Unscale(offset: real, size: real): real
    requires 0.0 < size
  {
    offset * 1000.0 / size
  }

  /** Reads a projected box back in thousandths of the image. */
  function FromBox(w: Window, b: Bounds): RawPixels
    requires ValidWindow(w)
  {
    var width, height := w.lrx - w.ulx, w.uly - w.lry;
    Pixels(Unscale(b.west - w.ulx, width), Unscale(w.uly - b.north, height),
           Unscale(b.east - w.ulx, width), Unscale(w.uly - b.south, height))
  }

  lemma {:induction false} UnscaleInverse(x: real, size: real)
    requires 0.0 < size
    ensures Unscale(Scale(x, size), size) == x
  {
    assert Scale(x, size) * 1000.0 == x * size;
    assert x * size / size == x;
  }

  /** The mapping loses nothing. */
  lemma {:induction false} RoundTrip(w: Window, p: PixelBox)
    requires ValidWindow(w)
    ensures FromBox(w, ToBox(w, p)) == p
  {
    var width, height := w.lrx - w.ulx, w.uly - w.lry;
    UnscaleInverse(p.x1, width);
    UnscaleInverse(p.x2, width);
    UnscaleInverse(p.y1, height);
    UnscaleInverse(p.y2, height);
    var b := ToBox(w, p);
    assert b.west - w.ulx == Scale(p.x1, width) && b.east - w.ulx == Scale(p.x2, width);
    assert w.uly - b.north == Scale(p.y1, height) && w.uly - b.south == Scale(p.y2, height);
  }

  // ---- clipping, in image coordinates ----

  lemma {:induction false} ScaledAtMost(x: real, size: real, share: real)
    requires 0.0 < size
    ensures Scale(x, size) <= size * share <==> x <= 1000.0 * share
  {
    var d := x - 1000.0 * share;
    assert d * size == x * size - 1000.0 * (size * share);
    if d > 0.0 { ProductPositive(d, size); }
    if d < 0.0 {
      ProductPositive(-d, size);
      assert (-d) * size == 1000.0 * (size * share) - x * size;
    }
  }

  lemma {:induction false} ScaledRest(x: real, size: real)
    ensures size - Scale(x, size) == Scale(1000.0 - x, size)
  {
    assert (1000.0 - x) * size == 1000.0 * size - x * size;
  }

  /** How far the mapped box stays from each side of its window. */
  lemma {:induction false} Gaps(w: Window, p: PixelBox)
    requires ValidWindow(w)
    ensures var b, width, height := ToBox(w, p), w.lrx - w.ulx, w.uly - w.lry;
            b.west - w.ulx == Scale(p.x1, width) && w.lrx - b.east == width - Scale(p.x2, width) &&
            w.uly - b.north == Scale(p.y1, height) && b.south - w.lry == height - Scale(p.y2, height)
  {
    hide Scale;
  }

  /** The margin of the image, in thousandths, within which a box counts as cut off. */
  function Margin(w: Window): real
    requires w.tilePx > 0
  {
    1000.0 * Max(2.0 / (w.tilePx as real), 0.005)
  }

  /** An edge is reported as clipped exactly when the model's box comes within the margin of
      that side of its image; the top of the image is the north. */
  lemma {:induction false} ClippedInImage(w: Window, p: PixelBox)
    requires ValidWindow(w)
    ensures var clipped := ClippedEdges(ToBox(w, p), w);
            ("west" in clipped <==> p.x1 <= Margin(w)) && ("east" in clipped <==> 1000.0 - p.x2 <= Margin(w)) &&
            ("north" in clipped <==> p.y1 <= Margin(w)) && ("south" in clipped <==> 1000.0 - p.y2 <= Margin(w)) &&
            forall e :: e in clipped ==> e in {"west", "south", "east", "north"}
  {
    hide Scale, ToBox, ClippedEdges, Max;
    var width, height := w.lrx - w.ulx, w.uly - w.lry;
    var share := Max(2.0 / (w.tilePx as real), 0.005);
    Gaps(w, p);
    ScaledAtMost(p.x1, width, share);
    ScaledAtMost(p.y1, height, share);
    ScaledAtMost(1000.0 - p.x2, width, share);
    ScaledAtMost(1000.0 - p.y2, height, share);
    ScaledRest(p.x2, width);
    ScaledRest(p.y2, height);
    EdgesExactly(ToBox(w, p), w);
  }

  lemma {:induction false} EdgesExactly(b: Bounds, w: Window)
    requires w.tilePx > 0
    ensures var clipped := ClippedEdges(b, w);
            var share := Max(2.0 / (w.tilePx as real), 0.005);
            ("west" in clipped <==> b.west - w.ulx <= (w.lrx - w.ulx) * share) &&
            ("east" in clipped <==> w.lrx - b.east <= (w.lrx - w.ulx) * share) &&
            ("north" in clipped <==> w.uly - b.north <= (w.uly - w.lry) * share) &&
            ("south" in clipped <==> b.south - w.lry <= (w.uly - w.lry) * share) &&
            forall e :: e in clipped ==> e in {"west", "south", "east", "north"}
  {
    assert "west"[0] == 'w' && "east"[0] == 'e' && "north"[0] == 'n' && "south"[0] == 's';
  }

  // ---- rows ----

  function ClassOf(changeType: string): string {
    if changeType in CHANGE_CLASSES then CHANGE_CLASSES[changeType] else ""
  }

  function ToRow(w: Window, c: Change): Row
    requires ValidWindow(w)
  {
    Row(w.id, c.concept, ClassOf(c.changeType), c.changeType, c.confidence,
        c.before, c.after, c.evidence, ToBox(w, c.box))
  }

  /** The row says what the change says, about its window, with the class of its type; the
      box can be read back. */
  lemma {:induction false} RowExact(w: Window, c: Change)
    requires ValidWindow(w)
    ensures var r := ToRow(w, c);
            r.tile == w.id && r.concept == c.concept && r.changeType == c.changeType && r.confidence == c.confidence &&
            r.before == c.before && r.after == c.after && r.evidence == c.evidence && FromBox(w, r.box) == c.box &&
            (r.changeClass == "appeared" <==> c.changeType in {"new_building", "appearance"}) &&
            (r.changeClass == "disappeared" <==> c.changeType in {"demolition", "disappearance"}) &&
            (r.changeClass == "changed" <==> c.changeType in {"extension", "roof_change", "site_work"})
  {
    hide ToBox, FromBox;
    RoundTrip(w, c.box);
    ClassExact(c.changeType);
  }

  lemma {:induction false} ClassExact(t: string)
    ensures (ClassOf(t) == "appeared" <==> t in {"new_building", "appearance"}) &&
            (ClassOf(t) == "disappeared" <==> t in {"demolition", "disappearance"}) &&
            (ClassOf(t) == "changed" <==> t in {"extension", "roof_change", "site_work"})
  {
    assert "appeared"[0] == 'a' && "disappeared"[0] == 'd' && "changed"[0] == 'c';
  }

  function ToRows(w: Window, changes: seq<Change>): (rows: seq<Row>)
    requires ValidWindow(w)
    ensures |rows| == |changes|
    ensures forall k :: 0 <= k < |changes| ==> rows[k] == ToRow(w, changes[k])
  {
    seq(|changes|, k requires 0 <= k < |changes| => ToRow(w, changes[k]))
  }

  method CandidateRows(w: Window, changes: seq<Change>) returns (rows: seq<Row>)
    requires ValidWindow(w)
    ensures rows == ToRows(w, changes)
  {
    rows := [];
    for k := 0 to |changes|
      invariant rows == ToRows(w, changes[..k])
    {
      rows := rows + [ToRow(w, changes[k])];
    }
    assert changes[..|changes|] == changes;
  }
}
