/** The DXF reader of the upload pipeline, exactly as written: the text is split into trimmed
    lines and EVERY line (value lines included) is tested as a group code, with look-ahead at
    fixed line offsets for ordinates. */
module Dxf {
  import opened Wrappers
  import opened Text

  datatype Point = Point(x: real, y: real)

  /** The two geometry kinds the reader emits. */
  datatype Geometry = LineString(points: seq<Point>) | Polygon(rings: seq<seq<Point>>)

  /** An emitted feature; its only property is `layer`. */
  datatype Feature = Feature(geometry: Geometry, layer: string)

  /** `parseFloat` and `parseInt` of the JavaScript runtime; `None` is NaN. */
  datatype Numerics = Numerics(parseFloat: string -> Option<real>, parseInt: string -> Option<int>)

  /** The reader's state: current entity name (`null` at first), accumulated polyline vertices,
      current layer name, closed flag, and the features emitted so far. */
  datatype ParseState = ParseState(
    entity: Option<string>,
    vertices: seq<Point>,
    layer: string,
    closed: bool,
    features: seq<Feature>)

  datatype ParseError = NoValidGeometry

  const DefaultLayer: string := "Default"
  const Polyline: string := "LWPOLYLINE"
  const Line: string := "LINE"

  const Initial: ParseState := ParseState(None, [], DefaultLayer, false, [])

  /** `value || 'Default'`: the layer name a code-8 record sets. */
  function LayerName(value: string): string {
    if value == "" then DefaultLayer else value
  }

  /** `(parseInt(value) & 1) === 1`: NaN gives 0, and for an integer the low bit of its 32-bit
      two's complement form is its parity. */
  predicate ClosedBit(flags: Option<int>) {
    flags.Some? && flags.value % 2 == 1
  }

  /** Forces ring closure: the vertex list, plus a copy of its first vertex when that differs
      from the last one. */
  function CloseRing(v: seq<Point>): (ring: seq<Point>)
    requires |v| >= 1
    ensures |ring| >= |v| && ring[..|v|] == v
    ensures ring[0] == v[0] && ring[|ring| - 1] == v[0]
    ensures |ring| == |v| <==> v[|v| - 1] == v[0]
    ensures |ring| <= |v| + 1
  {
    if v[0] != v[|v| - 1] then v + [v[0]] else v
  }

  /** A ring as the reader builds it: at least three points, first equal to last. */
  predicate IsClosedRing(ring: seq<Point>) {
    |ring| >= 3 && ring[0] == ring[|ring| - 1]
  }

  /** The shape every emitted feature has. */
  predicate WellFormed(f: Feature) {
    f.layer != ""
    && match f.geometry
       case LineString(points) => |points| >= 2
       case Polygon(rings) => |rings| == 1 && IsClosedRing(rings[0])
  }

  /** The feature (at most one) a code-0 record emits for the pending entity: nothing unless it
      is a polyline with two or more vertices; a closed one with more than two vertices becomes
      a one-ring Polygon whose ring is the vertex list closed up; any other a LineString of
      exactly the vertices, in order. */
  function Emit(st: ParseState): (out: seq<Feature>)
    ensures |out| <= 1
    ensures |out| == 1 <==> st.entity == Some(Polyline) && |st.vertices| >= 2
    ensures forall f :: f in out ==> f.layer == st.layer
    ensures |out| == 1 && st.closed && |st.vertices| > 2 ==>
      out[0].geometry == Polygon([CloseRing(st.vertices)])
      && IsClosedRing(out[0].geometry.rings[0])
    ensures |out| == 1 && !(st.closed && |st.vertices| > 2) ==>
      out[0].geometry == LineString(st.vertices)
  {
    if st.entity == Some(Polyline) && |st.vertices| >= 2 then
      if st.closed && |st.vertices| > 2 then
        [Feature(Polygon([CloseRing(st.vertices)]), st.layer)]
      else
        [Feature(LineString(st.vertices), st.layer)]
    else
      []
  }

  /** One record: `code` and `value` are the line tested and the line after it; `y` is the line
      the polyline branch reads its Y ordinate from and `ends` the three lines the LINE branch
      reads (Y1, X2, Y2), when they exist. The five tests follow each other in this order and
      each sees the state the previous one left. */
  function Apply(st: ParseState, code: string, value: string, y: Option<string>,
                 ends: Option<(string, string, string)>, num: Numerics): (r: ParseState)
    ensures |st.features| <= |r.features| <= |st.features| + 1
    ensures r.features[..|st.features|] == st.features
    ensures code == "0" ==>
      r == ParseState(Some(value), [], st.layer, false, st.features + Emit(st))
    ensures code == "8" ==> r == st.(layer := LayerName(value))
    ensures code == "70" ==>
      r == if st.entity == Some(Polyline) then st.(closed := ClosedBit(num.parseInt(value))) else st
    ensures code == "10" && st.entity == Some(Polyline) ==>
      r == st.(vertices := st.vertices + (
        if y.Some? && num.parseFloat(value).Some? && num.parseFloat(y.value).Some?
        then [Point(num.parseFloat(value).value, num.parseFloat(y.value).value)] else []))
    ensures code == "10" && st.entity == Some(Line) ==>
      r.entity == st.entity && r.vertices == st.vertices && r.layer == st.layer
      && r.closed == st.closed
      && (|r.features| > |st.features| <==>
          ends.Some? && num.parseFloat(value).Some? && num.parseFloat(ends.value.0).Some?
          && num.parseFloat(ends.value.1).Some? && num.parseFloat(ends.value.2).Some?)
      && (|r.features| > |st.features| ==>
          r.features[|st.features|] == Feature(LineString([
            Point(num.parseFloat(value).value, num.parseFloat(ends.value.0).value),
            Point(num.parseFloat(ends.value.1).value, num.parseFloat(ends.value.2).value)]),
            st.layer))
    ensures code == "10" && st.entity != Some(Polyline) && st.entity != Some(Line) ==> r == st
    ensures code !in {"0", "8", "70", "10"} ==> r == st
  {
    // group code 0: emit the pending entity, then start a new one
    var s1 := if code == "0" then ParseState(Some(value), [], st.layer, false, st.features + Emit(st)) else st;
    // group code 8: layer name
    var s2 := if code == "8" then s1.(layer := LayerName(value)) else s1;
    // group code 70 of a polyline: closed flag
    var s3 := if code == "70" && s2.entity == Some(Polyline) then s2.(closed := ClosedBit(num.parseInt(value))) else s2;
    // group code 10 of a polyline: one vertex
    var s4 :=
      if code == "10" && s3.entity == Some(Polyline) then
        var x := num.parseFloat(value);
        if y.Some? && x.Some? && num.parseFloat(y.value).Some? then
          s3.(vertices := s3.vertices + [Point(x.value, num.parseFloat(y.value).value)])
        else s3
      else s3;
    // group code 10 of a line: both end points at once
    if s4.entity == Some(Line) && code == "10" then
      var x1 := num.parseFloat(value);
      if ends.Some? then
        var y1 := num.parseFloat(ends.value.0);
        var x2 := num.parseFloat(ends.value.1);
        var y2 := num.parseFloat(ends.value.2);
        if x1.Some? && y1.Some? && x2.Some? && y2.Some? then
          s4.(features := s4.features + [Feature(LineString([Point(x1.value, y1.value), Point(x2.value, y2.value)]), s4.layer)])
        else s4
      else s4
    else s4
  }

  /** The trimmed lines of the text: `text.split('\n').map(l => l.trim())`. */
  function Lines(text: string): (lines: seq<string>)
    ensures |lines| >= 1
  {
    var parts := Split(text, '\n');
    seq(|parts|, i requires 0 <= i < |parts| => Trim(parts[i]))
  }

  /** Number of loop iterations: `i` runs over `0 .. lines.length - 2`. */
  function Steps(lines: seq<string>): nat {
    if |lines| == 0 then 0 else |lines| - 1
  }

  /** Iteration `i` as written: the Y ordinate of a polyline vertex is read at line i+3, and a
      LINE's Y1, X2, Y2 at lines i+2, i+4, i+6. */
  function Step(lines: seq<string>, i: nat, st: ParseState, num: Numerics): ParseState
    requires i < Steps(lines)
  {
    Apply(st, lines[i], lines[i + 1],
      if i + 3 < |lines| then Some(lines[i + 3]) else None,
      if i + 6 < |lines| then Some((lines[i + 2], lines[i + 4], lines[i + 6])) else None,
      num)
  }

  /** The state after the first `n` iterations. */
  function RunTo(lines: seq<string>, n: nat, num: Numerics): ParseState
    requires n <= Steps(lines)
  {
    if n == 0 then Initial else Step(lines, n - 1, RunTo(lines, n - 1, num), num)
  }

  /** The reader on a list of lines: the features emitted by the whole loop, or an error when
      there are none. */
  function ParseLines(lines: seq<string>, num: Numerics): (r: Result<seq<Feature>, ParseError>)
    ensures r.Err? <==> RunTo(lines, Steps(lines), num).features == []
    ensures r.Ok? ==> r.value == RunTo(lines, Steps(lines), num).features && |r.value| >= 1
  {
    var st := RunTo(lines, Steps(lines), num);
    if |st.features| == 0 then Err(NoValidGeometry) else Ok(st.features)
  }

  /** `simpleDXFParser(dxfText)`. */
  function SimpleDxfParser(text: string, num: Numerics): (r: Result<seq<Feature>, ParseError>)
    ensures r == ParseLines(Lines(text), num)
  {
    ParseLines(Lines(text), num)
  }

  /** The features appended by iteration `m`. */
  function NewAt(lines: seq<string>, m: nat, num: Numerics): seq<Feature>
    requires m < Steps(lines)
  {
    var before := RunTo(lines, m, num);
    RunTo(lines, m + 1, num).features[|before.features|..]
  }

  /** No line in `lo .. hi-1` is the text `"8"`. */
  ghost predicate NoCode8(lines: seq<string>, lo: int, hi: int)
    requires 0 <= lo && hi <= |lines|
  {
    forall k :: lo <= k < hi ==> lines[k] != "8"
  }

  /** The layer in force before iteration `n`, defined without reference to the loop: the value
      after the last line `"8"` among lines 0..n-1 (`'Default'` if that value is empty), or
      `'Default'` if there is no such line. */
  ghost predicate LastLayerIs(lines: seq<string>, n: nat, name: string)
    requires n <= Steps(lines)
  {
    (NoCode8(lines, 0, n) && name == DefaultLayer)
    || (exists j :: 0 <= j < n && lines[j] == "8" && NoCode8(lines, j + 1, n) && name == LayerName(lines[j + 1]))
  }

  /** The layer the reader holds is the last code-8 value seen (or `'Default'`). */
  lemma {:induction false} LayerTracksLastCode8(lines: seq<string>, n: nat, num: Numerics)
    requires n <= Steps(lines)
    ensures LastLayerIs(lines, n, RunTo(lines, n, num).layer)
    decreases n
  {
    if n > 0 {
      var i := n - 1;
      LayerTracksLastCode8(lines, i, num);
      var st := RunTo(lines, i, num);
      var layer := RunTo(lines, n, num).layer;
      StepLayer(lines, i, st, num);
      if lines[i] == "8" {
        assert NoCode8(lines, n, n);
        assert 0 <= i < n && lines[i] == "8" && NoCode8(lines, i + 1, n) && layer == LayerName(lines[i + 1]);
      } else if NoCode8(lines, 0, i) && st.layer == DefaultLayer {
        assert NoCode8(lines, 0, n);
      } else {
        var j :| 0 <= j < i && lines[j] == "8" && NoCode8(lines, j + 1, i) && st.layer == LayerName(lines[j + 1]);
        assert NoCode8(lines, j + 1, n);
        assert 0 <= j < n && lines[j] == "8" && NoCode8(lines, j + 1, n) && layer == LayerName(lines[j + 1]);
      }
    }
  }


  /** An iteration changes the layer only on a line `"8"`, to the value after it. */
  lemma StepLayer(lines: seq<string>, i: nat, st: ParseState, num: Numerics)
    requires i < Steps(lines)
    ensures Step(lines, i, st, num).layer == if lines[i] == "8" then LayerName(lines[i + 1]) else st.layer
  {
  }

  /** What one iteration emits: at most one feature, whose layer is the last code-8 value (or
      `'Default'`); a Polygon only on a line `"0"`; anything else only on a line `"0"` or on a
      line `"10"` inside a LINE entity, and then a LineString of exactly two points. */
  lemma EmissionAt(lines: seq<string>, m: nat, num: Numerics)
    requires m < Steps(lines)
    ensures RunTo(lines, m + 1, num).features == RunTo(lines, m, num).features + NewAt(lines, m, num)
    ensures |NewAt(lines, m, num)| <= 1
    ensures forall f :: f in NewAt(lines, m, num) ==> LastLayerIs(lines, m, f.layer)
    ensures NewAt(lines, m, num) != [] ==>
      lines[m] == "0" || (lines[m] == "10" && RunTo(lines, m, num).entity == Some(Line))
    ensures lines[m] == "0" ==> NewAt(lines, m, num) == Emit(RunTo(lines, m, num))
    ensures lines[m] != "0" ==>
      forall f :: f in NewAt(lines, m, num) ==> f.geometry.LineString? && |f.geometry.points| == 2
  {
    var before := RunTo(lines, m, num);
    var after := RunTo(lines, m + 1, num);
    assert after == Step(lines, m, before, num);
    assert after.features == before.features + after.features[|before.features|..];
    LayerTracksLastCode8(lines, m, num);
  }

  /** An entity the reader does not recognise is dropped silently: while neither the pending
      entity nor any entity named after a line `"0"` is LWPOLYLINE or LINE, nothing is emitted. */
  lemma {:induction false} OnlyKnownEntitiesEmit(lines: seq<string>, m: nat, n: nat, num: Numerics)
    requires m <= n <= Steps(lines)
    requires RunTo(lines, m, num).entity != Some(Polyline) && RunTo(lines, m, num).entity != Some(Line)
    requires forall i :: m <= i < n && lines[i] == "0" ==> lines[i + 1] != Polyline && lines[i + 1] != Line
    ensures RunTo(lines, n, num).features == RunTo(lines, m, num).features
    ensures RunTo(lines, n, num).entity != Some(Polyline) && RunTo(lines, n, num).entity != Some(Line)
    decreases n - m
  {
    if m < n {
      OnlyKnownEntitiesEmit(lines, m, n - 1, num);
      var st := RunTo(lines, n - 1, num);
      assert RunTo(lines, n, num) == Step(lines, n - 1, st, num);
      if lines[n - 1] == "0" {
        assert Emit(st) == [];
      }
    }
  }

  /** One record keeps every accumulated feature well formed and the layer name non-empty. */
  lemma ApplyWellFormed(st: ParseState, code: string, value: string, y: Option<string>,
                        ends: Option<(string, string, string)>, num: Numerics)
    requires st.layer != "" && forall f :: f in st.features ==> WellFormed(f)
    ensures var r := Apply(st, code, value, y, ends, num);
      r.layer != "" && forall f :: f in r.features ==> WellFormed(f)
  {
    var r := Apply(st, code, value, y, ends, num);
    var added := r.features[|st.features|..];
    assert r.features == st.features + added;
    forall f | f in added ensures WellFormed(f) {
      if code == "0" {
        assert added == Emit(st);
      }
    }
  }

  /** Every feature the reader accumulates is well formed: a LineString of at least two points,
      or a Polygon with one closed ring of at least three points, and a non-empty layer. */
  lemma {:induction false} AllWellFormed(lines: seq<string>, n: nat, num: Numerics)
    requires n <= Steps(lines)
    ensures RunTo(lines, n, num).layer != ""
    ensures forall f :: f in RunTo(lines, n, num).features ==> WellFormed(f)
    decreases n
  {
    if n > 0 {
      AllWellFormed(lines, n - 1, num);
      var i := n - 1;
      ApplyWellFormed(RunTo(lines, i, num), lines[i], lines[i + 1],
        if i + 3 < |lines| then Some(lines[i + 3]) else None,
        if i + 6 < |lines| then Some((lines[i + 2], lines[i + 4], lines[i + 6])) else None,
        num);
    }
  }

  /** The reader's result: an error exactly when no feature was emitted; otherwise well-formed
      features only. */
  lemma ParseResult(text: string, num: Numerics)
    ensures var lines := Lines(text);
      (SimpleDxfParser(text, num).Err? <==> RunTo(lines, Steps(lines), num).features == [])
      && (SimpleDxfParser(text, num).Ok? ==>
            |SimpleDxfParser(text, num).value| >= 1
            && forall f :: f in SimpleDxfParser(text, num).value ==> WellFormed(f))
  {
    var lines := Lines(text);
    AllWellFormed(lines, Steps(lines), num);
  }
}
