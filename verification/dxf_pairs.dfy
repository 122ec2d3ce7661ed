/** The DXF reader as evidently intended: the line list is read as (group code, value) pairs,
    so a value line is never taken for a group code, and every ordinate is read from the value
    of the record that holds it. The record semantics (`Dxf.Apply`) are shared with the reader
    as written; only the stride and the look-ahead offsets differ. */
module DxfPairs {
  import opened Wrappers
  import opened Text
  import opened Dxf

  /** The records of a line list: line 2k is a group code and line 2k+1 its value; an odd last
      line has no value and is ignored. */
  function Pairs(lines: seq<string>): (pairs: seq<(string, string)>)
    ensures |pairs| == |lines| / 2
    ensures forall k :: 0 <= k < |pairs| ==> pairs[k] == (lines[2 * k], lines[2 * k + 1])
  {
    seq(|lines| / 2, k requires 0 <= k < |lines| / 2 => (lines[2 * k], lines[2 * k + 1]))
  }

  /** Record `k`: a polyline's Y ordinate is the value of the next record (line 2k+3), and a
      LINE's Y1, X2, Y2 are the values of the next three records (lines 2k+3, 2k+5, 2k+7). */
  function PairStep(pairs: seq<(string, string)>, k: nat, st: ParseState, num: Numerics): ParseState
    requires k < |pairs|
  {
    Apply(st, pairs[k].0, pairs[k].1,
      if k + 1 < |pairs| then Some(pairs[k + 1].1) else None,
      if k + 3 < |pairs| then Some((pairs[k + 1].1, pairs[k + 2].1, pairs[k + 3].1)) else None,
      num)
  }

  function PairRunTo(pairs: seq<(string, string)>, n: nat, num: Numerics): ParseState
    requires n <= |pairs|
  {
    if n == 0 then Initial else PairStep(pairs, n - 1, PairRunTo(pairs, n - 1, num), num)
  }

  function ParsePairs(lines: seq<string>, num: Numerics): (r: Result<seq<Feature>, ParseError>)
    ensures var pairs := Pairs(lines);
      (r.Err? <==> PairRunTo(pairs, |pairs|, num).features == [])
      && (r.Ok? ==> r.value == PairRunTo(pairs, |pairs|, num).features && |r.value| >= 1)
  {
    var pairs := Pairs(lines);
    var st := PairRunTo(pairs, |pairs|, num);
    if |st.features| == 0 then Err(NoValidGeometry) else Ok(st.features)
  }

  /** The corrected reader on a DXF text. */
  function Parse(text: string, num: Numerics): (r: Result<seq<Feature>, ParseError>)
    ensures r == ParsePairs(Lines(text), num)
  {
    ParsePairs(Lines(text), num)
  }

  /** What record `k` emits: at most one feature, only when its group-code line (line 2k, never
      a value line) is `"0"`, or is `"10"` inside a LINE entity; in the second case a two-point
      LineString whose ordinates are the values on lines 2k+1, 2k+3, 2k+5 and 2k+7. */
  lemma PairEmissionAt(lines: seq<string>, k: nat, num: Numerics)
    requires k < |lines| / 2
    ensures var pairs := Pairs(lines);
      var before := PairRunTo(pairs, k, num);
      var after := PairRunTo(pairs, k + 1, num);
      |before.features| <= |after.features| <= |before.features| + 1
      && after.features[..|before.features|] == before.features
      && (|after.features| > |before.features| ==>
            lines[2 * k] == "0" || (lines[2 * k] == "10" && before.entity == Some(Line)))
      && (lines[2 * k] == "0" ==> after.features == before.features + Emit(before))
      && (lines[2 * k] == "10" && before.entity == Some(Line) && |after.features| > |before.features| ==>
            2 * k + 7 < |lines|
            && after.features[|before.features|] == Feature(LineString([
                 Point(num.parseFloat(lines[2 * k + 1]).value, num.parseFloat(lines[2 * k + 3]).value),
                 Point(num.parseFloat(lines[2 * k + 5]).value, num.parseFloat(lines[2 * k + 7]).value)]),
                 before.layer))
  {
  }

  /** Every feature the corrected reader accumulates is well formed. */
  lemma {:induction false} PairsWellFormed(pairs: seq<(string, string)>, n: nat, num: Numerics)
    requires n <= |pairs|
    ensures PairRunTo(pairs, n, num).layer != ""
    ensures forall f :: f in PairRunTo(pairs, n, num).features ==> WellFormed(f)
    decreases n
  {
    if n > 0 {
      PairsWellFormed(pairs, n - 1, num);
      var k := n - 1;
      ApplyWellFormed(PairRunTo(pairs, k, num), pairs[k].0, pairs[k].1,
        if k + 1 < |pairs| then Some(pairs[k + 1].1) else None,
        if k + 3 < |pairs| then Some((pairs[k + 1].1, pairs[k + 2].1, pairs[k + 3].1)) else None,
        num);
    }
  }

  // ---------------------------------------------------------------------------------------
  // Counterexamples: the reader as written against the corrected reader, on concrete input.
  // ---------------------------------------------------------------------------------------

  /** The value of a decimal digit. */
  function DigitValue(c: char): int {
    c as int - '0' as int
  }

  /** A numeric conversion that agrees with `parseFloat`/`parseInt` on every line of the examples
      below, whose numbers all have one or two digits: such a number has its decimal value, and
      every other line (entity names, `EOF`) is NaN. It is not the runtime's conversion in
      general. */
  function SmallDecimal(s: string): Option<int> {
    if |s| == 1 && IsDigit(s[0]) then Some(DigitValue(s[0]))
    else if |s| == 2 && IsDigit(s[0]) && IsDigit(s[1]) then Some(10 * DigitValue(s[0]) + DigitValue(s[1]))
    else None
  }

  /** The conversions of the examples, built on `SmallDecimal`. */
  const Decimal: Numerics :=
    Numerics(s => if SmallDecimal(s).Some? then Some(SmallDecimal(s).value as real) else None, SmallDecimal)

  /** A standard LINE entity from (5,6) to (7,8): codes 10/20 and 11/21 with their values. */
  const LineExample: seq<string> := ["0", "LINE", "10", "5", "20", "6", "11", "7", "21", "8", "0", "EOF"]

  /** The reader as written after its first 2 steps over `LineExample`. */
  lemma LineAsWritten2()
    ensures RunTo(LineExample, 2, Decimal) == ParseState(Some("LINE"), [], "Default", false, [])
  {
    var S := LineExample;
    assert S[0] == "0" && S[1] == "LINE";
    assert RunTo(S, 1, Decimal) == Step(S, 0, RunTo(S, 0, Decimal), Decimal);
    assert RunTo(S, 1, Decimal) == ParseState(Some("LINE"), [], "Default", false, []);
    assert S[1] == "LINE" && S[2] == "10";
    assert RunTo(S, 2, Decimal) == Step(S, 1, RunTo(S, 1, Decimal), Decimal);
  }

  /** The reader as written after its first 4 steps over `LineExample`. */
  lemma LineAsWritten4()
    ensures RunTo(LineExample, 4, Decimal) == ParseState(Some("LINE"), [], "Default", false, [Feature(LineString([Point(5.0, 20.0), Point(11.0, 21.0)]), "Default")])
  {
    LineAsWritten2();
    var S := LineExample;
    assert S[2] == "10" && S[3] == "5"
      && S[5] == "6"
      && S[4] == "20" && S[6] == "11" && S[8] == "21"
      && Decimal.parseFloat("11") == Some(11.0)
      && Decimal.parseFloat("20") == Some(20.0)
      && Decimal.parseFloat("21") == Some(21.0)
      && Decimal.parseFloat("5") == Some(5.0)
      && Decimal.parseFloat("6") == Some(6.0);
    assert RunTo(S, 3, Decimal) == Step(S, 2, RunTo(S, 2, Decimal), Decimal);
    assert RunTo(S, 3, Decimal) == ParseState(Some("LINE"), [], "Default", false, [Feature(LineString([Point(5.0, 20.0), Point(11.0, 21.0)]), "Default")]);
    assert S[3] == "5" && S[4] == "20";
    assert RunTo(S, 4, Decimal) == Step(S, 3, RunTo(S, 3, Decimal), Decimal);
  }

  /** The reader as written after its first 6 steps over `LineExample`. */
  lemma LineAsWritten6()
    ensures RunTo(LineExample, 6, Decimal) == ParseState(Some("LINE"), [], "Default", false, [Feature(LineString([Point(5.0, 20.0), Point(11.0, 21.0)]), "Default")])
  {
    LineAsWritten4();
    var S := LineExample;
    assert S[4] == "20" && S[5] == "6";
    assert RunTo(S, 5, Decimal) == Step(S, 4, RunTo(S, 4, Decimal), Decimal);
    assert RunTo(S, 5, Decimal) == ParseState(Some("LINE"), [], "Default", false, [Feature(LineString([Point(5.0, 20.0), Point(11.0, 21.0)]), "Default")]);
    assert S[5] == "6" && S[6] == "11";
    assert RunTo(S, 6, Decimal) == Step(S, 5, RunTo(S, 5, Decimal), Decimal);
  }

  /** The reader as written after its first 8 steps over `LineExample`. */
  lemma LineAsWritten8()
    ensures RunTo(LineExample, 8, Decimal) == ParseState(Some("LINE"), [], "Default", false, [Feature(LineString([Point(5.0, 20.0), Point(11.0, 21.0)]), "Default")])
  {
    LineAsWritten6();
    var S := LineExample;
    assert S[6] == "11" && S[7] == "7";
    assert RunTo(S, 7, Decimal) == Step(S, 6, RunTo(S, 6, Decimal), Decimal);
    assert RunTo(S, 7, Decimal) == ParseState(Some("LINE"), [], "Default", false, [Feature(LineString([Point(5.0, 20.0), Point(11.0, 21.0)]), "Default")]);
    assert S[7] == "7" && S[8] == "21";
    assert RunTo(S, 8, Decimal) == Step(S, 7, RunTo(S, 7, Decimal), Decimal);
  }

  /** The reader as written after its first 10 steps over `LineExample`. */
  lemma LineAsWritten10()
    ensures RunTo(LineExample, 10, Decimal) == ParseState(Some("LINE"), [], "0", false, [Feature(LineString([Point(5.0, 20.0), Point(11.0, 21.0)]), "Default")])
  {
    LineAsWritten8();
    var S := LineExample;
    assert S[8] == "21" && S[9] == "8";
    assert RunTo(S, 9, Decimal) == Step(S, 8, RunTo(S, 8, Decimal), Decimal);
    assert RunTo(S, 9, Decimal) == ParseState(Some("LINE"), [], "Default", false, [Feature(LineString([Point(5.0, 20.0), Point(11.0, 21.0)]), "Default")]);
    assert S[9] == "8" && S[10] == "0";
    assert RunTo(S, 10, Decimal) == Step(S, 9, RunTo(S, 9, Decimal), Decimal);
  }

  /** The reader as written after its first 11 steps over `LineExample`. */
  lemma LineAsWritten11()
    ensures RunTo(LineExample, 11, Decimal) == ParseState(Some("EOF"), [], "0", false, [Feature(LineString([Point(5.0, 20.0), Point(11.0, 21.0)]), "Default")])
  {
    LineAsWritten10();
    var S := LineExample;
    assert S[10] == "0" && S[11] == "EOF";
    assert RunTo(S, 11, Decimal) == Step(S, 10, RunTo(S, 10, Decimal), Decimal);
  }

  /** As written, the LINE branch reads its Y1, X2 and Y2 from the group-code lines "20", "11"
      and "21", so the segment (5,6)-(7,8) comes out as (5,20)-(11,21). */
  lemma LineOffsetsAsWritten()
    ensures ParseLines(LineExample, Decimal)
         == Ok([Feature(LineString([Point(5.0, 20.0), Point(11.0, 21.0)]), DefaultLayer)])
  {
    LineAsWritten11();
  }

  /** The records of `LineExample`. */
  lemma LinePairs()
    ensures Pairs(LineExample) == [("0", "LINE"), ("10", "5"), ("20", "6"), ("11", "7"), ("21", "8"), ("0", "EOF")]
  {
  }

  /** The corrected reader after its first 2 records over `LineExample`. */
  lemma LineCorrected2()
    ensures PairRunTo(Pairs(LineExample), 2, Decimal) == ParseState(Some("LINE"), [], "Default", false, [Feature(LineString([Point(5.0, 6.0), Point(7.0, 8.0)]), "Default")])
  {
    LinePairs();
    var S := Pairs(LineExample);
    assert S[0] == ("0", "LINE");
    assert PairRunTo(S, 1, Decimal) == PairStep(S, 0, PairRunTo(S, 0, Decimal), Decimal);
    assert PairRunTo(S, 1, Decimal) == ParseState(Some("LINE"), [], "Default", false, []);
    assert S[1] == ("10", "5")
      && S[2].1 == "6"
      && Decimal.parseFloat("5") == Some(5.0)
      && Decimal.parseFloat("6") == Some(6.0)
      && Decimal.parseFloat("7") == Some(7.0)
      && Decimal.parseFloat("8") == Some(8.0);
    assert PairRunTo(S, 2, Decimal) == PairStep(S, 1, PairRunTo(S, 1, Decimal), Decimal);
  }

  /** The corrected reader after its first 4 records over `LineExample`. */
  lemma LineCorrected4()
    ensures PairRunTo(Pairs(LineExample), 4, Decimal) == ParseState(Some("LINE"), [], "Default", false, [Feature(LineString([Point(5.0, 6.0), Point(7.0, 8.0)]), "Default")])
  {
    LinePairs();
    LineCorrected2();
    var S := Pairs(LineExample);
    assert S[2] == ("20", "6");
    assert PairRunTo(S, 3, Decimal) == PairStep(S, 2, PairRunTo(S, 2, Decimal), Decimal);
    assert PairRunTo(S, 3, Decimal) == ParseState(Some("LINE"), [], "Default", false, [Feature(LineString([Point(5.0, 6.0), Point(7.0, 8.0)]), "Default")]);
    assert S[3] == ("11", "7");
    assert PairRunTo(S, 4, Decimal) == PairStep(S, 3, PairRunTo(S, 3, Decimal), Decimal);
  }

  /** The corrected reader after its first 6 records over `LineExample`. */
  lemma LineCorrected6()
    ensures PairRunTo(Pairs(LineExample), 6, Decimal) == ParseState(Some("EOF"), [], "Default", false, [Feature(LineString([Point(5.0, 6.0), Point(7.0, 8.0)]), "Default")])
  {
    LinePairs();
    LineCorrected4();
    var S := Pairs(LineExample);
    assert S[4] == ("21", "8");
    assert PairRunTo(S, 5, Decimal) == PairStep(S, 4, PairRunTo(S, 4, Decimal), Decimal);
    assert PairRunTo(S, 5, Decimal) == ParseState(Some("LINE"), [], "Default", false, [Feature(LineString([Point(5.0, 6.0), Point(7.0, 8.0)]), "Default")]);
    assert S[5] == ("0", "EOF");
    assert PairRunTo(S, 6, Decimal) == PairStep(S, 5, PairRunTo(S, 5, Decimal), Decimal);
  }

  /** The corrected reader yields the segment the file describes. */
  lemma LineOffsetsCorrected()
    ensures ParsePairs(LineExample, Decimal)
         == Ok([Feature(LineString([Point(5.0, 6.0), Point(7.0, 8.0)]), DefaultLayer)])
  {
    LineCorrected6();
  }

  /** A closed LWPOLYLINE with vertices (0,0), (10,0), (10,10), (0,0). */
  const SquareExample: seq<string> :=
    ["0", "LWPOLYLINE", "70", "1",
     "10", "0", "20", "0", "10", "10", "20", "0", "10", "10", "20", "10", "10", "0", "20", "0",
     "0", "EOF"]

  /** The reader as written after its first 2 steps over `SquareExample`. */
  lemma SquareAsWritten2()
    ensures RunTo(SquareExample, 2, Decimal) == ParseState(Some("LWPOLYLINE"), [], "Default", false, [])
  {
    var S := SquareExample;
    assert S[0] == "0" && S[1] == "LWPOLYLINE";
    assert RunTo(S, 1, Decimal) == Step(S, 0, RunTo(S, 0, Decimal), Decimal);
    assert RunTo(S, 1, Decimal) == ParseState(Some("LWPOLYLINE"), [], "Default", false, []);
    assert S[1] == "LWPOLYLINE" && S[2] == "70";
    assert RunTo(S, 2, Decimal) == Step(S, 1, RunTo(S, 1, Decimal), Decimal);
  }

  /** The reader as written after its first 4 steps over `SquareExample`. */
  lemma SquareAsWritten4()
    ensures RunTo(SquareExample, 4, Decimal) == ParseState(Some("LWPOLYLINE"), [], "Default", true, [])
  {
    SquareAsWritten2();
    var S := SquareExample;
    assert S[2] == "70" && S[3] == "1"
      && Decimal.parseInt("1") == Some(1);
    assert RunTo(S, 3, Decimal) == Step(S, 2, RunTo(S, 2, Decimal), Decimal);
    assert RunTo(S, 3, Decimal) == ParseState(Some("LWPOLYLINE"), [], "Default", true, []);
    assert S[3] == "1" && S[4] == "10";
    assert RunTo(S, 4, Decimal) == Step(S, 3, RunTo(S, 3, Decimal), Decimal);
  }

  /** The reader as written after its first 6 steps over `SquareExample`. */
  lemma SquareAsWritten6()
    ensures RunTo(SquareExample, 6, Decimal) == ParseState(Some("20"), [], "Default", false, [])
  {
    SquareAsWritten4();
    var S := SquareExample;
    assert S[4] == "10" && S[5] == "0"
      && S[7] == "0"
      && Decimal.parseFloat("0") == Some(0.0);
    assert RunTo(S, 5, Decimal) == Step(S, 4, RunTo(S, 4, Decimal), Decimal);
    assert RunTo(S, 5, Decimal) == ParseState(Some("LWPOLYLINE"), [Point(0.0, 0.0)], "Default", true, []);
    assert S[5] == "0" && S[6] == "20";
    assert RunTo(S, 6, Decimal) == Step(S, 5, RunTo(S, 5, Decimal), Decimal);
  }

  /** As written, the X value "0" of the first vertex is taken for group code 0: the entity ends
      after one vertex, the rest is read as an unknown entity, and nothing is emitted. */
  lemma StrideAsWritten()
    ensures ParseLines(SquareExample, Decimal) == Err(NoValidGeometry)
  {
    SquareAsWritten6();
    SquareTailUnknown();
    OnlyKnownEntitiesEmit(SquareExample, 6, 21, Decimal);
  }

  /** After its sixth line, no line `"0"` of `SquareExample` is followed by a known entity name. */
  lemma SquareTailUnknown()
    ensures forall i :: 6 <= i < 21 && SquareExample[i] == "0" ==>
      SquareExample[i + 1] != Polyline && SquareExample[i + 1] != Line
  {
  }

  /** The records of `SquareExample`. */
  lemma SquarePairs()
    ensures Pairs(SquareExample) == [("0", "LWPOLYLINE"), ("70", "1"), ("10", "0"), ("20", "0"), ("10", "10"),
      ("20", "0"), ("10", "10"), ("20", "10"), ("10", "0"), ("20", "0"), ("0", "EOF")]
  {
  }

  /** The corrected reader after its first 2 records over `SquareExample`. */
  lemma SquareCorrected2()
    ensures PairRunTo(Pairs(SquareExample), 2, Decimal) == ParseState(Some("LWPOLYLINE"), [], "Default", true, [])
  {
    SquarePairs();
    var S := Pairs(SquareExample);
    assert S[0] == ("0", "LWPOLYLINE");
    assert PairRunTo(S, 1, Decimal) == PairStep(S, 0, PairRunTo(S, 0, Decimal), Decimal);
    assert PairRunTo(S, 1, Decimal) == ParseState(Some("LWPOLYLINE"), [], "Default", false, []);
    assert S[1] == ("70", "1")
      && Decimal.parseInt("1") == Some(1);
    assert PairRunTo(S, 2, Decimal) == PairStep(S, 1, PairRunTo(S, 1, Decimal), Decimal);
  }

  /** The corrected reader after its first 4 records over `SquareExample`. */
  lemma SquareCorrected4()
    ensures PairRunTo(Pairs(SquareExample), 4, Decimal) == ParseState(Some("LWPOLYLINE"), [Point(0.0, 0.0)], "Default", true, [])
  {
    SquarePairs();
    SquareCorrected2();
    var S := Pairs(SquareExample);
    assert S[2] == ("10", "0")
      && S[3].1 == "0"
      && Decimal.parseFloat("0") == Some(0.0);
    assert PairRunTo(S, 3, Decimal) == PairStep(S, 2, PairRunTo(S, 2, Decimal), Decimal);
    assert PairRunTo(S, 3, Decimal) == ParseState(Some("LWPOLYLINE"), [Point(0.0, 0.0)], "Default", true, []);
    assert S[3] == ("20", "0");
    assert PairRunTo(S, 4, Decimal) == PairStep(S, 3, PairRunTo(S, 3, Decimal), Decimal);
  }

  /** The corrected reader after its first 6 records over `SquareExample`. */
  lemma SquareCorrected6()
    ensures PairRunTo(Pairs(SquareExample), 6, Decimal) == ParseState(Some("LWPOLYLINE"), [Point(0.0, 0.0), Point(10.0, 0.0)], "Default", true, [])
  {
    SquarePairs();
    SquareCorrected4();
    var S := Pairs(SquareExample);
    assert S[4] == ("10", "10")
      && S[5].1 == "0"
      && Decimal.parseFloat("0") == Some(0.0)
      && Decimal.parseFloat("10") == Some(10.0);
    assert PairRunTo(S, 5, Decimal) == PairStep(S, 4, PairRunTo(S, 4, Decimal), Decimal);
    assert PairRunTo(S, 5, Decimal) == ParseState(Some("LWPOLYLINE"), [Point(0.0, 0.0), Point(10.0, 0.0)], "Default", true, []);
    assert S[5] == ("20", "0");
    assert PairRunTo(S, 6, Decimal) == PairStep(S, 5, PairRunTo(S, 5, Decimal), Decimal);
  }

  /** The corrected reader after its first 8 records over `SquareExample`. */
  lemma SquareCorrected8()
    ensures PairRunTo(Pairs(SquareExample), 8, Decimal) == ParseState(Some("LWPOLYLINE"), [Point(0.0, 0.0), Point(10.0, 0.0), Point(10.0, 10.0)], "Default", true, [])
  {
    SquarePairs();
    SquareCorrected6();
    var S := Pairs(SquareExample);
    assert S[6] == ("10", "10")
      && S[7].1 == "10"
      && Decimal.parseFloat("10") == Some(10.0);
    assert PairRunTo(S, 7, Decimal) == PairStep(S, 6, PairRunTo(S, 6, Decimal), Decimal);
    assert PairRunTo(S, 7, Decimal) == ParseState(Some("LWPOLYLINE"), [Point(0.0, 0.0), Point(10.0, 0.0), Point(10.0, 10.0)], "Default", true, []);
    assert S[7] == ("20", "10");
    assert PairRunTo(S, 8, Decimal) == PairStep(S, 7, PairRunTo(S, 7, Decimal), Decimal);
  }

  /** The corrected reader after its first 10 records over `SquareExample`. */
  lemma SquareCorrected10()
    ensures PairRunTo(Pairs(SquareExample), 10, Decimal) == ParseState(Some("LWPOLYLINE"), [Point(0.0, 0.0), Point(10.0, 0.0), Point(10.0, 10.0), Point(0.0, 0.0)], "Default", true, [])
  {
    SquarePairs();
    SquareCorrected8();
    var S := Pairs(SquareExample);
    assert S[8] == ("10", "0")
      && S[9].1 == "0"
      && Decimal.parseFloat("0") == Some(0.0);
    assert PairRunTo(S, 9, Decimal) == PairStep(S, 8, PairRunTo(S, 8, Decimal), Decimal);
    assert PairRunTo(S, 9, Decimal) == ParseState(Some("LWPOLYLINE"), [Point(0.0, 0.0), Point(10.0, 0.0), Point(10.0, 10.0), Point(0.0, 0.0)], "Default", true, []);
    assert S[9] == ("20", "0");
    assert PairRunTo(S, 10, Decimal) == PairStep(S, 9, PairRunTo(S, 9, Decimal), Decimal);
  }

  /** The corrected reader after its first 11 records over `SquareExample`. */
  lemma SquareCorrected11()
    ensures PairRunTo(Pairs(SquareExample), 11, Decimal) == ParseState(Some("EOF"), [], "Default", false, [Feature(Polygon([[Point(0.0, 0.0), Point(10.0, 0.0), Point(10.0, 10.0), Point(0.0, 0.0)]]), "Default")])
  {
    SquarePairs();
    SquareCorrected10();
    var S := Pairs(SquareExample);
    assert S[10] == ("0", "EOF");
    assert PairRunTo(S, 11, Decimal) == PairStep(S, 10, PairRunTo(S, 10, Decimal), Decimal);
  }

  /** The corrected reader emits the one-ring Polygon the file describes. */
  lemma StrideCorrected()
    ensures ParsePairs(SquareExample, Decimal)
         == Ok([Feature(Polygon([[Point(0.0, 0.0), Point(10.0, 0.0), Point(10.0, 10.0), Point(0.0, 0.0)]]),
                        DefaultLayer)])
  {
    SquareCorrected11();
  }
}
