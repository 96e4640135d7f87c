/** A `Scale`: intervals with an optional name and a major/minor indicator
    byte that stays 0 until set. Equality and hashing look at the interval
    pattern only. */
module Scales {
  import opened Results
  import opened Strings
  import opened Degrees

  const MAJOR_INDICATOR: int := 1
  const MINOR_INDICATOR: int := -1

  /** A Java `byte`. */
  predicate IsByte(b: int) {
    -128 <= b < 128
  }

  /** A missing name (Java null) is `None`. */
  datatype Scale = Scale(intervals: Intervals, name: Option<string>, indicator: int)

  /** `new Scale(Intervals)`: no name, indicator unset. */
  function FromIntervals(iv: Intervals): Scale {
    Scale(iv, None, 0)
  }

  /** `new Scale(Intervals, String)`: named, indicator unset. */
  function Named(iv: Intervals, name: Option<string>): Scale {
    Scale(iv, name, 0)
  }

  /** `setName`: the name changes, nothing else does. */
  function SetName(s: Scale, name: Option<string>): (r: Scale)
    ensures r.name == name
    ensures r.intervals == s.intervals && r.indicator == s.indicator
  {
    s.(name := name)
  }

  /** `setMajorOrMinorIndicator`: the indicator changes, nothing else does. */
  function SetMajorOrMinorIndicator(s: Scale, indicator: int): (r: Scale)
    requires IsByte(indicator)
    ensures r.indicator == indicator
    ensures r.intervals == s.intervals && r.name == s.name
  {
    s.(indicator := indicator)
  }

  /** `equals`: the intervals are equal, that is, their pattern texts are. */
  predicate ScaleEquals(a: Scale, b: Scale) {
    Equals(a.intervals, b.intervals)
  }

  /** `hashCode`: the intervals' hash. */
  function ScaleHash(s: Scale): (h: int)
    ensures -0x8000_0000 <= h < 0x8000_0000
  {
    Hash(s.intervals)
  }

  /** Equality reads the pattern text alone and agrees with the hash: renaming
      a scale or setting its indicator leaves it equal to what it was. */
  lemma EqualityIsByPattern(a: Scale, b: Scale, name: Option<string>, indicator: int)
    requires IsByte(indicator)
    ensures ScaleEquals(a, b) <==> a.intervals.pattern == b.intervals.pattern
    ensures ScaleEquals(a, b) ==> ScaleHash(a) == ScaleHash(b)
    ensures ScaleEquals(a, SetMajorOrMinorIndicator(SetName(a, name), indicator))
  {
    EqualsAgreesWithHash(a.intervals, b.intervals);
  }

  /** `getDisposition`: +1 for a major scale, -1 for every other, an unset
      indicator included. */
  function Disposition(s: Scale): (d: int)
    ensures d == 1 <==> s.indicator == MAJOR_INDICATOR
    ensures d == -1 <==> s.indicator != MAJOR_INDICATOR
  {
    if s.indicator == MAJOR_INDICATOR then 1 else -1
  }

  /** `toString`: "maj" or "min" by the indicator, else the name (possibly null). */
  function ScaleText(s: Scale): (r: Option<string>)
    ensures s.indicator == MAJOR_INDICATOR ==> r == Some("maj")
    ensures s.indicator == MINOR_INDICATOR ==> r == Some("min")
    ensures s.indicator != MAJOR_INDICATOR && s.indicator != MINOR_INDICATOR ==> r == s.name
  {
    if s.indicator == MAJOR_INDICATOR then Some("maj")
    else if s.indicator == MINOR_INDICATOR then Some("min")
    else s.name
  }

  /** With the indicator set, the text and the disposition tell the same:
      "maj" exactly when +1, "min" exactly when -1. */
  lemma TextAgreesWithDisposition(s: Scale)
    requires s.indicator == MAJOR_INDICATOR || s.indicator == MINOR_INDICATOR
    ensures ScaleText(s) == Some("maj") <==> Disposition(s) == 1
    ensures ScaleText(s) == Some("min") <==> Disposition(s) == -1
  {
  }

  // ------------------------------------------------------------ constants

  /** The degrees of the three constant scales; each pattern is its degrees
      joined by single spaces ("1 2 3 4 5 6 7", "1 2 b3 4 5 b6 b7" and
      "1 2 3b 4 5 6 7b"). */
  const MAJOR_DEGREES: seq<string> := ["1", "2", "3", "4", "5", "6", "7"]
  const MINOR_DEGREES: seq<string> := ["1", "2", "b3", "4", "5", "b6", "b7"]
  const CIRCLE_DEGREES: seq<string> := ["1", "2", "3b", "4", "5", "6", "7b"]

  const MAJOR: Scale := Scale(Intervals(Join(MAJOR_DEGREES, " "), None), None, MAJOR_INDICATOR)
  const MINOR: Scale := Scale(Intervals(Join(MINOR_DEGREES, " "), None), None, MINOR_INDICATOR)
  const CIRCLE_OF_FIFTHS: Scale := Scale(Intervals(Join(CIRCLE_DEGREES, " "), None), None, 0)

  lemma DegreesWellFormed()
    ensures WellFormedTokens(MAJOR_DEGREES) && WellFormedTokens(MINOR_DEGREES)
    ensures WellFormedTokens(CIRCLE_DEGREES)
  {
  }

  /** A plain degree below 10 reads its table entry. */
  lemma PlainDegree(d: nat, t: string)
    requires 1 <= d <= 9 && t == NatToString(d)
    ensures GetHalfsteps(t) == Ok(DEGREE_HALFSTEPS[d - 1])
  {
    SpelledDegree("", d, "", t, DEGREE_HALFSTEPS[d - 1]);
  }

  /** A degree below 10 with one flat, before or after the number, reads one
      half-step under its table entry. */
  lemma FlatDegree(d: nat, t: string, u: string)
    requires 1 <= d <= 9 && t == "b" + NatToString(d) && u == NatToString(d) + "b"
    ensures GetHalfsteps(t) == Ok(DEGREE_HALFSTEPS[d - 1] - 1)
    ensures GetHalfsteps(u) == Ok(DEGREE_HALFSTEPS[d - 1] - 1)
  {
    assert Count("b", '#') == 0 && Count("b", 'b') == 1 && Count("b", 'B') == 0;
    assert "b" + "" == "b" && "" + "b" == "b";
    SpelledDegree("b", d, "", t, DEGREE_HALFSTEPS[d - 1] - 1);
    SpelledDegree("", d, "b", u, DEGREE_HALFSTEPS[d - 1] - 1);
  }
  /** The digit texts of the degrees one to nine. */
  lemma DigitText(d: nat)
    requires 1 <= d <= 9
    ensures NatToString(d) == [('0' as int + d) as char]
  {
  }

  /** Token `i` of a seven-degree pattern reads `hs[i]`: a plain degree
      `i + 1`, or a flat one (flat before or after the number). */
  lemma DegreeAt(ts: seq<string>, hs: seq<int>, i: nat)
    requires |ts| == 7 && |hs| == 7 && i < 7
    requires ts[i] == NatToString(i + 1) ==> hs[i] == DEGREE_HALFSTEPS[i]
    requires ts[i] != NatToString(i + 1) ==>
               (ts[i] == "b" + NatToString(i + 1) || ts[i] == NatToString(i + 1) + "b")
               && hs[i] == DEGREE_HALFSTEPS[i] - 1
    ensures GetHalfsteps(ts[i]) == Ok(hs[i])
  {
    DegreeReading(ts[i], i + 1, hs[i]);
  }

  /** A plain or once-flattened degree below 10 and what it reads. */
  lemma DegreeReading(t: string, d: nat, h: int)
    requires 1 <= d <= 9
    requires t == NatToString(d) ==> h == DEGREE_HALFSTEPS[d - 1]
    requires t != NatToString(d) ==>
               (t == "b" + NatToString(d) || t == NatToString(d) + "b") && h == DEGREE_HALFSTEPS[d - 1] - 1
    ensures GetHalfsteps(t) == Ok(h)
  {
    if t == NatToString(d) {
      PlainDegree(d, t);
    } else {
      FlatDegree(d, "b" + NatToString(d), NatToString(d) + "b");
    }
  }

  /** Tokens joined by single spaces and read one by one give the
      half-step array. */
  lemma TokenReadings(iv: Intervals, ts: seq<string>, hs: seq<int>)
    requires |ts| > 0 && |hs| == |ts|
    requires WellFormedTokens(ts)
    requires iv.pattern == Join(ts, " ")
    requires forall i :: 0 <= i < |ts| ==> GetHalfsteps(ts[i]) == Ok(hs[i])
    ensures Size(iv) == |ts| && ToHalfstepArray(iv) == Ok(hs)
  {
    SplitJoin(ts);
    ReadingsDetermineArray(iv, hs);
  }

  /** `MAJOR`: seven degrees, 0 2 4 5 7 9 11 half-steps, text "maj". */
  lemma MajorScale()
    ensures Size(MAJOR.intervals) == 7
    ensures ToHalfstepArray(MAJOR.intervals) == Ok([0, 2, 4, 5, 7, 9, 11])
    ensures ScaleText(MAJOR) == Some("maj") && Disposition(MAJOR) == 1
  {
    var ts, hs := MAJOR_DEGREES, [0, 2, 4, 5, 7, 9, 11];
    forall i | 0 <= i < 7
      ensures GetHalfsteps(ts[i]) == Ok(hs[i])
    {
      DigitText(i + 1);
      DegreeAt(ts, hs, i);
    }
    DegreesWellFormed();
    TokenReadings(MAJOR.intervals, ts, hs);
  }

  /** `MINOR`: seven degrees, 0 2 3 5 7 8 10 half-steps, text "min". */
  lemma MinorScale()
    ensures Size(MINOR.intervals) == 7
    ensures ToHalfstepArray(MINOR.intervals) == Ok([0, 2, 3, 5, 7, 8, 10])
    ensures ScaleText(MINOR) == Some("min") && Disposition(MINOR) == -1
  {
    var ts, hs := MINOR_DEGREES, [0, 2, 3, 5, 7, 8, 10];
    forall i | 0 <= i < 7
      ensures GetHalfsteps(ts[i]) == Ok(hs[i])
    {
      DigitText(i + 1);
      DegreeAt(ts, hs, i);
    }
    DegreesWellFormed();
    TokenReadings(MINOR.intervals, ts, hs);
  }

  /** `CIRCLE_OF_FIFTHS`: its "3b" and "7b" read as b3 and b7, so it has the
      half-steps 0 2 3 5 7 9 10; it has neither name nor indicator, so its
      text is null and its disposition -1. */
  lemma CircleOfFifthsScale()
    ensures Size(CIRCLE_OF_FIFTHS.intervals) == 7
    ensures ToHalfstepArray(CIRCLE_OF_FIFTHS.intervals) == Ok([0, 2, 3, 5, 7, 9, 10])
    ensures ScaleText(CIRCLE_OF_FIFTHS).None? && Disposition(CIRCLE_OF_FIFTHS) == -1
  {
    var ts, hs := CIRCLE_DEGREES, [0, 2, 3, 5, 7, 9, 10];
    forall i | 0 <= i < 7
      ensures GetHalfsteps(ts[i]) == Ok(hs[i])
    {
      DigitText(i + 1);
      DegreeAt(ts, hs, i);
    }
    DegreesWellFormed();
    TokenReadings(CIRCLE_OF_FIFTHS.intervals, ts, hs);
  }
}
