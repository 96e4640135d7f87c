/** `org.jfugue.theory.Intervals`: a space-separated list of scale-degree
    tokens such as "1 b3 5", with an optional root note.

    The Java object keeps the pattern text and re-splits it on every call;
    the model does the same, so an operation sees exactly the tokens
    `String.split(" ")` would give it.
 */
module Degrees {
  import opened Results
  import opened Strings
  import opened Pitch

  // ------------------------------------------------------- degree tables

  /** Whole-number degree d to half-steps above the root, at index d - 1
      (1 = unison, 8 = octave, 15 = two octaves). */
  const DEGREE_HALFSTEPS: seq<int> := [0, 2, 4, 5, 7, 9, 11, 12, 14, 16, 17, 19, 21, 23, 24]

  /** The `wholeNumberDegreeToHalfsteps` lookup; `None` where the Java map
      has no key. */
  function DegreeToHalfsteps(d: int): Option<int> {
    if 1 <= d <= |DEGREE_HALFSTEPS| then Some(DEGREE_HALFSTEPS[d - 1]) else None
  }

  /** The `halfstepsToWholeNumberDegree` lookup, consulted when intervals
      are built from notes. */
  function HalfstepsToDegree(h: int): Option<int> {
    match h
    case 0 => Some(1) case 2 => Some(2) case 4 => Some(3) case 5 => Some(4)
    case 7 => Some(5) case 9 => Some(6) case 11 => Some(7) case 12 => Some(8)
    case 14 => Some(9) case 16 => Some(10) case 17 => Some(11) case 19 => Some(12)
    case 21 => Some(13) case 23 => Some(14) case 24 => Some(15)
    case _ => None
  }

  /** The two tables are inverse bijections between degrees 1..15 and their
      half-step counts. */
  lemma DegreeTablesAreInverse(d: int, h: int)
    ensures DegreeToHalfsteps(d) == Some(h) <==> HalfstepsToDegree(h) == Some(d)
  {
  }

  // ------------------------------------------------------ reading a token

  /** The first run of decimal digits in `t` (what `\d+` finds first), empty
      when `t` holds no digit. */
  function FirstDigitRun(t: string): (run: string)
    ensures forall k :: 0 <= k < |run| ==> IsDigit(run[k])
    ensures run == [] <==> forall k :: 0 <= k < |t| ==> !IsDigit(t[k])
  {
    if t == [] then []
    else if IsDigit(t[0]) then DigitPrefix(t)
    else
      assert forall k :: 1 <= k < |t| ==> t[k] == t[1..][k - 1];
      FirstDigitRun(t[1..])
  }

  /** `getNumberPortionOfInterval`: the value of the first digit run, or 0
      when there is none; a run beyond `int` makes `parseInt` throw. */
  function NumberPortion(t: string): (r: Result<int>)
    ensures r.Ok? ==> r.value >= 0
    ensures r == Ok(0) <== forall k :: 0 <= k < |t| ==> !IsDigit(t[k])
  {
    var run := FirstDigitRun(t);
    if run == [] then Ok(0)
    else if ParseDigits(run) > MAX_JAVA_INT then Err(NumberFormat(t))
    else Ok(ParseDigits(run))
  }

  /** Net accidental of upper-cased text: each 'B' lowers, each '#' raises. */
  function AccidentalSum(u: string): int {
    if u == [] then 0
    else (if u[0] == 'B' then -1 else if u[0] == '#' then 1 else 0) + AccidentalSum(u[1..])
  }

  lemma {:induction false} AccidentalSumOfUpper(t: string)
    ensures AccidentalSum(Upper(t)) == Count(t, '#') - Count(t, 'b') - Count(t, 'B')
  {
    if t != [] {
      var u := Upper(t);
      assert u[1..] == Upper(t[1..]);
      UpperAccidental(t[0]);
      AccidentalSumOfUpper(t[1..]);
      assert AccidentalSum(u)
             == (if u[0] == 'B' then -1 else if u[0] == '#' then 1 else 0) + AccidentalSum(u[1..]);
    }
  }

  /** Upper-casing turns exactly 'b' and 'B' into 'B', and only '#' into '#'. */
  lemma UpperAccidental(c: char)
    ensures UpperChar(c) == 'B' <==> c == 'b' || c == 'B'
    ensures UpperChar(c) == '#' <==> c == '#'
  {
  }

  /** `calculateHalfstepDeltaFromFlatsAndSharps`: every '#' anywhere in the
      token raises by one, every 'b' or 'B' lowers by one. */
  function HalfstepDelta(t: string): (delta: int)
    ensures delta == Count(t, '#') - Count(t, 'b') - Count(t, 'B')
  {
    AccidentalSumOfUpper(t);
    AccidentalSum(Upper(t))
  }

  /** `getHalfsteps`: the table entry for the token's number plus its net
      accidental. A number outside the table makes the Java map lookup
      return null, which throws on unboxing. */
  function GetHalfsteps(t: string): (r: Result<int>)
    ensures r.Ok? <==> NumberPortion(t).Ok? && 1 <= NumberPortion(t).value <= 15
    ensures NumberPortion(t).Ok? && r.Err? ==> r.error == UnknownDegree(t)
    ensures NumberPortion(t).Err? ==> r == Err(NumberPortion(t).error)
  {
    match NumberPortion(t)
    case Err(e) => Err(e)
    case Ok(n) =>
      match DegreeToHalfsteps(n)
      case None => Err(UnknownDegree(t))
      case Some(h) => Ok(h + HalfstepDelta(t))
  }

  /** Text free of digits: skipping it leaves the first digit run alone. */
  lemma {:induction false} FirstDigitRunSkips(pre: string, s: string)
    requires forall k :: 0 <= k < |pre| ==> !IsDigit(pre[k])
    requires s != [] && IsDigit(s[0])
    ensures FirstDigitRun(pre + s) == DigitPrefix(s)
  {
    if pre == [] {
      assert pre + s == s;
    } else {
      assert (pre + s)[1..] == pre[1..] + s;
      FirstDigitRunSkips(pre[1..], s);
    }
  }

  /** Digits carry no accidental. */
  lemma DigitsAreNotAccidentals(digits: string)
    requires forall k :: 0 <= k < |digits| ==> IsDigit(digits[k])
    ensures '#' !in digits && 'b' !in digits && 'B' !in digits
  {
    forall k | 0 <= k < |digits| ensures digits[k] != '#' && digits[k] != 'b' && digits[k] != 'B' {
      assert IsDigit(digits[k]);
    }
  }

  lemma NumberOfSpelled(pre: string, d: nat, post: string)
    requires d <= MAX_JAVA_INT
    requires forall k :: 0 <= k < |pre| ==> !IsDigit(pre[k])
    requires post == [] || !IsDigit(post[0])
    ensures NumberPortion(pre + NatToString(d) + post) == Ok(d)
  {
    var digits := NatToString(d);
    assert pre + digits + post == pre + (digits + post);
    DigitPrefixOfDigits(digits, post);
    FirstDigitRunSkips(pre, digits + post);
    ParseNatToString(d);
  }

  lemma CountSpelled(pre: string, digits: string, post: string, c: char)
    requires c !in digits
    ensures Count(pre + digits + post, c) == Count(pre + post, c)
  {
    CountAppend(pre, digits, c);
    CountAppend(pre + digits, post, c);
    CountAppend(pre, post, c);
  }

  /** A token spelled as accidentals, a table degree and more accidentals
      evaluates to the table entry plus sharps minus flats, wherever the
      accidentals stand. */
  lemma SpelledDegree(pre: string, d: int, post: string, t: string, v: int)
    requires 1 <= d <= 15
    requires forall k :: 0 <= k < |pre| ==> pre[k] in "#bB"
    requires forall k :: 0 <= k < |post| ==> post[k] in "#bB"
    requires t == pre + NatToString(d) + post
    requires v == DEGREE_HALFSTEPS[d - 1] + Count(pre + post, '#')
                  - Count(pre + post, 'b') - Count(pre + post, 'B')
    ensures GetHalfsteps(t) == Ok(v)
  {
    SpelledNumber(pre, d, post);
    SpelledDelta(pre, d, post);
    ReadingIs(t, v);
  }

  lemma SpelledNumber(pre: string, d: int, post: string)
    requires 1 <= d <= 15
    requires forall k :: 0 <= k < |pre| ==> pre[k] in "#bB"
    requires forall k :: 0 <= k < |post| ==> post[k] in "#bB"
    ensures GetHalfsteps(pre + NatToString(d) + post).Ok?
    ensures GetHalfsteps(pre + NatToString(d) + post).value
            == DEGREE_HALFSTEPS[d - 1] + HalfstepDelta(pre + NatToString(d) + post)
  {
    assert forall k :: 0 <= k < |pre| ==> !IsDigit(pre[k]);
    assert post == [] || !IsDigit(post[0]);
    NumberOfSpelled(pre, d, post);
    ReadingOfNumber(pre + NatToString(d) + post, d);
  }

  lemma SpelledDelta(pre: string, d: nat, post: string)
    ensures HalfstepDelta(pre + NatToString(d) + post)
            == Count(pre + post, '#') - Count(pre + post, 'b') - Count(pre + post, 'B')
  {
    var digits := NatToString(d);
    DigitsAreNotAccidentals(digits);
    CountSpelled(pre, digits, post, '#');
    CountSpelled(pre, digits, post, 'b');
    CountSpelled(pre, digits, post, 'B');
  }

  lemma ReadingIs(t: string, v: int)
    requires GetHalfsteps(t).Ok? && GetHalfsteps(t).value == v
    ensures GetHalfsteps(t) == Ok(v)
  {
  }

  lemma ReadingOfNumber(t: string, n: int)
    requires NumberPortion(t) == Ok(n) && 1 <= n <= 15
    ensures GetHalfsteps(t) == Ok(DEGREE_HALFSTEPS[n - 1] + HalfstepDelta(t))
  {
    assert DegreeToHalfsteps(n) == Some(DEGREE_HALFSTEPS[n - 1]);
  }

  /** The degree readings the documentation gives: b3 is 3 half-steps, 3 is
      4, #5 is 8, ##5 is 9, and an accidental after the number counts the
      same as one before it. */
  lemma HalfstepExamples()
    ensures GetHalfsteps("b3") == Ok(3)
    ensures GetHalfsteps("3") == Ok(4)
    ensures GetHalfsteps("#5") == Ok(8)
    ensures GetHalfsteps("3b") == Ok(3)
    ensures GetHalfsteps("##5") == Ok(9)
  {
    FlatThird();
    PlainThird();
    SharpFifths();
    ThirdFlattedAfter();
  }

  lemma ThirdFlattedAfter()
    ensures GetHalfsteps("3b") == Ok(3)
  {
    assert NatToString(3) == "3";
    assert Count("b", '#') == 0 && Count("b", 'b') == 1 && Count("b", 'B') == 0;
    SpelledDegree("", 3, "b", "3b", 3);
  }

  lemma FlatThird()
    ensures GetHalfsteps("b3") == Ok(3)
  {
    assert NatToString(3) == "3";
    assert Count("b", '#') == 0 && Count("b", 'b') == 1 && Count("b", 'B') == 0;
    SpelledDegree("b", 3, "", "b3", 3);
  }

  lemma PlainThird()
    ensures GetHalfsteps("3") == Ok(4)
  {
    assert NatToString(3) == "3";
    SpelledDegree("", 3, "", "3", 4);
  }

  lemma SharpFifths()
    ensures GetHalfsteps("#5") == Ok(8)
    ensures GetHalfsteps("##5") == Ok(9)
  {
    assert NatToString(5) == "5";
    assert Count("#", '#') == 1 && Count("#", 'b') == 0 && Count("#", 'B') == 0;
    assert Count("##", '#') == 2 && Count("##", 'b') == 0 && Count("##", 'B') == 0;
    SpelledDegree("#", 5, "", "#5", 8);
    SpelledDegree("##", 5, "", "##5", 9);
  }

  /** A token without a number reads degree 0 and one with 16 reads past the
      table: neither has a half-step count. */
  lemma UnreadableTokens()
    ensures GetHalfsteps("#") == Err(UnknownDegree("#"))
    ensures GetHalfsteps("16") == Err(UnknownDegree("16"))
  {
    assert FirstDigitRun("#") == [];
    assert DigitPrefix("16") == "16";
    assert ParseDigits("16") == 16 by { assert "16"[..1] == "1"; }
  }

  // -------------------------------------------------------- the value type

  datatype Intervals = Intervals(pattern: string, root: Option<Note>)

  /** `intervalPattern.split(" ")`, which every Java method re-computes. */
  function Tokens(iv: Intervals): seq<string> {
    JavaSplit(iv.pattern)
  }

  function Size(iv: Intervals): nat {
    |Tokens(iv)|
  }

  /** `getNthInterval`: the n-th token; an index past either end throws. */
  function NthInterval(iv: Intervals, n: int): (r: Result<string>)
    ensures r.Ok? <==> 0 <= n < Size(iv)
    ensures r.Err? ==> r.error == IndexOutOfBounds
  {
    if 0 <= n < Size(iv) then Ok(Tokens(iv)[n]) else Err(IndexOutOfBounds)
  }

  /** A pattern the library writes itself: tokens without blanks, joined by
      single spaces. */
  predicate Canonical(iv: Intervals) {
    |Tokens(iv)| > 0 && WellFormedTokens(Tokens(iv)) && Join(Tokens(iv), " ") == iv.pattern
  }

  /** Half-steps of each token, failing on the first token that fails. */
  function HalfstepsOf(ts: seq<string>): (r: Result<seq<int>>)
    ensures r.Ok? <==> forall i :: 0 <= i < |ts| ==> GetHalfsteps(ts[i]).Ok?
    ensures r.Ok? ==> |r.value| == |ts|
    ensures r.Ok? ==> forall i :: 0 <= i < |ts| ==> GetHalfsteps(ts[i]) == Ok(r.value[i])
    ensures r.Err? ==> exists i :: 0 <= i < |ts| && GetHalfsteps(ts[i]) == Err(r.error)
  {
    ReadEach(ts, GetHalfsteps)
  }

  /** Each token read in turn: all the values, or the first failure. */
  function ReadEach(ts: seq<string>, read: string -> Result<int>): (r: Result<seq<int>>)
    ensures r.Ok? <==> forall i :: 0 <= i < |ts| ==> read(ts[i]).Ok?
    ensures r.Ok? ==> |r.value| == |ts| && forall i :: 0 <= i < |ts| ==> read(ts[i]) == Ok(r.value[i])
    ensures r.Err? ==> exists i :: 0 <= i < |ts| && read(ts[i]) == Err(r.error)
                                   && forall j :: 0 <= j < i ==> read(ts[j]).Ok?
  {
    if ts == [] then Ok([])
    else
      var first, rest := read(ts[0]), ReadEach(ts[1..], read);
      if first.Err? then Err(first.error)
      else if rest.Err? then
        var i :| 0 <= i < |ts| - 1 && read(ts[1..][i]) == Err(rest.error)
                 && forall j :: 0 <= j < i ==> read(ts[1..][j]).Ok?;
        assert read(ts[i + 1]) == Err(rest.error);
        assert forall j :: 0 < j < i + 1 ==> ts[j] == ts[1..][j - 1];
        Err(rest.error)
      else
        assert forall i :: 0 < i < |ts| ==> ts[i] == ts[1..][i - 1];
        PrependShifts(first.value, rest.value);
        Ok([first.value] + rest.value)
  }

  /** After a prepended element, index `i` holds the old element `i - 1`. */
  lemma PrependShifts(x: int, s: seq<int>)
    ensures forall i :: 0 < i <= |s| ==> ([x] + s)[i] == s[i - 1]
  {
  }

  /** `toHalfstepArray`: one entry per token, each the half-steps of the
      token `getNthInterval` returns at that index. */
  function ToHalfstepArray(iv: Intervals): (r: Result<seq<int>>)
    ensures r.Ok? ==> |r.value| == Size(iv)
    ensures r.Ok? ==> forall i :: 0 <= i < Size(iv) ==>
              NthInterval(iv, i).Ok? && GetHalfsteps(NthInterval(iv, i).value) == Ok(r.value[i])
    ensures r.Err? <==> exists i :: 0 <= i < Size(iv) && GetHalfsteps(Tokens(iv)[i]).Err?
  {
    HalfstepsOf(Tokens(iv))
  }

  /** When every token reads, the half-step array is those readings. */
  lemma ReadingsDetermineArray(iv: Intervals, hs: seq<int>)
    requires |Tokens(iv)| == |hs|
    requires forall i :: 0 <= i < |hs| ==> GetHalfsteps(Tokens(iv)[i]) == Ok(hs[i])
    ensures ToHalfstepArray(iv) == Ok(hs)
  {
    var ts := Tokens(iv);
    var r := HalfstepsOf(ts);
    assert r.Ok?;
    assert forall i :: 0 <= i < |hs| ==> Ok(r.value[i]) == GetHalfsteps(ts[i]) == Ok(hs[i]);
    assert r.value == hs;
  }

  // ------------------------------------------------------------- rotation

  /** `ts` shifted cyclically left by `m` places. */
  function RotateLeft(ts: seq<string>, m: nat): (r: seq<string>)
    requires m <= |ts|
    ensures |r| == |ts|
    ensures forall i :: 0 <= i < |ts| - m ==> r[i] == ts[i + m]
    ensures forall i :: |ts| - m <= i < |ts| ==> r[i] == ts[i + m - |ts|]
    ensures multiset(r) == multiset(ts)
  {
    assert ts == ts[..m] + ts[m..];
    ts[m..] + ts[..m]
  }

  /** `rotate(n)`: the tokens shifted left by `n % size` (Java's `%`), the
      builder output trimmed, the root kept. A pattern that splits into no
      token makes the `%` divide by zero; a negative remainder makes the
      first loop index below zero. */
  function Rotate(iv: Intervals, n: int): (r: Result<Intervals>)
    ensures Size(iv) == 0 ==> r == Err(DivisionByZero)
    ensures Size(iv) > 0 ==> (r.Ok? <==> JavaRem(n, Size(iv)) >= 0)
    ensures Size(iv) > 0 && n >= 0 ==> r.Ok?
    ensures r.Err? && Size(iv) > 0 ==> r.error == IndexOutOfBounds
    ensures r.Ok? ==> r.value.root == iv.root
  {
    var ts := Tokens(iv);
    if |ts| == 0 then Err(DivisionByZero)
    else
      var m := JavaRem(n, |ts|);
      if m < 0 then Err(IndexOutOfBounds)
      else Ok(Intervals(Trim(JoinTrailing(RotateLeft(ts, m))), iv.root))
  }

  /** Rotating well-formed tokens by a non-negative `n` yields a canonical
      pattern holding the tokens shifted left by n mod size: the size and
      the multiset of tokens are kept. */
  lemma RotateTokens(iv: Intervals, n: int)
    requires Size(iv) > 0 && WellFormedTokens(Tokens(iv)) && n >= 0
    ensures Rotate(iv, n).Ok?
    ensures Canonical(Rotate(iv, n).value)
    ensures Tokens(Rotate(iv, n).value) == RotateLeft(Tokens(iv), n % Size(iv))
    ensures Size(Rotate(iv, n).value) == Size(iv)
    ensures multiset(Tokens(Rotate(iv, n).value)) == multiset(Tokens(iv))
  {
    var ts := Tokens(iv);
    var m := n % |ts|;
    var rs := RotateLeft(ts, m);
    assert WellFormedTokens(rs) by {
      forall i | 0 <= i < |rs| ensures WellFormedToken(rs[i]) {
        if i < |ts| - m {
          assert WellFormedToken(ts[i + m]);
        } else {
          assert WellFormedToken(ts[i + m - |ts|]);
        }
      }
    }
    TrimJoinTrailing(rs);
    SplitJoin(rs);
  }

  /** Rotating a canonical pattern by its size, or by 0, gives it back. */
  lemma RotateBySizeIsIdentity(iv: Intervals)
    requires Canonical(iv)
    ensures Rotate(iv, Size(iv)) == Ok(iv)
    ensures Rotate(iv, 0) == Ok(iv)
  {
    var ts := Tokens(iv);
    assert RotateLeft(ts, 0) == ts;
    TrimJoinTrailing(ts);
  }

  /** "1 3 5" rotated once is "3 5 1", not "5 1 3". */
  lemma RotateExample(root: Option<Note>)
    ensures Rotate(Intervals("1 3 5", root), 1) == Ok(Intervals("3 5 1", root))
  {
    TriadTokens();
    ThreeTokens("1", "3", "5", "1 3 5");
    ThreeTokens("3", "5", "1", "3 5 1");
    RotateOnce(["1", "3", "5"]);
  }

  lemma TriadTokens()
    ensures WellFormedToken("1") && WellFormedToken("3") && WellFormedToken("5")
    ensures "1 3 5" == "1" + " " + "3" + " " + "5"
    ensures "3 5 1" == "3" + " " + "5" + " " + "1"
  {
  }

  lemma RotateOnce(ts: seq<string>)
    requires |ts| == 3
    ensures JavaRem(1, |ts|) == 1
    ensures RotateLeft(ts, 1) == [ts[1], ts[2], ts[0]]
  {
  }

  /** Three well-formed tokens: joining, splitting and the trimmed builder
      output agree. */
  lemma ThreeTokens(a: string, b: string, c: string, p: string)
    requires WellFormedToken(a) && WellFormedToken(b) && WellFormedToken(c)
    requires p == a + " " + b + " " + c
    ensures JavaSplit(p) == [a, b, c]
    ensures Trim(JoinTrailing([a, b, c])) == p
  {
    var ts := [a, b, c];
    assert ts[1..] == [b, c] && ts[1..][1..] == [c];
    assert Join([c], " ") == c;
    assert Join([b, c], " ") == b + " " + c;
    assert Join(ts, " ") == a + " " + b + " " + c;
    assert WellFormedTokens(ts);
    SplitJoin(ts);
    TrimJoinTrailing(ts);
  }

  // ----------------------------------------------------------- membership

  /** Token `t` reads and lands on pitch class `pos` above `rootValue`. */
  predicate LandsOn(t: string, rootValue: int, pos: int) {
    GetHalfsteps(t).Ok? && JavaRem(rootValue + GetHalfsteps(t).value, OCTAVE) == pos
  }

  /** The loop of `has(Note)`: tokens are read in order and the first one
      landing on `pos` answers; a token that cannot be read throws. */
  function HasAmong(ts: seq<string>, rootValue: int, pos: int): (r: Result<bool>)
    ensures (forall i :: 0 <= i < |ts| ==> GetHalfsteps(ts[i]).Ok?) ==>
              r.Ok? && (r.value <==> exists i :: 0 <= i < |ts| && LandsOn(ts[i], rootValue, pos))
  {
    if ts == [] then Ok(false)
    else if GetHalfsteps(ts[0]).Err? then Err(GetHalfsteps(ts[0]).error)
    else if LandsOn(ts[0], rootValue, pos) then Ok(true)
    else
      var rest := HasAmong(ts[1..], rootValue, pos);
      HasAmongStep(ts, ts[1..], rootValue, pos, rest);
      rest
  }

  /** A token that misses leaves the answer to the tokens after it. */
  lemma HasAmongStep(ts: seq<string>, tail: seq<string>, rootValue: int, pos: int, rest: Result<bool>)
    requires ts != [] && tail == ts[1..] && !LandsOn(ts[0], rootValue, pos)
    requires (forall i :: 0 <= i < |tail| ==> GetHalfsteps(tail[i]).Ok?) ==>
               rest.Ok? && (rest.value <==> exists i :: 0 <= i < |tail| && LandsOn(tail[i], rootValue, pos))
    ensures (forall i :: 0 <= i < |ts| ==> GetHalfsteps(ts[i]).Ok?) ==>
              rest.Ok? && (rest.value <==> exists i :: 0 <= i < |ts| && LandsOn(ts[i], rootValue, pos))
  {
    if forall i :: 0 <= i < |ts| ==> GetHalfsteps(ts[i]).Ok? {
      assert forall i :: 0 <= i < |tail| ==> tail[i] == ts[i + 1];
      if rest.value {
        var j :| 0 <= j < |tail| && LandsOn(tail[j], rootValue, pos);
        assert LandsOn(ts[j + 1], rootValue, pos);
      }
      if exists i :: 0 <= i < |ts| && LandsOn(ts[i], rootValue, pos) {
        var i :| 0 <= i < |ts| && LandsOn(ts[i], rootValue, pos);
        assert LandsOn(tail[i - 1], rootValue, pos);
      }
    }
  }

  /** `has(Note)`: false without a root; otherwise whether some token's
      pitch class above the root's value (Java `%`, so a token below the
      root gives a negative class that matches nothing) is the note's
      position in the octave. */
  function Has(iv: Intervals, note: Note): (r: Result<bool>)
    requires ValidPitch(note.value)
    ensures iv.root.None? ==> r == Ok(false)
    ensures iv.root.Some? && ToHalfstepArray(iv).Ok? ==> r.Ok? && (r.value <==>
              exists i :: 0 <= i < Size(iv) &&
                JavaRem(GetValue(iv.root.value) + ToHalfstepArray(iv).value[i], OCTAVE)
                  == GetPositionInOctave(note))
  {
    if iv.root.None? then Ok(false)
    else
      var r := HasAmong(Tokens(iv), GetValue(iv.root.value), GetPositionInOctave(note));
      assert ToHalfstepArray(iv).Ok? ==> forall i :: 0 <= i < Size(iv) ==>
               (LandsOn(Tokens(iv)[i], GetValue(iv.root.value), GetPositionInOctave(note)) <==>
                JavaRem(GetValue(iv.root.value) + ToHalfstepArray(iv).value[i], OCTAVE) == GetPositionInOctave(note));
      r
  }

  // ------------------------------------------------------- equality, hash

  /** `equals`: two Intervals are equal when their pattern texts are; the
      root takes no part. */
  predicate Equals(a: Intervals, b: Intervals) {
    a.pattern == b.pattern
  }

  const TWO_TO_32: int := 0x1_0000_0000

  /** Two's-complement wrap of an integer into Java's `int` range. */
  function Wrap32(x: int): (r: int)
    ensures -0x8000_0000 <= r < 0x8000_0000
    ensures (x - r) % TWO_TO_32 == 0
  {
    (x + 0x8000_0000) % TWO_TO_32 - 0x8000_0000
  }

  /** `String.hashCode`, computed as Java does: h = 31 * h + c in `int`. */
  function StringHash(s: string): (h: int)
    ensures -0x8000_0000 <= h < 0x8000_0000
  {
    if s == [] then 0 else Wrap32(31 * StringHash(s[..|s| - 1]) + s[|s| - 1] as int)
  }

  /** The documented polynomial s[0]*31^(n-1) + ... + s[n-1], unbounded. */
  function HashPolynomial(s: string): int {
    if s == [] then 0 else 31 * HashPolynomial(s[..|s| - 1]) + s[|s| - 1] as int
  }

  /** The wrapped hash is the polynomial modulo 2^32. */
  lemma {:induction false} HashIsPolynomialModulo(s: string)
    ensures (StringHash(s) - HashPolynomial(s)) % TWO_TO_32 == 0
  {
    if s != [] {
      var p := s[..|s| - 1];
      var c := s[|s| - 1] as int;
      HashIsPolynomialModulo(p);
      var k := (StringHash(p) - HashPolynomial(p)) / TWO_TO_32;
      assert StringHash(p) - HashPolynomial(p) == TWO_TO_32 * k;
      var x := 31 * StringHash(p) + c;
      var j := (x - Wrap32(x)) / TWO_TO_32;
      assert x - Wrap32(x) == TWO_TO_32 * j;
      assert x - (31 * HashPolynomial(p) + c) == TWO_TO_32 * (31 * k);
      assert StringHash(s) - HashPolynomial(s) == TWO_TO_32 * (31 * k - j);
      MultipleOfWordSize(31 * k - j);
    }
  }

  lemma MultipleOfWordSize(z: int)
    ensures (TWO_TO_32 * z) % TWO_TO_32 == 0
  {
  }

  /** `hashCode`: the hash of the pattern text. */
  function Hash(iv: Intervals): (h: int)
    ensures -0x8000_0000 <= h < 0x8000_0000
    ensures (h - HashPolynomial(iv.pattern)) % TWO_TO_32 == 0
  {
    HashIsPolynomialModulo(iv.pattern);
    StringHash(iv.pattern)
  }

  /** Equal Intervals hash alike, whatever their roots. */
  lemma EqualsAgreesWithHash(a: Intervals, b: Intervals)
    ensures Equals(a, b) ==> Hash(a) == Hash(b)
    ensures Equals(a, b) <==> Equals(b, a)
  {
  }

  // ------------------------------------------------- building from notes

  /** Half-steps from the root's pitch class up to the note's, in 0..11. */
  function ClassDistance(root: Note, n: Note): (diff: int)
    requires ValidPitch(root.value) && ValidPitch(n.value)
    ensures 0 <= diff < OCTAVE
    ensures diff == (GetPositionInOctave(n) - GetPositionInOctave(root) + OCTAVE) % OCTAVE
  {
    if GetPositionInOctave(n) < GetPositionInOctave(root)
    then GetPositionInOctave(n) + 12 - GetPositionInOctave(root)
    else GetPositionInOctave(n) - GetPositionInOctave(root)
  }

  /** The degree token written for a distance: the plain degree when the
      reverse table has it, else a flat on the degree one half-step up. */
  function DegreeToken(diff: int): (t: string)
    requires 0 <= diff < OCTAVE
    ensures WellFormedToken(t) && '#' !in t
  {
    match HalfstepsToDegree(diff)
    case Some(d) => NatToString(d)
    case None =>
      match HalfstepsToDegree(diff + 1)
      case Some(d) => "b" + NatToString(d)
      case None => assert false; "1"
  }

  /** Every written token reads back as the distance it was written for. */
  lemma DegreeTokenReadsBack(diff: int)
    requires 0 <= diff < OCTAVE
    ensures GetHalfsteps(DegreeToken(diff)) == Ok(diff)
  {
    match HalfstepsToDegree(diff)
    case Some(d) =>
      DegreeTablesAreInverse(d, diff);
      SpelledDegree("", d, "", NatToString(d), diff);
    case None =>
      var d := HalfstepsToDegree(diff + 1).value;
      DegreeTablesAreInverse(d, diff + 1);
      assert Count("b", '#') == 0 && Count("b", 'b') == 1 && Count("b", 'B') == 0;
      SpelledDegree("b", d, "", "b" + NatToString(d), diff);
  }

  /** Every note is a MIDI pitch, as its Java `byte` value ensures. */
  predicate ValidPitches(notes: seq<Note>) {
    forall i :: 0 <= i < |notes| ==> ValidPitch(notes[i].value)
  }

  function DegreeTokens(notes: seq<Note>): (ts: seq<string>)
    requires |notes| > 0 && ValidPitches(notes)
    ensures |ts| == |notes| - 1
    ensures forall i :: 0 <= i < |ts| ==> ts[i] == DegreeToken(ClassDistance(notes[0], notes[i + 1]))
  {
    seq(|notes| - 1, i requires 0 <= i < |notes| - 1 => DegreeToken(ClassDistance(notes[0], notes[i + 1])))
  }

  /** `createIntervalsFromNotes(Note[])`: "1" for the first note, then one
      flat-biased degree token per further note, with the first note as
      root. An empty array fails on `notes[0]`. */
  function CreateIntervalsFromNotes(notes: seq<Note>): (r: Result<Intervals>)
    requires ValidPitches(notes)
    ensures r.Ok? <==> |notes| > 0
    ensures r.Err? ==> r.error == IndexOutOfBounds
    ensures r.Ok? ==> r.value.root == Some(notes[0])
  {
    if |notes| == 0 then Err(IndexOutOfBounds)
    else Ok(Intervals(Trim("1 " + JoinTrailing(DegreeTokens(notes))), Some(notes[0])))
  }

  /** The built pattern is the canonical join of "1" and the degree tokens. */
  lemma {:induction false} CreatedTokens(notes: seq<Note>)
    requires |notes| > 0 && ValidPitches(notes)
    ensures var iv := CreateIntervalsFromNotes(notes).value;
      Canonical(iv) && Tokens(iv) == ["1"] + DegreeTokens(notes)
  {
    var ds := DegreeTokens(notes);
    var ts := ["1"] + ds;
    assert "1 " + JoinTrailing(ds) == JoinTrailing(ts);
    assert WellFormedTokens(ts) by {
      assert WellFormedToken("1");
      forall i | 0 <= i < |ts| ensures WellFormedToken(ts[i]) {
        if i > 0 { assert ts[i] == ds[i - 1]; }
      }
    }
    TrimJoinTrailing(ts);
    SplitJoin(ts);
  }

  /** Building from notes and reading back are inverse: one canonical token
      per note, "1" first, never a sharp, and each token's half-steps is the
      note's pitch-class distance above the first note. */
  lemma CreateIntervalsFromNotesReadsBack(notes: seq<Note>)
    requires |notes| > 0 && ValidPitches(notes)
    ensures var iv := CreateIntervalsFromNotes(notes).value;
      Canonical(iv) && Size(iv) == |notes| && Tokens(iv)[0] == "1"
      && (forall i :: 0 <= i < |notes| ==> '#' !in Tokens(iv)[i])
      && (forall i :: 0 <= i < |notes| ==>
            GetHalfsteps(Tokens(iv)[i]) == Ok(ClassDistance(notes[0], notes[i])))
  {
    CreatedTokens(notes);
    var ts := ["1"] + DegreeTokens(notes);
    forall i | 0 <= i < |notes|
      ensures '#' !in ts[i]
      ensures GetHalfsteps(ts[i]) == Ok(ClassDistance(notes[0], notes[i]))
    {
      if i == 0 {
        UnisonReadsBack();
      } else {
        assert ts[i] == DegreeToken(ClassDistance(notes[0], notes[i]));
        DegreeTokenReadsBack(ClassDistance(notes[0], notes[i]));
      }
    }
  }

  lemma UnisonReadsBack()
    ensures GetHalfsteps("1") == Ok(0)
  {
    assert NatToString(1) == "1";
    SpelledDegree("", 1, "", "1", 0);
  }
}
