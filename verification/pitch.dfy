/** The pitch unit of `org.jfugue.theory.Note`: a MIDI value with role flags,
    velocities, a duration and an optional original spelling.

    The Java class mutates itself through chained setters; here a note is an
    immutable record and every setter returns the updated copy.
 */
module Pitch {
  import opened Results
  import opened Strings

  /** Half-steps in an octave (`Note.OCTAVE`). */
  const OCTAVE: int := 12

  /** Defaults supplied by the note-settings manager for a freshly made note. */
  const DEFAULT_ON_VELOCITY: int := 64
  const DEFAULT_OFF_VELOCITY: int := 64
  const DEFAULT_DURATION: real := 0.25

  /** The largest value `(int)Math.floor(d)` can produce. */
  const MAX_JAVA_INT: int := 0x7FFF_FFFF

  /** Java's `/` on `int` for a positive divisor: truncates toward zero. */
  function JavaQuot(a: int, b: int): int
    requires b > 0
  {
    if a >= 0 then a / b else -((-a) / b)
  }

  /** Java's `%` on `int` for a positive divisor: the remainder takes the
      sign of the dividend and completes the truncating quotient. */
  function JavaRem(a: int, b: int): (r: int)
    requires b > 0
    ensures a >= 0 ==> r == a % b
    ensures a >= 0 ==> 0 <= r < b
    ensures a < 0 ==> -b < r <= 0
    ensures a == b * JavaQuot(a, b) + r
  {
    if a >= 0 then a % b
    else
      var q := (-a) / b;
      assert -a == b * q + (-a) % b;
      assert b * -q == -(b * q);
      -((-a) % b)
  }

  datatype Note = Note(
    value: int,
    duration: real,
    octaveExplicit: bool,
    durationExplicit: bool,
    onVelocity: int,
    offVelocity: int,
    isRest: bool,
    startOfTie: bool,
    endOfTie: bool,
    isFirst: bool,
    isMelodic: bool,
    isHarmonic: bool,
    isPercussion: bool,
    originalString: Option<string>)

  /** A MIDI pitch: the range in which the Java `(byte)` casts never wrap. */
  predicate ValidPitch(v: int) {
    0 <= v <= 127
  }

  // --------------------------------------------------------- construction

  /** `new Note()`: only the default velocities are set, and the note counts as first. */
  function Blank(): (n: Note)
    ensures n.value == 0 && n.duration == 0.0 && n.originalString.None?
    ensures n.isFirst && !n.isRest && !n.isPercussion && !n.isMelodic && !n.isHarmonic
    ensures !n.octaveExplicit && !n.durationExplicit && !n.startOfTie && !n.endOfTie
    ensures n.onVelocity == DEFAULT_ON_VELOCITY && n.offVelocity == DEFAULT_OFF_VELOCITY
  {
    Note(0, 0.0, false, false, DEFAULT_ON_VELOCITY, DEFAULT_OFF_VELOCITY,
         false, false, false, true, false, false, false, None)
  }

  /** `new Note(int value)`: default duration, which does not count as explicit. */
  function FromValue(v: int): (n: Note)
    requires ValidPitch(v)
    ensures GetValue(n) == v
    ensures n.duration == DEFAULT_DURATION && !n.durationExplicit && !n.octaveExplicit
    ensures n.isFirst && !n.isMelodic && !n.isHarmonic && n.originalString.None?
  {
    UseDefaultDuration(Blank().(value := v, octaveExplicit := false))
  }

  /** `new Note(int value, double duration)`: the duration is explicit. */
  function FromValueAndDuration(v: int, d: real): (n: Note)
    requires ValidPitch(v)
    ensures GetValue(n) == v && n.duration == d && n.durationExplicit
  {
    SetDuration(Blank().(value := v), d)
  }

  /** `new Note(Note note)`: every field is copied. */
  function Copy(n: Note): Note {
    Note(n.value, n.duration, n.octaveExplicit, n.durationExplicit, n.onVelocity,
         n.offVelocity, n.isRest, n.startOfTie, n.endOfTie, n.isFirst, n.isMelodic,
         n.isHarmonic, n.isPercussion, n.originalString)
  }

  // -------------------------------------------------------------- getters

  /** `getValue`: the MIDI value, or 0 for a rest. */
  function GetValue(n: Note): (v: int)
    ensures n.isRest ==> v == 0
    ensures !n.isRest ==> v == n.value
  {
    if n.isRest then 0 else n.value
  }

  /** `getOctave`: 0 for a rest, otherwise the octave the value falls in. */
  function GetOctave(n: Note): (o: int)
    requires ValidPitch(n.value)
    ensures n.isRest ==> o == 0
    ensures !n.isRest ==> OCTAVE * o <= n.value < OCTAVE * o + OCTAVE
    ensures 0 <= o <= 10
  {
    if n.isRest then 0 else GetValue(n) / OCTAVE
  }

  /** `getPositionInOctave`: 0 for a rest, otherwise the pitch class, C being 0. */
  function GetPositionInOctave(n: Note): (p: int)
    requires ValidPitch(n.value)
    ensures 0 <= p < OCTAVE
    ensures n.isRest ==> p == 0
    ensures !n.isRest ==> (n.value - p) % OCTAVE == 0
  {
    if n.isRest then 0 else GetValue(n) % OCTAVE
  }

  /** Octave and position recompose the value of any pitched note. */
  lemma OctaveAndPositionRecompose(n: Note)
    requires ValidPitch(n.value)
    requires !n.isRest
    ensures OCTAVE * GetOctave(n) + GetPositionInOctave(n) == GetValue(n)
  {
  }

  // -------------------------------------------------------------- setters

  function SetValue(n: Note, v: int): (r: Note)
    ensures r.value == v && r.(value := n.value) == n
  {
    n.(value := v)
  }

  /** `setDuration`: stores the duration and marks it explicit. */
  function SetDuration(n: Note, d: real): (r: Note)
    ensures r.duration == d && r.durationExplicit
    ensures r.(duration := n.duration, durationExplicit := n.durationExplicit) == n
  {
    n.(duration := d, durationExplicit := true)
  }

  /** `useDefaultDuration`: stores the default duration; the explicit flag is untouched. */
  function UseDefaultDuration(n: Note): (r: Note)
    ensures r.duration == DEFAULT_DURATION
    ensures r.durationExplicit == n.durationExplicit
    ensures r.(duration := n.duration) == n
  {
    n.(duration := DEFAULT_DURATION)
  }

  /** `useSameDurationAs`: takes both the duration and its explicit flag from `other`. */
  function UseSameDurationAs(n: Note, other: Note): (r: Note)
    ensures r.duration == other.duration && r.durationExplicit == other.durationExplicit
    ensures r.(duration := n.duration, durationExplicit := n.durationExplicit) == n
  {
    n.(duration := other.duration, durationExplicit := other.durationExplicit)
  }

  /** `useSameExplicitOctaveSettingAs`: takes the explicit-octave flag from `other`. */
  function UseSameExplicitOctaveSettingAs(n: Note, other: Note): (r: Note)
    ensures r.octaveExplicit == other.octaveExplicit
    ensures r.(octaveExplicit := n.octaveExplicit) == n
  {
    n.(octaveExplicit := other.octaveExplicit)
  }

  // ------------------------------------------------------------- equality

  /** `equals`: all scalar fields agree; the original spellings must match ignoring
      case, unless one of them is absent. */
  predicate NoteEquals(a: Note, b: Note) {
    && a.value == b.value
    && a.duration == b.duration
    && a.octaveExplicit == b.octaveExplicit
    && a.durationExplicit == b.durationExplicit
    && a.endOfTie == b.endOfTie
    && a.startOfTie == b.startOfTie
    && a.isMelodic == b.isMelodic
    && a.isHarmonic == b.isHarmonic
    && a.isPercussion == b.isPercussion
    && a.isFirst == b.isFirst
    && a.isRest == b.isRest
    && a.onVelocity == b.onVelocity
    && a.offVelocity == b.offVelocity
    && (a.originalString.None? || b.originalString.None?
        || EqualsIgnoreCase(b.originalString.value, a.originalString.value))
  }

  /** The copy constructor yields a note equal to the original, and equality is symmetric. */
  lemma CopyEqualsOriginal(a: Note, b: Note)
    ensures NoteEquals(Copy(a), a) && NoteEquals(a, Copy(a))
    ensures NoteEquals(a, b) <==> NoteEquals(b, a)
  {
    assert Copy(a) == a;
  }

  /** Spelling differences are invisible to `equals` only up to case. */
  lemma EqualsComparesSpellingIgnoringCase(a: Note, s: string, t: string)
    ensures NoteEquals(a.(originalString := Some(s)), a.(originalString := Some(t)))
            <==> EqualsIgnoreCase(s, t)
  {
    EqualsIgnoreCaseIsEquivalence(s, t, s);
  }

  /** Because an absent spelling matches anything, `equals` is not transitive:
      C# and Db (value 61) both equal the unspelled note, but not each other. */
  lemma EqualsIsNotTransitive()
    ensures var plain := FromValue(61);
            var sharp := plain.(originalString := Some("C#"));
            var flat := plain.(originalString := Some("Db"));
            NoteEquals(sharp, plain) && NoteEquals(plain, flat) && !NoteEquals(sharp, flat)
  {
    assert Upper("C#") == "C#";
    assert Upper("Db") == "DB";
  }

  // ----------------------------------------------------------- tone names

  const NOTE_NAMES_COMMON: seq<string> := ["C", "C#", "D", "Eb", "E", "F", "F#", "G", "G#", "A", "Bb", "B"]
  const NOTE_NAMES_SHARP: seq<string> := ["C", "C#", "D", "D#", "E", "F", "F#", "G", "G#", "A", "A#", "B"]
  const NOTE_NAMES_FLAT: seq<string> := ["C", "Db", "D", "Eb", "E", "F", "Gb", "G", "Ab", "A", "Bb", "B"]

  /** The pitch classes of the white keys. */
  predicate IsNatural(i: int) {
    i == 0 || i == 2 || i == 4 || i == 5 || i == 7 || i == 9 || i == 11
  }

  /** The three name tables agree exactly on the white keys; on a black key the
      sharp and flat tables differ and the common table picks one of them. */
  lemma NameTablesAgreeOnNaturals(i: int)
    requires 0 <= i < 12
    ensures IsNatural(i) <==> NOTE_NAMES_SHARP[i] == NOTE_NAMES_FLAT[i]
    ensures IsNatural(i) ==> NOTE_NAMES_COMMON[i] == NOTE_NAMES_SHARP[i]
    ensures NOTE_NAMES_COMMON[i] == NOTE_NAMES_SHARP[i] || NOTE_NAMES_COMMON[i] == NOTE_NAMES_FLAT[i]
  {
  }

  /** Independent reading of a pitch name: letter position plus accidental offset. */
  function LetterPosition(c: char): int {
    match c
    case 'C' => 0 case 'D' => 2 case 'E' => 4 case 'F' => 5
    case 'G' => 7 case 'A' => 9 case 'B' => 11
    case _ => -100
  }

  function AccidentalOffset(s: string): int {
    if s == [] then 0
    else (if s[0] == '#' then 1 else if s[0] == 'b' then -1 else 0) + AccidentalOffset(s[1..])
  }

  function NamePosition(name: string): int
    requires |name| > 0
  {
    (LetterPosition(name[0]) + AccidentalOffset(name[1..])) % 12
  }

  /** Every entry of every table names the pitch class it is stored at. */
  lemma NameTablesDenotePosition(i: int)
    requires 0 <= i < 12
    ensures NamePosition(NOTE_NAMES_COMMON[i]) == i
    ensures NamePosition(NOTE_NAMES_SHARP[i]) == i
    ensures NamePosition(NOTE_NAMES_FLAT[i]) == i
  {
  }

  /** `getToneStringWithoutOctave(byte)`: the common-table name of the pitch class. */
  function ToneStringWithoutOctave(v: int): (s: string)
    requires ValidPitch(v)
    ensures s == NOTE_NAMES_COMMON[v % 12]
    ensures |s| > 0 && NamePosition(s) == v % 12
  {
    NameTablesDenotePosition(v % 12);
    NOTE_NAMES_COMMON[v % OCTAVE]
  }

  /** `getDispositionedToneStringWithoutOctave`: -1 selects the flat table, any
      other disposition (0 included) the sharp table. */
  function DispositionedToneStringWithoutOctave(dispose: int, v: int): (s: string)
    requires ValidPitch(v)
    ensures |s| > 0 && NamePosition(s) == v % 12
    ensures dispose == -1 ==> s == NOTE_NAMES_FLAT[v % 12]
    ensures dispose != -1 ==> s == NOTE_NAMES_SHARP[v % 12]
    ensures '#' !in s || 'b' !in s
  {
    NameTablesDenotePosition(v % 12);
    if dispose == -1 then NOTE_NAMES_FLAT[v % OCTAVE] else NOTE_NAMES_SHARP[v % OCTAVE]
  }

  /** `getToneString(byte)`: the common name followed by the octave number. */
  function ToneString(v: int): (s: string)
    requires ValidPitch(v)
    ensures s == ToneStringWithoutOctave(v) + NatToString(v / 12)
  {
    NOTE_NAMES_COMMON[v % OCTAVE] + NatToString(v / OCTAVE)
  }

  /** `getDispositionedToneStringWithOctave`. */
  function DispositionedToneStringWithOctave(dispose: int, v: int): (s: string)
    requires ValidPitch(v)
    ensures s == DispositionedToneStringWithoutOctave(dispose, v) + NatToString(v / 12)
  {
    (if dispose == -1 then NOTE_NAMES_FLAT[v % OCTAVE] else NOTE_NAMES_SHARP[v % OCTAVE])
      + NatToString(v / OCTAVE)
  }

  /** Length of the name part of a tone string: everything before the first digit. */
  function NameLength(s: string): (k: nat)
    ensures k <= |s|
    ensures forall j :: 0 <= j < k ==> !IsDigit(s[j])
    ensures k < |s| ==> IsDigit(s[k])
  {
    if s == [] || IsDigit(s[0]) then 0 else 1 + NameLength(s[1..])
  }

  /** Reads a tone string with octave back as a pitch: the name gives the
      position in the octave, the digits after it the octave. */
  function ToneValue(s: string): Option<int> {
    var k := NameLength(s);
    if 0 < k < |s| && forall j :: k <= j < |s| ==> IsDigit(s[j]) then
      Some(OCTAVE * ParseDigits(s[k..]) + NamePosition(s[..k]))
    else None
  }

  /** No table name contains a digit. */
  lemma TableNamesHaveNoDigit(i: int)
    requires 0 <= i < 12
    ensures forall j :: 0 <= j < |NOTE_NAMES_COMMON[i]| ==> !IsDigit(NOTE_NAMES_COMMON[i][j])
    ensures forall j :: 0 <= j < |NOTE_NAMES_SHARP[i]| ==> !IsDigit(NOTE_NAMES_SHARP[i][j])
    ensures forall j :: 0 <= j < |NOTE_NAMES_FLAT[i]| ==> !IsDigit(NOTE_NAMES_FLAT[i][j])
  {
  }

  /** A digit-free name of the right position followed by the octave digits
      reads back as the pitch. */
  lemma NamedOctaveReadsBack(name: string, v: int)
    requires ValidPitch(v) && |name| > 0 && NamePosition(name) == v % 12
    requires forall j :: 0 <= j < |name| ==> !IsDigit(name[j])
    ensures ToneValue(name + NatToString(v / OCTAVE)) == Some(v)
  {
    var digits := NatToString(v / OCTAVE);
    var s := name + digits;
    assert s[|name|] == digits[0];
    var k := NameLength(s);
    assert k == |name|;
    assert s[k..] == digits && s[..k] == name;
    ParseNatToString(v / OCTAVE);
  }

  /** The tone strings with octave determine the pitch they were made from. */
  lemma ToneStringReadsBack(dispose: int, v: int)
    requires ValidPitch(v)
    ensures ToneValue(ToneString(v)) == Some(v)
    ensures ToneValue(DispositionedToneStringWithOctave(dispose, v)) == Some(v)
  {
    TableNamesHaveNoDigit(v % OCTAVE);
    NamedOctaveReadsBack(ToneStringWithoutOctave(v), v);
    NamedOctaveReadsBack(DispositionedToneStringWithoutOctave(dispose, v), v);
  }

  /** Instance `getToneString`: "R" for a rest; otherwise the original spelling
      (or the common name) followed by the octave when it was explicit. */
  function GetToneString(n: Note): string
    requires ValidPitch(n.value)
  {
    if n.isRest then "R"
    else
      (match n.originalString
       case Some(s) => s
       case None => ToneStringWithoutOctave(GetValue(n)))
      + (if n.octaveExplicit then NatToString(GetOctave(n)) else "")
  }

  // ---------------------------------------------------------- accidentals

  /** Accidental count read from the upper-cased text after the first character:
      BB, then B, then ##, then #, the first that occurs deciding. */
  function SpellingAccidental(s: string): (a: int)
    ensures -2 <= a <= 2
  {
    if |s| > 1 then AccidentalMarks(Upper(s[1..])) else 0
  }

  /** The ordered tests of upper-cased text: BB, B, ##, #. */
  function AccidentalMarks(rest: string): (a: int)
    ensures -2 <= a <= 2
  {
    if Contains(rest, "BB") then -2
    else if Contains(rest, "B") then -1
    else if Contains(rest, "##") then 2
    else if Contains(rest, "#") then 1
    else 0
  }

  function Sign(x: int): (s: int)
    ensures -1 <= s <= 1
    ensures s < 0 <==> x < 0
    ensures s > 0 <==> x > 0
  {
    if x < 0 then -1 else if x > 0 then 1 else 0
  }

  /** `getAllAccidental`: -2..2 read from the tone string; 0 for rests and percussion. */
  function GetAllAccidental(n: Note): (a: int)
    requires ValidPitch(n.value)
    ensures -2 <= a <= 2
    ensures n.isRest || n.isPercussion ==> a == 0
  {
    var tone := GetToneString(n);
    if !n.isRest && !n.isPercussion then SpellingAccidental(tone) else 0
  }

  /** `getAccidental`: the same reading, collapsed to -1, 0 or +1. */
  function GetAccidental(n: Note): (a: int)
    requires ValidPitch(n.value)
    ensures a == Sign(GetAllAccidental(n))
  {
    var tone := GetToneString(n);
    if !n.isRest && !n.isPercussion && |tone| > 1 then
      var rest := Upper(tone[1..]);
      if Contains(rest, "BB") then -1
      else if Contains(rest, "B") then -1
      else if Contains(rest, "##") then 1
      else if Contains(rest, "#") then 1
      else 0
    else 0
  }

  /** The accidentals a spelling may carry, with their value. */
  function AccidentalValue(acc: string): int {
    match acc
    case "bb" => -2 case "b" => -1 case "##" => 2 case "#" => 1 case _ => 0
  }

  predicate IsAccidentalText(acc: string) {
    acc == "" || acc == "b" || acc == "bb" || acc == "#" || acc == "##"
  }

  predicate IsLetter(c: char) {
    'A' <= c <= 'G'
  }

  /** A spelled pitch, letter plus accidentals plus any octave digits, reads back
      the accidental it was spelled with. */
  lemma SpelledAccidental(letter: char, acc: string, digits: string)
    requires IsLetter(letter) && IsAccidentalText(acc)
    requires forall k :: 0 <= k < |digits| ==> IsDigit(digits[k])
    ensures SpellingAccidental([letter] + acc + digits) == AccidentalValue(acc)
  {
    var s := [letter] + acc + digits;
    if |s| > 1 {
      assert s[1..] == acc + digits;
      UpperDigits(digits);
      UpperAppend(acc, digits);
      MarksIgnoreDigits(Upper(acc), digits);
      MarksOfAccidental(acc);
    }
  }

  /** Octave digits after the accidentals change none of the tests. */
  lemma MarksIgnoreDigits(u: string, digits: string)
    requires forall k :: 0 <= k < |digits| ==> IsDigit(digits[k])
    ensures AccidentalMarks(u + digits) == AccidentalMarks(u)
  {
    ContainsAppendForeign(u, digits, "BB");
    ContainsAppendForeign(u, digits, "B");
    ContainsAppendForeign(u, digits, "##");
    ContainsAppendForeign(u, digits, "#");
  }

  /** Each accidental spelling, upper-cased, passes the test it stands for. */
  lemma MarksOfAccidental(acc: string)
    requires IsAccidentalText(acc)
    ensures AccidentalMarks(Upper(acc)) == AccidentalValue(acc)
  {
    if acc == "bb" {
      assert Upper(acc) == "BB";
    } else if acc == "b" {
      assert Upper(acc) == "B";
    }
  }

  lemma {:induction false} UpperAppend(s: string, t: string)
    ensures Upper(s + t) == Upper(s) + Upper(t)
  {
  }

  lemma UpperDigits(digits: string)
    requires forall k :: 0 <= k < |digits| ==> IsDigit(digits[k])
    ensures Upper(digits) == digits
  {
  }

  /** Accidental implied by the common name table at each pitch class. */
  function CommonAccidental(p: int): int {
    if p == 3 || p == 10 then -1 else if p == 1 || p == 6 || p == 8 then 1 else 0
  }

  /** A pitched note without a spelling reads its accidental off the common table. */
  lemma UnspelledAccidental(n: Note)
    requires ValidPitch(n.value)
    requires !n.isRest && !n.isPercussion && n.originalString.None?
    ensures GetAllAccidental(n) == CommonAccidental(GetPositionInOctave(n))
    ensures GetAccidental(n) == CommonAccidental(GetPositionInOctave(n))
  {
    var p := GetPositionInOctave(n);
    var name := NOTE_NAMES_COMMON[p];
    var digits := if n.octaveExplicit then NatToString(GetOctave(n)) else "";
    assert GetToneString(n) == name + digits;
    var acc := name[1..];
    assert name == [name[0]] + acc;
    SpelledAccidental(name[0], acc, digits);
    assert [name[0]] + acc + digits == name + digits;
  }

  // ------------------------------------------------------------ durations

  /** The single-letter durations and their dotted forms, in lookup order. */
  const DURATION_TABLE: seq<(real, string)> := [
    (0.75, "h."), (0.5, "h"), (0.375, "q."), (0.25, "q"),
    (0.1875, "i."), (0.125, "i"), (0.09375, "s."), (0.0625, "s"),
    (0.046875, "t."), (0.03125, "t"), (0.0234375, "x."), (0.015625, "x"),
    (0.01171875, "o."), (0.0078125, "o")]

  /** The letter text of a table fraction, if the fraction is in the table. */
  function LetterFor(d: real): (r: Option<string>)
    ensures r.Some? <==> exists i :: 0 <= i < |DURATION_TABLE| && DURATION_TABLE[i].0 == d
    ensures r.Some? ==> exists i :: 0 <= i < |DURATION_TABLE| && DURATION_TABLE[i] == (d, r.value)
  {
    LetterForFrom(d, 0)
  }

  function LetterForFrom(d: real, i: nat): (r: Option<string>)
    requires i <= |DURATION_TABLE|
    ensures r.Some? <==> exists j :: i <= j < |DURATION_TABLE| && DURATION_TABLE[j].0 == d
    ensures r.Some? ==> exists j :: i <= j < |DURATION_TABLE| && DURATION_TABLE[j] == (d, r.value)
    decreases |DURATION_TABLE| - i
  {
    if i == |DURATION_TABLE| then None
    else if DURATION_TABLE[i].0 == d then Some(DURATION_TABLE[i].1)
    else LetterForFrom(d, i + 1)
  }

  /** The value of a letter text, if it is one of the table's. */
  function ValueOfLetter(s: string): Option<real> {
    ValueOfLetterFrom(s, 0)
  }

  function ValueOfLetterFrom(s: string, i: nat): Option<real>
    requires i <= |DURATION_TABLE|
    decreases |DURATION_TABLE| - i
  {
    if i == |DURATION_TABLE| then None
    else if DURATION_TABLE[i].1 == s then Some(DURATION_TABLE[i].0)
    else ValueOfLetterFrom(s, i + 1)
  }

  /** `(int)Math.floor(d)`, saturating at the largest Java int. */
  function WholeCount(d: real): int {
    if d.Floor > MAX_JAVA_INT then MAX_JAVA_INT else d.Floor
  }

  /** The "w" prefix and count that `getDurationString` emits before the remainder. */
  function WholePrefix(d: real): (p: string)
    ensures d < 1.0 ==> p == []
    ensures d >= 1.0 ==> |p| > 0 && p[0] == 'w'
  {
    if d >= 1.0 then
      var whole := WholeCount(d);
      "w" + (if whole > 1 then IntToString(whole) else "")
    else ""
  }

  /** What is left of `d` after the whole notes are stripped. */
  function Remainder(d: real): real {
    if d >= 1.0 then d - WholeCount(d) as real else d
  }

  /** The remainder is zero or a table fraction, so no "/" fallback is needed. */
  predicate Encodable(d: real) {
    Remainder(d) == 0.0 || LetterFor(Remainder(d)).Some?
  }

  /** `getDurationString`: "w" and the whole count (when above 1) for durations of
      at least a whole note, then the table letter of the remainder; a remainder
      outside the table falls back to "/" and the ORIGINAL value as Java prints
      it (`show`). */
  function DurationString(d: real, show: real -> string): (r: string)
    ensures r == [] <==> d == 0.0
    ensures !Encodable(d) ==> r == "/" + show(d)
    ensures Encodable(d) ==> |r| == 0 || r[0] != '/'
    ensures d < 0.0 ==> r == "/" + show(d)
    ensures 0.0 < d < 1.0 && LetterFor(d).Some? ==> r == LetterFor(d).value
  {
    var rem := Remainder(d);
    if rem == 0.0 then WholePrefix(d)
    else match LetterFor(rem)
      case Some(letter) => WholePrefix(d) + letter
      case None => "/" + show(d)
  }

  /** Reads a duration string back (the inverse on every non-fallback output):
      an optional "w" with an optional count, then an optional table letter. */
  function DecodeDuration(s: string): Option<real> {
    if s != [] && s[0] == 'w' then DecodeAfterWhole(s[1..]) else DecodeLetter(s)
  }

  /** The text after "w": a count (1 when absent) and a letter text. */
  function DecodeAfterWhole(t: string): Option<real> {
    var digits := DigitPrefix(t);
    var count := if digits == [] then 1 else ParseDigits(digits);
    var letter := DecodeLetter(t[|digits|..]);
    if letter.Some? then Some(count as real + letter.value) else None
  }

  function DecodeLetter(s: string): Option<real> {
    if s == [] then Some(0.0) else ValueOfLetter(s)
  }

  /** The leading run of decimal digits. */
  function DigitPrefix(s: string): (p: string)
    ensures |p| <= |s| && p == s[..|p|]
    ensures forall k :: 0 <= k < |p| ==> IsDigit(p[k])
    ensures |p| < |s| ==> !IsDigit(s[|p|])
  {
    if s != [] && IsDigit(s[0]) then [s[0]] + DigitPrefix(s[1..]) else []
  }

  lemma {:induction false} DigitPrefixOfDigits(digits: string, rest: string)
    requires forall k :: 0 <= k < |digits| ==> IsDigit(digits[k])
    requires rest == [] || !IsDigit(rest[0])
    ensures DigitPrefix(digits + rest) == digits
  {
    if digits != [] {
      assert (digits + rest)[1..] == digits[1..] + rest;
      DigitPrefixOfDigits(digits[1..], rest);
    } else {
      assert digits + rest == rest;
    }
  }

  /** The table letters are told apart by their text. */
  lemma LetterTextsDistinct(d: real)
    requires LetterFor(d).Some?
    ensures ValueOfLetter(LetterFor(d).value) == Some(d)
    ensures LetterFor(d).value != [] && !IsDigit(LetterFor(d).value[0]) && LetterFor(d).value[0] != 'w'
  {
    var i :| 0 <= i < |DURATION_TABLE| && DURATION_TABLE[i] == (d, LetterFor(d).value);
    LetterRow(i);
  }

  /** One row of the table: its letter text reads back its fraction. */
  lemma LetterRow(i: int)
    requires 0 <= i < |DURATION_TABLE|
    ensures ValueOfLetter(DURATION_TABLE[i].1) == Some(DURATION_TABLE[i].0)
    ensures DURATION_TABLE[i].1 != [] && !IsDigit(DURATION_TABLE[i].1[0]) && DURATION_TABLE[i].1[0] != 'w'
  {
    LetterFoundFrom(i, 0);
  }

  /** The lookup started at or before a row stops at that row: no earlier
      row has the same letter text. */
  lemma LetterFoundFrom(i: int, j: nat)
    requires j <= i < |DURATION_TABLE|
    ensures ValueOfLetterFrom(DURATION_TABLE[i].1, j) == Some(DURATION_TABLE[i].0)
    decreases i - j
  {
    if j < i {
      assert DURATION_TABLE[j].1 != DURATION_TABLE[i].1;
      LetterFoundFrom(i, j + 1);
    }
  }

  /** "w", a digit run and a letter text decode to the count plus the letter's value. */
  lemma DecodeCounted(s: string, count: string, letter: string, v: real)
    requires s == "w" + (count + letter)
    requires forall k :: 0 <= k < |count| ==> IsDigit(count[k])
    requires letter == [] || !IsDigit(letter[0])
    requires DecodeLetter(letter) == Some(v)
    ensures DecodeDuration(s) == Some((if count == [] then 1 else ParseDigits(count)) as real + v)
  {
    assert s[1..] == count + letter;
    assert DecodeDuration(s) == DecodeAfterWhole(count + letter);
    DigitPrefixOfDigits(count, letter);
    var t := count + letter;
    assert t[|count|..] == letter;
    AfterWholeStep(t, count, v);
  }

  lemma AfterWholeStep(t: string, digits: string, v: real)
    requires DigitPrefix(t) == digits
    requires DecodeLetter(t[|digits|..]) == Some(v)
    ensures DecodeAfterWhole(t) == Some((if digits == [] then 1 else ParseDigits(digits)) as real + v)
  {
  }

  /** A whole prefix followed by a letter text decodes to the count plus the letter's value. */
  lemma DecodeWholeAndLetter(d: real, letter: string, v: real)
    requires d >= 1.0
    requires DecodeLetter(letter) == Some(v)
    requires letter == [] || !IsDigit(letter[0])
    ensures DecodeDuration(WholePrefix(d) + letter) == Some(WholeCount(d) as real + v)
  {
    var whole := WholeCount(d);
    assert whole >= 1 by { FloorAtLeastOne(d); }
    var count := if whole > 1 then IntToString(whole) else "";
    assert WholePrefix(d) + letter == "w" + (count + letter);
    DecodeCounted(WholePrefix(d) + letter, count, letter, v);
    if whole > 1 {
      ParseNatToString(whole);
    }
  }

  lemma FloorAtLeastOne(d: real)
    requires d >= 1.0
    ensures d.Floor >= 1
  {
    assert (1.0).Floor == 1;
  }

  /** Every duration string that is not the "/" fallback decodes to the duration. */
  lemma DurationRoundTrip(d: real, show: real -> string)
    requires Encodable(d)
    ensures DecodeDuration(DurationString(d, show)) == Some(d)
  {
    var rem := Remainder(d);
    var letter := if rem == 0.0 then "" else LetterFor(rem).value;
    if rem != 0.0 {
      LetterTextsDistinct(rem);
    }
    assert DurationString(d, show) == WholePrefix(d) + letter;
    DecodeRemainder(d, letter);
  }

  lemma DecodeRemainder(d: real, letter: string)
    requires DecodeLetter(letter) == Some(Remainder(d))
    requires letter == [] || (!IsDigit(letter[0]) && letter[0] != 'w')
    ensures DecodeDuration(WholePrefix(d) + letter) == Some(d)
  {
    if d >= 1.0 {
      DecodeWholeAndLetter(d, letter, Remainder(d));
    } else {
      DecodeBareLetter(letter, Remainder(d));
    }
  }

  lemma DecodeBareLetter(letter: string, v: real)
    requires DecodeLetter(letter) == Some(v)
    requires letter == [] || (!IsDigit(letter[0]) && letter[0] != 'w')
    ensures DecodeDuration([] + letter) == Some(v)
  {
    assert [] + letter == letter;
  }

  /** Examples the Javadoc gives: whole counts, a half after a whole, a dotted
      half, and a combined duration that is not in the table. */
  lemma DurationExamples(show: real -> string)
    ensures DurationString(4.0, show) == "w4"
    ensures DurationString(1.5, show) == "wh"
    ensures DurationString(0.75, show) == "h."
    ensures DurationString(1.0, show) == "w"
    ensures DurationString(0.625, show) == "/" + show(0.625)
    ensures DurationString(2.625, show) == "/" + show(2.625)
  {
    assert (4.0).Floor == 4;
    assert (1.5).Floor == 1;
    assert (1.0).Floor == 1;
    assert (2.625).Floor == 2;
    assert LetterFor(0.625).None?;
  }

  /** `getDurationStringForBeat`: h, q, i, s for beats 2, 4, 8, 16; otherwise "/"
      and 1/beat as Java prints it (1.0/0 is Infinity). */
  function DurationStringForBeat(beat: int, show: real -> string): (r: string)
    ensures beat != 2 && beat != 4 && beat != 8 && beat != 16 ==> |r| > 0 && r[0] == '/'
    ensures beat == 0 ==> r == "/Infinity"
    ensures beat != 0 && beat != 2 && beat != 4 && beat != 8 && beat != 16 ==> r == "/" + show(1.0 / beat as real)
  {
    match beat
    case 2 => "h"
    case 4 => "q"
    case 8 => "i"
    case 16 => "s"
    case _ => if beat == 0 then "/Infinity" else "/" + show(1.0 / beat as real)
  }

  /** The four named beats give the same text as the general encoder of 1/beat. */
  lemma BeatAgreesWithDurationString(beat: int, show: real -> string)
    requires beat == 2 || beat == 4 || beat == 8 || beat == 16
    ensures DurationStringForBeat(beat, show) == DurationString(1.0 / beat as real, show)
  {
    var d := 1.0 / beat as real;
    assert d < 1.0 && d.Floor == 0;
    if beat == 2 {
      assert d == 0.5;
      assert LetterFor(0.5) == Some("h");
    } else if beat == 4 {
      assert d == 0.25;
      assert LetterFor(0.25) == Some("q");
    } else if beat == 8 {
      assert d == 0.125;
      assert LetterFor(0.125) == Some("i");
    } else {
      assert d == 0.0625;
      assert LetterFor(0.0625) == Some("s");
    }
  }

  // --------------------------------------------------------- note as text

  /** `getVelocityString`: "a" and the on velocity, "d" and the off velocity,
      each only when it differs from its default. Reading the text back gives
      exactly the velocities that differ from their defaults. */
  function VelocityString(n: Note): (s: string)
    ensures s == [] <==> n.onVelocity == DEFAULT_ON_VELOCITY && n.offVelocity == DEFAULT_OFF_VELOCITY
    ensures s == (if n.onVelocity != DEFAULT_ON_VELOCITY then "a" + IntToString(n.onVelocity) else "")
                 + (if n.offVelocity != DEFAULT_OFF_VELOCITY then "d" + IntToString(n.offVelocity) else "")
    ensures ReadVelocities(s) == Some((NonDefault(n.onVelocity, DEFAULT_ON_VELOCITY),
                                       NonDefault(n.offVelocity, DEFAULT_OFF_VELOCITY)))
  {
    var on := if n.onVelocity != DEFAULT_ON_VELOCITY then "a" + IntToString(n.onVelocity) else "";
    var off := if n.offVelocity != DEFAULT_OFF_VELOCITY then "d" + IntToString(n.offVelocity) else "";
    VelocityPiecesReadBack(on, off, n.onVelocity, n.offVelocity);
    on + off
  }

  /** A velocity when it is not the default. */
  function NonDefault(velocity: int, default: int): Option<int> {
    if velocity != default then Some(velocity) else None
  }

  /** Reads a velocity text: an optional "a" and an integer, then an optional
      "d" and an integer; no reading for any other text. */
  function ReadVelocities(s: string): Option<(Option<int>, Option<int>)> {
    var k := IndexOf(s, 'd');
    var on, off := s[..k], s[k..];
    if (on == [] || (on[0] == 'a' && IsIntText(on[1..]))) && (off == [] || IsIntText(off[1..])) then
      Some(((if on == [] then None else Some(ParseInt(on[1..]))),
            (if off == [] then None else Some(ParseInt(off[1..])))))
    else None
  }

  lemma VelocityPiecesReadBack(on: string, off: string, a: int, d: int)
    requires on == "" || on == "a" + IntToString(a)
    requires off == "" || off == "d" + IntToString(d)
    ensures ReadVelocities(on + off)
            == Some(((if on == "" then None else Some(a)), (if off == "" then None else Some(d))))
  {
    ParseIntToString(a);
    ParseIntToString(d);
    var s := on + off;
    assert s[..|on|] == on && s[|on|..] == off;
    assert forall j :: 0 <= j < |on| ==> s[j] != 'd' by {
      forall j | 0 <= j < |on| ensures s[j] != 'd' {
        assert s[j] == on[j];
        if j > 0 {
          assert on[j] == IntToString(a)[j - 1];
        }
      }
    }
    if off != "" {
      assert s[|on|] == 'd';
    }
    assert IndexOf(s, 'd') == |on|;
    if on != "" {
      assert on[1..] == IntToString(a);
    }
    if off != "" {
      assert off[1..] == IntToString(d);
    }
  }

  /** `getDecoratorString`: the duration when explicit, then the velocities. */
  function DecoratorString(n: Note, show: real -> string): string {
    (if n.durationExplicit then DurationString(n.duration, show) else "") + VelocityString(n)
  }

  /** `PERCUSSION_NAMES`: the General MIDI percussion keys 35..81, in key
      order, written as three joined runs of keys 35..50, 51..66 and 67..81. */
  const PERCUSSION_NAMES: seq<string> := PERCUSSION_FROM_35 + PERCUSSION_FROM_51 + PERCUSSION_FROM_67

  const PERCUSSION_FROM_35: seq<string> := [
    "ACOUSTIC_BASS_DRUM", "BASS_DRUM", "SIDE_STICK", "ACOUSTIC_SNARE", "HAND_CLAP",
    "ELECTRIC_SNARE", "LO_FLOOR_TOM", "CLOSED_HI_HAT", "HIGH_FLOOR_TOM", "PEDAL_HI_HAT",
    "LO_TOM", "OPEN_HI_HAT", "LO_MID_TOM", "HI_MID_TOM", "CRASH_CYMBAL_1", "HI_TOM"]

  const PERCUSSION_FROM_51: seq<string> := [
    "RIDE_CYMBAL_1", "CHINESE_CYMBAL", "RIDE_BELL", "TAMBOURINE", "SPLASH_CYMBAL",
    "COWBELL", "CRASH_CYMBAL_2", "VIBRASLAP", "RIDE_CYMBAL_2", "HI_BONGO", "LO_BONGO",
    "MUTE_HI_CONGA", "OPEN_HI_CONGA", "LO_CONGA", "HI_TIMBALE", "LO_TIMBALE"]

  const PERCUSSION_FROM_67: seq<string> := [
    "HI_AGOGO", "LO_AGOGO", "CABASA", "MARACAS", "SHORT_WHISTLE", "LONG_WHISTLE",
    "SHORT_GUIRO", "LONG_GUIRO", "CLAVES", "HI_WOOD_BLOCK", "LO_WOOD_BLOCK", "MUTE_CUICA",
    "OPEN_CUICA", "MUTE_TRIANGLE", "OPEN_TRIANGLE"]

  /** `getPercussionString`: the bracketed name of MIDI percussion key
      35..81; any other key indexes outside the name table and throws. */
  function PercussionString(v: int): (r: Result<string>)
    ensures r.Ok? <==> 35 <= v <= 81
    ensures r.Err? ==> r.error == IndexOutOfBounds
    ensures r.Ok? ==> r.value == "[" + PERCUSSION_NAMES[v - 35] + "]"
  {
    if 35 <= v <= 81 then Ok("[" + PERCUSSION_NAMES[v - 35] + "]") else Err(IndexOutOfBounds)
  }

  /** The percussion key a text names: the bracketed name of a table entry. */
  function PercussionKey(s: string): Option<int> {
    if |s| >= 2 && s[0] == '[' && s[|s| - 1] == ']' then
      match FindPercussionName(s[1..|s| - 1], 0)
      case Some(k) => Some(k + 35)
      case None => None
    else None
  }

  /** The first table index from `i` on that holds `name`. */
  function FindPercussionName(name: string, i: nat): (r: Option<nat>)
    ensures r.Some? ==> i <= r.value < |PERCUSSION_NAMES| && PERCUSSION_NAMES[r.value] == name
    decreases |PERCUSSION_NAMES| - i
  {
    if i >= |PERCUSSION_NAMES| then None
    else if PERCUSSION_NAMES[i] == name then Some(i)
    else FindPercussionName(name, i + 1)
  }

  /** The percussion text and the key it names determine each other. */
  lemma PercussionStringReadsBack(s: string, v: int)
    ensures PercussionKey(s) == Some(v) <==> PercussionString(v) == Ok(s)
  {
    if PercussionString(v) == Ok(s) {
      PercussionStringNamesItsKey(v);
    }
    if PercussionKey(s) == Some(v) {
      PercussionKeyIsWritten(s, v);
    }
  }

  lemma PercussionStringNamesItsKey(v: int)
    requires PercussionString(v).Ok?
    ensures PercussionKey(PercussionString(v).value) == Some(v)
  {
    var s := PercussionString(v).value;
    assert s[1..|s| - 1] == PERCUSSION_NAMES[v - 35];
    FindsOnlyItsName(v - 35, 0);
  }

  lemma PercussionKeyIsWritten(s: string, v: int)
    requires PercussionKey(s) == Some(v)
    ensures PercussionString(v) == Ok(s)
  {
    var k := FindPercussionName(s[1..|s| - 1], 0).value;
    assert s == "[" + PERCUSSION_NAMES[k] + "]";
  }

  lemma {:induction false} FindsOnlyItsName(k: nat, i: nat)
    requires i <= k < |PERCUSSION_NAMES|
    ensures FindPercussionName(PERCUSSION_NAMES[k], i) == Some(k)
    decreases k - i
  {
    if i < k {
      PercussionNamesDistinct(i, k);
      FindsOnlyItsName(k, i + 1);
    }
  }

  /** No two percussion keys share a name. */
  lemma PercussionNamesDistinct(i: int, j: int)
    requires 0 <= i < j < |PERCUSSION_NAMES|
    ensures PERCUSSION_NAMES[i] != PERCUSSION_NAMES[j]
  {
    if j < 16 {
      NamesApartFrom35(i, j);
    } else if i < 16 && j < 32 {
      NamesApartFrom35And51(i, j - 16);
    } else if i < 16 {
      NamesApartFrom35And67(i, j - 32);
    } else if j < 32 {
      NamesApartFrom51(i - 16, j - 16);
    } else if i < 32 {
      NamesApartFrom51And67(i - 16, j - 32);
    } else {
      NamesApartFrom67(i - 32, j - 32);
    }
  }

  lemma NamesApartFrom35(i: int, j: int)
    requires 0 <= i < j < |PERCUSSION_FROM_35|
    ensures PERCUSSION_FROM_35[i] != PERCUSSION_FROM_35[j]
  {
  }

  lemma NamesApartFrom51(i: int, j: int)
    requires 0 <= i < j < |PERCUSSION_FROM_51|
    ensures PERCUSSION_FROM_51[i] != PERCUSSION_FROM_51[j]
  {
  }

  lemma NamesApartFrom67(i: int, j: int)
    requires 0 <= i < j < |PERCUSSION_FROM_67|
    ensures PERCUSSION_FROM_67[i] != PERCUSSION_FROM_67[j]
  {
  }

  lemma NamesApartFrom35And51(i: int, j: int)
    requires 0 <= i < |PERCUSSION_FROM_35| && 0 <= j < |PERCUSSION_FROM_51|
    ensures PERCUSSION_FROM_35[i] != PERCUSSION_FROM_51[j]
  {
  }

  lemma NamesApartFrom35And67(i: int, j: int)
    requires 0 <= i < |PERCUSSION_FROM_35| && 0 <= j < |PERCUSSION_FROM_67|
    ensures PERCUSSION_FROM_35[i] != PERCUSSION_FROM_67[j]
  {
  }

  lemma NamesApartFrom51And67(i: int, j: int)
    requires 0 <= i < |PERCUSSION_FROM_51| && 0 <= j < |PERCUSSION_FROM_67|
    ensures PERCUSSION_FROM_51[i] != PERCUSSION_FROM_67[j]
  {
  }

  /** A note whose text can be produced without an array-index failure. */
  predicate Renderable(n: Note) {
    ValidPitch(n.value) && (n.isRest || !n.isPercussion || 35 <= n.value <= 81)
  }

  /** `toStringWithoutDuration`: "R", the percussion name, or the spelling
      (the common name with the octave when there is none). A percussion
      note outside the percussion keys throws. */
  function ToStringWithoutDuration(n: Note): (r: Result<string>)
    requires ValidPitch(n.value)
    ensures r.Ok? <==> Renderable(n)
    ensures r.Err? ==> r.error == IndexOutOfBounds
    ensures n.isRest ==> r == Ok("R")
    ensures !n.isRest && n.isPercussion ==> r == PercussionString(n.value)
    ensures !n.isRest && !n.isPercussion && n.originalString.Some? ==> r == Ok(n.originalString.value)
    ensures !n.isRest && !n.isPercussion && n.originalString.None?
            ==> r == Ok(ToneStringWithoutOctave(n.value) + NatToString(GetOctave(n)))
  {
    if n.isRest then Ok("R")
    else if n.isPercussion then PercussionString(GetValue(n))
    else match n.originalString
      case Some(s) => Ok(s)
      case None => Ok(ToneString(GetValue(n)))
  }

  /** Without a spelling, the text of a sounding note gives its value back:
      through the tone name and octave, or through the percussion name. */
  lemma NoteTextReadsBack(n: Note)
    requires ValidPitch(n.value) && !n.isRest && n.originalString.None?
    ensures !n.isPercussion ==> ToneValue(ToStringWithoutDuration(n).value) == Some(n.value)
    ensures n.isPercussion && 35 <= n.value <= 81 ==> PercussionKey(ToStringWithoutDuration(n).value) == Some(n.value)
  {
    ToneStringReadsBack(0, n.value);
    if n.isPercussion && 35 <= n.value <= 81 {
      PercussionStringReadsBack(ToStringWithoutDuration(n).value, n.value);
    }
  }

  /** `toString` / `getPattern`: the note text followed by its decorators. */
  function NoteText(n: Note, show: real -> string): (r: Result<string>)
    requires ValidPitch(n.value)
    ensures r.Ok? <==> Renderable(n)
    ensures r.Err? ==> r.error == IndexOutOfBounds
  {
    match ToStringWithoutDuration(n)
    case Ok(t) => Ok(t + DecoratorString(n, show))
    case Err(e) => Err(e)
  }
}
