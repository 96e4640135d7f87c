/** A `Chord` instance: a root note, its intervals and an inversion; the
    notes it expands to, the inversion a bass note implies, its text with
    one caret per inversion, and the chord name read back from notes. */
module Chords {
  import opened Results
  import opened Strings
  import opened Pitch
  import opened NoteSort
  import opened Degrees
  import opened ChordRegistry

  /** A missing root (Java null) is `None`. */
  datatype Chord = Chord(root: Option<Note>, intervals: Intervals, inversion: int)

  /** `new Chord(Note root, Intervals intervals)`: no inversion. */
  function FromRootAndIntervals(root: Option<Note>, intervals: Intervals): Chord {
    Chord(root, intervals, 0)
  }

  /** `setInversion`. */
  function SetInversion(c: Chord, nth: int): Chord {
    c.(inversion := nth)
  }

  // ------------------------------------------------------------ the notes

  /** The spelling a chord tone receives: the root's accidental direction
      picks the table (flat for -1, sharp for +1), a natural root the common one. */
  function Spelling(disp: int, v: int): (s: string)
    requires ValidPitch(v)
  {
    if disp != 0 then DispositionedToneStringWithoutOctave(disp, v) else ToneStringWithoutOctave(v)
  }

  /** The spelling names the pitch class of `v`, from the table the
      direction selects. */
  lemma SpellingTables(disp: int, v: int)
    requires ValidPitch(v)
    ensures |Spelling(disp, v)| > 0 && NamePosition(Spelling(disp, v)) == v % OCTAVE
    ensures disp == 0 ==> Spelling(disp, v) == NOTE_NAMES_COMMON[v % OCTAVE]
    ensures disp == -1 ==> Spelling(disp, v) == NOTE_NAMES_FLAT[v % OCTAVE]
    ensures disp != 0 && disp != -1 ==> Spelling(disp, v) == NOTE_NAMES_SHARP[v % OCTAVE]
  {
  }

  /** A fresh chord tone `new Note(v)`: harmonic, neither melodic nor first,
      with the root's duration and octave setting, and spelled without octave,
      in the direction `dir` of the root's accidental, when the root's octave
      was not explicit. */
  function ChordTone(root: Note, dir: int, v: int): (n: Note)
    requires ValidPitch(v) && ValidPitch(root.value)
    ensures n.value == v && !n.isRest && !n.isPercussion
    ensures !n.isFirst && !n.isMelodic && n.isHarmonic
    ensures n.duration == root.duration && n.durationExplicit == root.durationExplicit
    ensures n.octaveExplicit == root.octaveExplicit
    ensures root.octaveExplicit ==> n.originalString.None?
    ensures !root.octaveExplicit ==> n.originalString == Some(Spelling(dir, v))
  {
    var made := FromValue(v).(isFirst := false, isMelodic := false, isHarmonic := true);
    var n := UseSameExplicitOctaveSettingAs(UseSameDurationAs(made, root), root);
    if root.octaveExplicit then n
    else n.(originalString := Some(Spelling(dir, v)))
  }

  /** Every note before the inversion is a MIDI pitch: the root plus each
      interval's distance from the first. */
  predicate TonesInRange(root: Note, hs: seq<int>) {
    |hs| > 0 ==> forall k :: 0 <= k < |hs| ==> ValidPitch(GetValue(root) + hs[k] - hs[0])
  }

  /** The values of the first `n` notes before the inversion, each the
      predecessor's value plus the difference of two neighbouring intervals,
      as the source's loop builds them: the root's value plus the interval's
      distance from the first. */
  function ToneValues(root: Note, hs: seq<int>, n: nat): (r: seq<int>)
    requires 0 < n <= |hs|
    ensures |r| == n
    ensures forall k :: 0 <= k < n ==> r[k] == GetValue(root) + hs[k] - hs[0]
  {
    if n == 1 then [GetValue(root)]
    else
      var prev := ToneValues(root, hs, n - 1);
      prev + [prev[n - 2] + hs[n - 1] - hs[n - 2]]
  }

  /** The notes before the inversion: the root's copy, then one fresh chord
      tone per further interval. */
  function Voicing(root: Note, dir: int, hs: seq<int>): (r: seq<Note>)
    requires |hs| > 0 && ValidPitch(root.value) && TonesInRange(root, hs)
    ensures |r| == |hs| && r[0] == Copy(root)
    ensures forall k :: 0 < k < |hs| ==> r[k] == ChordTone(root, dir, GetValue(root) + hs[k] - hs[0])
  {
    var values := ToneValues(root, hs, |hs|);
    seq(|hs|, k requires 0 <= k < |hs| => if k == 0 then Copy(root) else ChordTone(root, dir, values[k]))
  }

  /** The index `(i + inversion) % length` of the rotation loop: the sum in
      32-bit `int`, then Java's `%`. */
  function RotatedIndex(i: int, inversion: int, len: int): int
    requires len > 0
  {
    JavaRem(Wrap32(i + inversion), len)
  }

  /** A sum that fits in an `int` does not wrap. */
  lemma SumFits(x: int)
    requires -0x8000_0000 <= x < 0x8000_0000
    ensures Wrap32(x) == x
  {
  }

  /** The rotation loop never indexes below zero. */
  predicate RotationInBounds(len: nat, inversion: int) {
    len > 0 && forall i :: 0 <= i < len ==> RotatedIndex(i, inversion, len) >= 0
  }

  /** A non-negative inversion rotates as long as `i + inversion` fits in an
      `int`; a negative one fails on the first index as soon as the chord has
      two notes and the inversion stays within one turn. */
  lemma RotationBounds(len: nat, inversion: int)
    ensures len > 0 && 0 <= inversion && inversion + len <= 0x8000_0000 ==> RotationInBounds(len, inversion)
    ensures 1 < len && 0 < inversion + len && -0x8000_0000 <= inversion < 0 ==> !RotationInBounds(len, inversion)
  {
    if len > 0 && 0 <= inversion && inversion + len <= 0x8000_0000 {
      forall i | 0 <= i < len ensures RotatedIndex(i, inversion, len) >= 0 {
        SumFits(i + inversion);
      }
    }
    if 1 < len && 0 < inversion + len && -0x8000_0000 <= inversion < 0 {
      NegativeTurn(inversion, len);
    }
  }

  /** Index 0 of a rotation by less than one negative turn is negative. */
  lemma NegativeTurn(inversion: int, len: int)
    requires 0 < inversion + len && -0x8000_0000 <= inversion < 0
    ensures RotatedIndex(0, inversion, len) == inversion
  {
    SumFits(inversion);
    assert (-inversion) / len == 0;
  }

  /** The largest inversion overflows the sum: index 1 of a triad wraps to
      -2147483648, whose remainder by 3 is -2, so `getNotes` throws. */
  lemma RotationOverflows()
    ensures RotatedIndex(1, 0x7FFF_FFFF, 3) == -2
    ensures !RotationInBounds(3, 0x7FFF_FFFF)
  {
    assert Wrap32(0x8000_0000) == -0x8000_0000;
    assert RotatedIndex(1, 0x7FFF_FFFF, 3) == -2;
  }

  /** The inversion loop: the first `inversion` notes go up an octave. */
  function RaiseFirst(tones: seq<Note>, inversion: int): (r: seq<Note>)
    ensures |r| == |tones|
    ensures forall k :: 0 <= k < |r| && k < inversion ==>
              r[k] == SetValue(tones[k], GetValue(tones[k]) + OCTAVE)
    ensures forall k :: 0 <= k < |r| && k >= inversion ==> r[k] == tones[k]
  {
    seq(|tones|, k requires 0 <= k < |tones| =>
      if k < inversion then SetValue(tones[k], GetValue(tones[k]) + OCTAVE) else tones[k])
  }

  /** The rotation loop: note i of the result is note `(i + inversion) % length`. */
  function RotateNotes(notes: seq<Note>, inversion: int): (r: seq<Note>)
    requires RotationInBounds(|notes|, inversion)
    ensures |r| == |notes|
    ensures forall i :: 0 <= i < |r| ==> r[i] == notes[RotatedIndex(i, inversion, |notes|)]
  {
    seq(|notes|, i requires 0 <= i < |notes| => notes[RotatedIndex(i, inversion, |notes|)])
  }

  /** The byte casts of `getNotes` never wrap: every note, raised or not, is
      a MIDI pitch. */
  predicate NotesFit(c: Chord) {
    c.root.Some? && ToHalfstepArray(c.intervals).Ok? ==>
      var root := c.root.value;
      var hs := ToHalfstepArray(c.intervals).value;
      ValidPitch(root.value) && TonesInRange(root, hs)
      && forall k :: 0 <= k < |hs| && k < c.inversion ==> ValidPitch(GetValue(root) + hs[k] - hs[0] + OCTAVE)
  }

  /** What the expansion puts in place of interval `j`: the root itself
      (only its value may move) or a fresh harmonic tone `hs[j] - hs[0]` half
      steps above it, an octave higher when `j` lies before the inversion. */
  predicate PlacedNote(root: Note, hs: seq<int>, inversion: int, j: int, n: Note)
    requires 0 <= j < |hs|
  {
    var v := GetValue(root) + hs[j] - hs[0];
    (j > 0 || !root.isRest || j < inversion ==> n.value == v + (if j < inversion then OCTAVE else 0))
    && (j == 0 ==> n.(value := root.value) == root)
    && (j > 0 ==> !n.isFirst && !n.isMelodic && n.isHarmonic && !n.isRest && !n.isPercussion
                  && n.duration == root.duration && n.durationExplicit == root.durationExplicit
                  && n.octaveExplicit == root.octaveExplicit)
  }

  /** A fresh tone is spelled without octave, in direction `dir`, unless the
      root's octave was explicit. */
  predicate SpelledTone(root: Note, dir: int, hs: seq<int>, j: int, n: Note)
    requires 0 <= j < |hs| && ValidPitch(root.value) && TonesInRange(root, hs)
  {
    j > 0 ==> n.originalString == (if root.octaveExplicit then None
                                   else Some(Spelling(dir, GetValue(root) + hs[j] - hs[0])))
  }

  /** The root's copy or the chord tone, raised before the inversion, is
      the expansion of interval `j`. */
  lemma ExpansionOfTone(root: Note, dir: int, hs: seq<int>, inversion: int, j: int)
    requires 0 <= j < |hs| && ValidPitch(root.value) && TonesInRange(root, hs)
    ensures var t := if j == 0 then Copy(root) else ChordTone(root, dir, GetValue(root) + hs[j] - hs[0]);
            var n := if j < inversion then SetValue(t, GetValue(t) + OCTAVE) else t;
            PlacedNote(root, hs, inversion, j, n) && SpelledTone(root, dir, hs, j, n)
  {
  }

  lemma VoicingAt(root: Note, dir: int, hs: seq<int>, j: int)
    requires 0 <= j < |hs| && ValidPitch(root.value) && TonesInRange(root, hs)
    ensures Voicing(root, dir, hs)[j] == if j == 0 then Copy(root) else ChordTone(root, dir, GetValue(root) + hs[j] - hs[0])
  {
  }

  lemma RaiseFirstAt(tones: seq<Note>, inversion: int, j: int)
    requires 0 <= j < |tones|
    ensures RaiseFirst(tones, inversion)[j]
            == if j < inversion then SetValue(tones[j], GetValue(tones[j]) + OCTAVE) else tones[j]
  {
  }

  /** `getNotes`: the root's copy and one fresh note per further interval;
      then the first `inversion` notes go up an octave, and the list is
      rotated left by `inversion`, so that C major with two carets gives G C E.
      An unreadable interval, a missing root, an empty interval list or a
      negative rotation index fail as the source throws. */
  function GetNotes(c: Chord): (r: Result<seq<Note>>)
    requires NotesFit(c)
    ensures ToHalfstepArray(c.intervals).Err? ==> r.Err? && r.error != MissingRoot
    ensures ToHalfstepArray(c.intervals).Ok? && c.root.None? ==> r == Err(MissingRoot)
    ensures r.Ok? <==> ToHalfstepArray(c.intervals).Ok? && c.root.Some?
                       && RotationInBounds(Size(c.intervals), c.inversion)
    ensures r.Ok? ==> |r.value| == Size(c.intervals)
    ensures r.Ok? ==> forall i :: 0 <= i < |r.value| ==>
              var hs := ToHalfstepArray(c.intervals).value;
              0 <= RotatedIndex(i, c.inversion, |hs|) < |hs|
              && PlacedNote(c.root.value, hs, c.inversion, RotatedIndex(i, c.inversion, |hs|), r.value[i])
  {
    match ToHalfstepArray(c.intervals)
    case Err(e) => Err(e)
    case Ok(hs) =>
      if c.root.None? then Err(MissingRoot)
      else if !RotationInBounds(|hs|, c.inversion) then Err(IndexOutOfBounds)
      else
        var root := c.root.value;
        var dir := GetAccidental(root);
        var raised := RaiseFirst(Voicing(root, dir, hs), c.inversion);
        var notes := RotateNotes(raised, c.inversion);
        assert forall i :: 0 <= i < |hs| ==>
                 0 <= RotatedIndex(i, c.inversion, |hs|) < |hs|
                 && PlacedNote(root, hs, c.inversion, RotatedIndex(i, c.inversion, |hs|), notes[i]) by {
          forall i | 0 <= i < |hs|
            ensures 0 <= RotatedIndex(i, c.inversion, |hs|) < |hs|
            ensures PlacedNote(root, hs, c.inversion, RotatedIndex(i, c.inversion, |hs|), notes[i])
          {
            var j := RotatedIndex(i, c.inversion, |hs|);
            VoicingAt(root, dir, hs, j);
            RaiseFirstAt(Voicing(root, dir, hs), c.inversion, j);
            ExpansionOfTone(root, dir, hs, c.inversion, j);
          }
        }
        Ok(notes)
  }

  /** The fresh tones of `getNotes` are spelled in the direction of the
      root's accidental, unless the root's octave was explicit. */
  lemma GetNotesSpelling(c: Chord)
    requires NotesFit(c) && GetNotes(c).Ok?
    ensures forall i :: 0 <= i < |GetNotes(c).value| ==>
              var hs := ToHalfstepArray(c.intervals).value;
              0 <= RotatedIndex(i, c.inversion, |hs|) < |hs|
              && SpelledTone(c.root.value, GetAccidental(c.root.value), hs,
                             RotatedIndex(i, c.inversion, |hs|), GetNotes(c).value[i])
  {
    var hs := ToHalfstepArray(c.intervals).value;
    var root := c.root.value;
    var dir := GetAccidental(root);
    var notes := GetNotes(c).value;
    assert notes == RotateNotes(RaiseFirst(Voicing(root, dir, hs), c.inversion), c.inversion);
    forall i | 0 <= i < |notes|
      ensures 0 <= RotatedIndex(i, c.inversion, |hs|) < |hs|
      ensures SpelledTone(root, dir, hs, RotatedIndex(i, c.inversion, |hs|), notes[i])
    {
      var j := RotatedIndex(i, c.inversion, |hs|);
      VoicingAt(root, dir, hs, j);
      RaiseFirstAt(Voicing(root, dir, hs), c.inversion, j);
      ExpansionOfTone(root, dir, hs, c.inversion, j);
    }
  }

  /** The major triad reads 0, 4 and 7 half-steps. */
  lemma MajorTriadHalfsteps(root: Option<Note>)
    ensures ToHalfstepArray(Intervals("1 3 5", root)) == Ok([0, 4, 7])
  {
    ThreeTokens("1", "3", "5", "1 3 5");
    UnisonReadsBack();
    PlainThird();
    FifthReading();
    ThreeReadings(Intervals("1 3 5", root), "1", "3", "5", 0, 4, 7);
  }

  /** Three tokens that read `x`, `y` and `z` give the array of those three. */
  lemma ThreeReadings(iv: Intervals, a: string, b: string, c: string, x: int, y: int, z: int)
    requires Tokens(iv) == [a, b, c]
    requires GetHalfsteps(a) == Ok(x) && GetHalfsteps(b) == Ok(y) && GetHalfsteps(c) == Ok(z)
    ensures ToHalfstepArray(iv) == Ok([x, y, z])
  {
    var hs, ts := [x, y, z], Tokens(iv);
    forall i | 0 <= i < 3
      ensures GetHalfsteps(ts[i]) == Ok(hs[i])
    {
      if i == 0 {} else if i == 1 {} else {}
    }
    ReadingsDetermineArray(iv, hs);
  }

  lemma FifthReading()
    ensures GetHalfsteps("5") == Ok(7)
  {
    assert NatToString(5) == "5";
    SpelledDegree("", 5, "", "5", 7);
  }

  /** A major triad with two carets sounds the fifth first, then the root
      and the third an octave up: C major `Cmaj^^` at 60 gives 67, 72, 76. */
  lemma SecondInversionOfMajor(root: Note)
    requires !root.isRest && 0 <= root.value && root.value + 16 <= 127
    ensures var c := Chord(Some(root), Intervals("1 3 5", None), 2);
            NotesFit(c) && GetNotes(c).Ok? && |GetNotes(c).value| == 3
            && GetNotes(c).value[0].value == root.value + 7
            && GetNotes(c).value[1] == SetValue(root, root.value + 12)
            && GetNotes(c).value[2].value == root.value + 16
            && GetNotes(c).value[2].isHarmonic && !GetNotes(c).value[2].isFirst
  {
    MajorTriadHalfsteps(None);
    var iv := Intervals("1 3 5", None);
    TriadFits(root, iv);
    var c := Chord(Some(root), iv, 2);
    var r := GetNotes(c);
    forall i | 0 <= i < 3
      ensures r.Ok? && |r.value| == 3 && PlacedNote(root, [0, 4, 7], 2, (i + 2) % 3, r.value[i])
    {
      TriadNoteAt(root, iv, i, (i + 2) % 3);
    }
    TriadPlacement(root, r.value);
  }

  lemma TriadNoteAt(root: Note, iv: Intervals, i: int, j: int)
    requires !root.isRest && 0 <= root.value && root.value + 16 <= 127
    requires ToHalfstepArray(iv) == Ok([0, 4, 7])
    requires 0 <= i < 3 && j == (i + 2) % 3
    ensures var c := Chord(Some(root), iv, 2);
            NotesFit(c) && GetNotes(c).Ok? && |GetNotes(c).value| == 3
            && PlacedNote(root, [0, 4, 7], 2, j, GetNotes(c).value[i])
  {
    TriadFits(root, iv);
    SumFits(i + 2);
    assert RotatedIndex(i, 2, 3) == j;
  }

  /** Two carets on a triad whose fifth and raised third stay MIDI pitches. */
  lemma TriadFits(root: Note, iv: Intervals)
    requires !root.isRest && 0 <= root.value && root.value + 16 <= 127
    requires ToHalfstepArray(iv) == Ok([0, 4, 7])
    ensures NotesFit(Chord(Some(root), iv, 2)) && RotationInBounds(3, 2)
  {
    RotationBounds(3, 2);
    var hs := ToHalfstepArray(iv).value;
    TriadInRange(root, hs);
    assert ValidPitch(root.value) && TonesInRange(root, hs);
  }

  lemma TriadInRange(root: Note, hs: seq<int>)
    requires !root.isRest && 0 <= root.value && root.value + 16 <= 127 && hs == [0, 4, 7]
    ensures forall k :: 0 <= k < |hs| ==> ValidPitch(GetValue(root) + hs[k] - hs[0])
    ensures forall k :: 0 <= k < |hs| && k < 2 ==> ValidPitch(GetValue(root) + hs[k] - hs[0] + OCTAVE)
  {
    assert GetValue(root) == root.value;
    forall k | 0 <= k < 3
      ensures ValidPitch(root.value + hs[k])
      ensures k < 2 ==> ValidPitch(root.value + hs[k] + OCTAVE)
    {
      if k == 0 {} else if k == 1 {} else {}
    }
  }

  lemma TriadPlacement(root: Note, r: seq<Note>)
    requires |r| == 3 && !root.isRest
    requires PlacedNote(root, [0, 4, 7], 2, 2, r[0])
    requires PlacedNote(root, [0, 4, 7], 2, 0, r[1])
    requires PlacedNote(root, [0, 4, 7], 2, 1, r[2])
    ensures r[0].value == root.value + 7
    ensures r[1] == SetValue(root, root.value + 12)
    ensures r[2].value == root.value + 16 && r[2].isHarmonic && !r[2].isFirst
  {
  }

  // ------------------------------------------------------------- the bass

  /** Interval `i` lands on the bass note's pitch class, Java's `%` on both
      sides (an interval below the root makes the right side negative). */
  predicate BassMatches(bass: Note, root: Note, hs: seq<int>, i: int)
    requires 0 <= i < |hs|
  {
    JavaRem(GetValue(bass), OCTAVE) == JavaRem(GetValue(root) + hs[i], OCTAVE)
  }

  /** The largest index below `n` whose interval lands on the bass. */
  function LastMatch(bass: Note, root: Note, hs: seq<int>, n: nat): (r: Option<nat>)
    requires n <= |hs|
    ensures r.Some? ==> r.value < n && BassMatches(bass, root, hs, r.value)
    ensures r.Some? ==> forall j :: r.value < j < n ==> !BassMatches(bass, root, hs, j)
    ensures r.None? ==> forall j :: 0 <= j < n ==> !BassMatches(bass, root, hs, j)
  {
    if n == 0 then None
    else if BassMatches(bass, root, hs, n - 1) then Some(n - 1)
    else LastMatch(bass, root, hs, n - 1)
  }

  /** `setBassNote(Note)`: without a root nothing happens; otherwise the
      inversion becomes the last interval landing on the bass's pitch class,
      and stays as it was when none does. An unreadable interval throws. */
  function SetBassNote(c: Chord, bass: Note): (r: Result<Chord>)
    ensures c.root.None? ==> r == Ok(c)
    ensures c.root.Some? ==> (r.Err? <==> ToHalfstepArray(c.intervals).Err?)
    ensures r.Ok? ==> r.value.root == c.root && r.value.intervals == c.intervals
    ensures r.Ok? && c.root.Some? ==>
              var hs := ToHalfstepArray(c.intervals).value;
              (exists j :: 0 <= j < |hs| && BassMatches(bass, c.root.value, hs, j)) ==>
                0 <= r.value.inversion < |hs| && BassMatches(bass, c.root.value, hs, r.value.inversion)
                && forall j :: r.value.inversion < j < |hs| ==> !BassMatches(bass, c.root.value, hs, j)
    ensures r.Ok? && c.root.Some? ==>
              var hs := ToHalfstepArray(c.intervals).value;
              (forall j :: 0 <= j < |hs| ==> !BassMatches(bass, c.root.value, hs, j)) ==>
                r.value.inversion == c.inversion
  {
    if c.root.None? then Ok(c)
    else
      match ToHalfstepArray(c.intervals)
      case Err(e) => Err(e)
      case Ok(hs) =>
        match LastMatch(bass, c.root.value, hs, |hs|)
        case None => Ok(c)
        case Some(i) => Ok(c.(inversion := i))
  }

  /** Setting the bass and expanding agree: when the first interval is the
      unison and some interval lands on the bass, the expanded chord starts
      on the bass's pitch class. */
  lemma BassNoteSoundsFirst(c: Chord, bass: Note)
    requires c.root.Some? && !c.root.value.isRest
    requires ToHalfstepArray(c.intervals).Ok?
    requires var hs := ToHalfstepArray(c.intervals).value;
             0 < |hs| <= 0x4000_0000 && hs[0] == 0 && exists j :: 0 <= j < |hs| && BassMatches(bass, c.root.value, hs, j)
    requires SetBassNote(c, bass).Ok? && NotesFit(SetBassNote(c, bass).value)
    ensures var d := SetBassNote(c, bass).value;
            GetNotes(d).Ok? && |GetNotes(d).value| > 0
            && JavaRem(GetValue(GetNotes(d).value[0]), OCTAVE) == JavaRem(GetValue(bass), OCTAVE)
  {
    var d := SetBassNote(c, bass).value;
    var hs := ToHalfstepArray(c.intervals).value;
    BassInversion(c, bass, d, hs);
    FirstNoteOnBass(d, bass, hs);
  }

  /** What `SetBassNote` leaves when some interval lands on the bass. */
  lemma BassInversion(c: Chord, bass: Note, d: Chord, hs: seq<int>)
    requires c.root.Some? && ToHalfstepArray(c.intervals) == Ok(hs)
    requires exists j :: 0 <= j < |hs| && BassMatches(bass, c.root.value, hs, j)
    requires SetBassNote(c, bass) == Ok(d)
    ensures d.root == c.root && ToHalfstepArray(d.intervals) == Ok(hs)
    ensures 0 <= d.inversion < |hs| && BassMatches(bass, d.root.value, hs, d.inversion)
  {
  }

  /** An expanded chord whose inversion lands on the bass starts on it. */
  lemma FirstNoteOnBass(d: Chord, bass: Note, hs: seq<int>)
    requires d.root.Some? && !d.root.value.isRest && NotesFit(d)
    requires ToHalfstepArray(d.intervals) == Ok(hs) && 0 < |hs| <= 0x4000_0000 && hs[0] == 0
    requires 0 <= d.inversion < |hs| && BassMatches(bass, d.root.value, hs, d.inversion)
    ensures GetNotes(d).Ok? && |GetNotes(d).value| > 0
    ensures JavaRem(GetValue(GetNotes(d).value[0]), OCTAVE) == JavaRem(GetValue(bass), OCTAVE)
  {
    var inv := d.inversion;
    RotationBounds(|hs|, inv);
    RotatedIndexWithinTurn(0, inv, |hs|);
    FirstNoteOf(d, hs, inv);
    RemainderFromMatch(bass, d.root.value, hs, inv, GetValue(GetNotes(d).value[0]));
  }

  /** A value that is the root plus the matching interval leaves the bass's
      remainder. */
  lemma RemainderFromMatch(bass: Note, root: Note, hs: seq<int>, i: int, v: int)
    requires 0 <= i < |hs| && BassMatches(bass, root, hs, i) && v == GetValue(root) + hs[i]
    ensures JavaRem(v, OCTAVE) == JavaRem(GetValue(bass), OCTAVE)
  {
  }

  /** Within one turn the rotation index is the plain sum. */
  lemma RotatedIndexWithinTurn(i: int, inversion: int, len: int)
    requires 0 <= i + inversion < len && i + inversion < 0x8000_0000
    ensures RotatedIndex(i, inversion, len) == i + inversion
  {
    SumFits(i + inversion);
    SmallRemainder(i + inversion, len);
  }

  lemma SmallRemainder(x: int, len: int)
    requires 0 <= x < len
    ensures JavaRem(x, len) == x
  {
    assert x / len == 0;
  }

  lemma FirstNoteOf(d: Chord, hs: seq<int>, inv: int)
    requires d.root.Some? && !d.root.value.isRest && NotesFit(d)
    requires ToHalfstepArray(d.intervals) == Ok(hs) && d.inversion == inv && 0 <= inv < |hs|
    requires RotationInBounds(|hs|, inv) && RotatedIndex(0, inv, |hs|) == inv
    ensures GetNotes(d).Ok? && |GetNotes(d).value| > 0
    ensures GetValue(GetNotes(d).value[0]) == GetValue(d.root.value) + hs[inv] - hs[0]
  {
    var n := GetNotes(d).value[0];
    assert PlacedNote(d.root.value, hs, inv, inv, n);
  }

  // ---------------------------------------------------------- disposition

  /** One note's vote in `getDisposition`: a single flat lowers, a single
      sharp raises; a double accidental or none abstains. */
  function DispositionVote(ns: string): (v: int)
    ensures v == (if SpellingAccidental(ns) == 1 || SpellingAccidental(ns) == -1
                  then SpellingAccidental(ns) else 0)
  {
    if |ns| > 1 then
      var rest := Upper(ns[1..]);
      if Contains(rest, "BB") then 0
      else if Contains(rest, "B") then -1
      else if Contains(rest, "##") then 0
      else if Contains(rest, "#") then 1
      else 0
    else 0
  }

  /** The spelling `getDisposition` reads: the original text, else the
      common name with octave. */
  function VotingSpelling(n: Note): string
    requires ValidPitch(n.value)
  {
    match n.originalString
    case Some(s) => s
    case None => ToneString(GetValue(n))
  }

  /** Notes spelled with exactly the accidental `a` (1 sharp, -1 flat). */
  function SpelledWith(notes: seq<Note>, a: int): nat
    requires ValidPitches(notes)
  {
    if notes == [] then 0
    else (if SpellingAccidental(VotingSpelling(notes[0])) == a then 1 else 0) + SpelledWith(notes[1..], a)
  }

  /** The running total of the source's loop. */
  function VoteTotal(notes: seq<Note>): int
    requires ValidPitches(notes)
  {
    if notes == [] then 0 else DispositionVote(VotingSpelling(notes[0])) + VoteTotal(notes[1..])
  }

  lemma {:induction false} VoteTotalBalance(notes: seq<Note>)
    requires ValidPitches(notes)
    ensures VoteTotal(notes) == SpelledWith(notes, 1) - SpelledWith(notes, -1)
  {
    if notes != [] {
      VoteTotalBalance(notes[1..]);
    }
  }

  /** `getDisposition`: the sign of single sharps minus single flats. */
  function Disposition(notes: seq<Note>): (d: int)
    requires ValidPitches(notes)
    ensures d == Sign(SpelledWith(notes, 1) - SpelledWith(notes, -1))
  {
    VoteTotalBalance(notes);
    Sign(VoteTotal(notes))
  }

  // ------------------------------------------------------------ flattening

  /** `getPositionInOctave` as a total sort key (0 outside MIDI range). */
  function PositionKey(n: Note): int {
    if ValidPitch(n.value) then GetPositionInOctave(n) else 0
  }

  function Positions(notes: seq<Note>): set<int> {
    set i | 0 <= i < |notes| :: PositionKey(notes[i])
  }

  /** No earlier note shares the pitch class of note `i`. */
  predicate FirstOfItsClass(notes: seq<Note>, i: int)
    requires 0 <= i < |notes|
  {
    forall j :: 0 <= j < i ==> PositionKey(notes[j]) != PositionKey(notes[i])
  }

  /** The indices the flattening keeps: exactly the first note of every
      pitch class, in increasing order. */
  function FirstIndices(notes: seq<Note>): (r: seq<nat>)
    ensures forall k :: 0 <= k < |r| ==> r[k] < |notes| && FirstOfItsClass(notes, r[k])
    ensures forall a, b :: 0 <= a < b < |r| ==> r[a] < r[b]
    ensures forall i :: 0 <= i < |notes| && FirstOfItsClass(notes, i) ==> i in r
  {
    if notes == [] then []
    else
      var init := notes[..|notes| - 1];
      var prev := FirstIndices(init);
      assert forall i :: 0 <= i < |init| ==> (FirstOfItsClass(init, i) <==> FirstOfItsClass(notes, i));
      if FirstOfItsClass(notes, |notes| - 1) then prev + [|notes| - 1] else prev
  }

  /** Every pitch class has a first note. */
  lemma {:induction false} FirstOfClassExists(notes: seq<Note>, i: int) returns (f: int)
    requires 0 <= i < |notes|
    ensures 0 <= f <= i && FirstOfItsClass(notes, f) && PositionKey(notes[f]) == PositionKey(notes[i])
    decreases i
  {
    if FirstOfItsClass(notes, i) {
      f := i;
    } else {
      var j :| 0 <= j < i && PositionKey(notes[j]) == PositionKey(notes[i]);
      f := FirstOfClassExists(notes, j);
    }
  }

  /** `flattenNotesByPositionInOctave`: the first note of each pitch class,
      in order of first appearance. */
  function Flatten(notes: seq<Note>): (r: seq<Note>)
    ensures forall a, b :: 0 <= a < b < |r| ==> PositionKey(r[a]) != PositionKey(r[b])
    ensures Positions(r) == Positions(notes)
    ensures |r| == |FirstIndices(notes)|
    ensures forall k :: 0 <= k < |r| ==> r[k] == notes[FirstIndices(notes)[k]]
  {
    var idx := FirstIndices(notes);
    var r := seq(|idx|, k requires 0 <= k < |idx| => notes[idx[k]]);
    assert Positions(r) == Positions(notes) by {
      forall i | 0 <= i < |notes|
        ensures PositionKey(notes[i]) in Positions(r)
      {
        var f := FirstOfClassExists(notes, i);
        var k :| 0 <= k < |idx| && idx[k] == f;
        assert r[k] == notes[f];
      }
    }
    r
  }

  /** Notes whose classes are already distinct are kept, all of them, in order. */
  lemma {:induction false} FlattenKeepsDistinctClasses(notes: seq<Note>)
    requires forall a, b :: 0 <= a < b < |notes| ==> PositionKey(notes[a]) != PositionKey(notes[b])
    ensures Flatten(notes) == notes
  {
    FirstIndicesOfDistinctClasses(notes);
  }

  lemma {:induction false} FirstIndicesOfDistinctClasses(notes: seq<Note>)
    requires forall a, b :: 0 <= a < b < |notes| ==> PositionKey(notes[a]) != PositionKey(notes[b])
    ensures FirstIndices(notes) == seq(|notes|, i => i)
  {
    if notes != [] {
      var init := notes[..|notes| - 1];
      FirstIndicesOfDistinctClasses(init);
      assert FirstOfItsClass(notes, |notes| - 1);
      assert seq(|init|, i => i) + [|notes| - 1] == seq(|notes|, i => i);
    }
  }

  // ------------------------------------------------------ naming from notes

  /** `flat` read cyclically from index `i`: the source's `(i + u) % length`
      walks to the end of `flat` and wraps once to its start. */
  function RotationFrom(flat: seq<Note>, i: nat): (r: seq<Note>)
    requires i < |flat|
    ensures |r| == |flat| && r[0] == flat[i]
    ensures forall u :: 0 <= u < |flat| - i ==> r[u] == flat[i + u]
    ensures forall u :: |flat| - i <= u < |flat| ==> r[u] == flat[i + u - |flat|]
    ensures ValidPitches(flat) ==> ValidPitches(r)
  {
    flat[i..] + flat[..i]
  }

  /** `possibleChords`: the registry's name, if any, for the intervals
      built from each rotation of `flat`. */
  function RotationNames(reg: Registry, flat: seq<Note>): (r: seq<Option<string>>)
    requires ValidPitches(flat)
    ensures |r| == |flat|
  {
    seq(|flat|, i requires 0 <= i < |flat| => ChordType(reg, CreateIntervalsFromNotes(RotationFrom(flat, i)).value))
  }

  /** The first index from `i` on that holds a name. */
  function FirstSome(names: seq<Option<string>>, i: nat): (r: Option<nat>)
    ensures r.Some? ==> i <= r.value < |names| && names[r.value].Some?
    ensures r.Some? ==> forall m :: i <= m < r.value ==> names[m].None?
    ensures r.None? ==> forall m :: i <= m < |names| ==> names[m].None?
    decreases |names| - i
  {
    if i >= |names| then None
    else if names[i].Some? then Some(i)
    else FirstSome(names, i + 1)
  }

  /** The lowest note by value (the first after the stable sort): among
      notes of equal lowest value, the first in input order. */
  function BassOf(notes: seq<Note>): (b: Note)
    requires |notes| > 0
    ensures b in notes && forall n :: n in notes ==> GetValue(b) <= GetValue(n)
    ensures exists i :: 0 <= i < |notes| && notes[i] == b
                        && forall j :: 0 <= j < i ==> GetValue(notes[j]) > GetValue(b)
  {
    var sorted := StableSortBy(notes, GetValue);
    StableSortByIsStable(notes, GetValue);
    assert sorted[0] in multiset(notes);
    assert forall n :: n in notes ==> GetValue(sorted[0]) <= GetValue(n) by {
      forall n | n in notes
        ensures GetValue(sorted[0]) <= GetValue(n)
      {
        assert n in multiset(sorted);
        var k :| 0 <= k < |sorted| && sorted[k] == n;
        if k > 0 {
          assert GetValue(sorted[0]) <= GetValue(sorted[k]);
        }
      }
    }
    var m := GetValue(sorted[0]);
    assert KeyClass(sorted, GetValue, m)[0] == sorted[0];
    assert KeyClass(notes, GetValue, m) == KeyClass(sorted, GetValue, m);
    KeyClassHead(notes, GetValue, m);
    assert forall j :: 0 <= j < |notes| ==> GetValue(notes[j]) >= m by {
      forall j | 0 <= j < |notes| ensures GetValue(notes[j]) >= m {
        assert notes[j] in notes;
      }
    }
    sorted[0]
  }

  /** Sorting keeps exactly the notes it was given. */
  lemma SortKeepsNotes(s: seq<Note>, key: Note -> int)
    ensures forall n :: n in StableSortBy(s, key) <==> n in s
  {
    var t := StableSortBy(s, key);
    forall n ensures n in t <==> n in s {
      assert n in t <==> n in multiset(t);
      assert n in s <==> n in multiset(s);
    }
  }

  /** Sequences holding the same notes cover the same pitch classes. */
  lemma SameNotesSamePositions(a: seq<Note>, b: seq<Note>)
    requires forall n :: n in a <==> n in b
    ensures Positions(a) == Positions(b)
  {
    forall p | p in Positions(a) ensures p in Positions(b) {
      var i :| 0 <= i < |a| && PositionKey(a[i]) == p;
      assert a[i] in b;
      var j :| 0 <= j < |b| && b[j] == a[i];
    }
    forall p | p in Positions(b) ensures p in Positions(a) {
      var i :| 0 <= i < |b| && PositionKey(b[i]) == p;
      assert b[i] in a;
      var j :| 0 <= j < |a| && a[j] == b[i];
    }
  }

  /** Flattening notes sorted by pitch class leaves the classes strictly
      increasing. */
  lemma FlattenIncreases(s: seq<Note>)
    requires SortedBy(s, PositionKey)
    ensures forall a, b :: 0 <= a < b < |Flatten(s)| ==> PositionKey(Flatten(s)[a]) < PositionKey(Flatten(s)[b])
  {
    var r, idx := Flatten(s), FirstIndices(s);
    forall a, b | 0 <= a < b < |r|
      ensures PositionKey(r[a]) < PositionKey(r[b])
    {
      assert idx[a] < idx[b];
      assert PositionKey(s[idx[a]]) <= PositionKey(s[idx[b]]);
    }
  }

  /** Notes drawn from valid pitches are valid pitches. */
  lemma DrawnFromValid(a: seq<Note>, b: seq<Note>)
    requires ValidPitches(b) && forall k :: 0 <= k < |a| ==> a[k] in b
    ensures ValidPitches(a)
  {
    forall k | 0 <= k < |a| ensures ValidPitch(a[k].value) {
      var j :| 0 <= j < |b| && b[j] == a[k];
    }
  }

  /** The distinct pitch classes, sorted by value and then stably by pitch
      class, first note of each class kept. */
  function ChordTones(notes: seq<Note>): (r: seq<Note>)
    requires ValidPitches(notes)
    ensures ValidPitches(r) && (|notes| > 0 ==> |r| > 0)
    ensures Positions(r) == Positions(notes)
    ensures forall a, b :: 0 <= a < b < |r| ==> PositionKey(r[a]) < PositionKey(r[b])
    ensures forall k :: 0 <= k < |r| ==> r[k] in notes
  {
    var byValue := StableSortBy(notes, GetValue);
    var byClass := StableSortBy(byValue, PositionKey);
    StableSortByIsStable(byValue, PositionKey);
    SortKeepsNotes(notes, GetValue);
    SortKeepsNotes(byValue, PositionKey);
    SameNotesSamePositions(byClass, notes);
    FlattenIncreases(byClass);
    var r := Flatten(byClass);
    assert forall k :: 0 <= k < |r| ==> r[k] in notes by {
      forall k | 0 <= k < |r| ensures r[k] in notes {
        assert r[k] in byClass;
      }
    }
    DrawnFromValid(r, notes);
    assert |notes| > 0 ==> PositionKey(notes[0]) in Positions(r);
    r
  }

  /** The text for root `root` and chord name `name`: the root spelled in
      direction `disp` and the name, then, when the bass is not `equals` to
      the root, a caret and the bass note's text, which throws for a
      percussion bass outside the percussion keys. */
  function Caption(root: Note, name: string, bass: Note, disp: int, show: real -> string): Result<string>
    requires ValidPitch(root.value) && ValidPitch(bass.value)
  {
    var head := DispositionedToneStringWithoutOctave(disp, GetValue(root)) + name;
    if NoteEquals(bass, root) then Ok(head)
    else match NoteText(bass, show)
      case Ok(t) => Ok(head + "^" + t)
      case Err(e) => Err(e)
  }

  /** A text or a failure, as a found chord name. */
  function Named(c: Result<string>): (r: Result<Option<string>>)
    ensures r != Ok(None)
  {
    match c
    case Ok(t) => Ok(Some(t))
    case Err(e) => Err(e)
  }

  /** The source's last loop over the distinct classes `flat`: the first
      rotation the registry names gives the text of that root and name; no
      name when no rotation matches. */
  function NameFromTones(reg: Registry, flat: seq<Note>, bass: Note, disp: int, show: real -> string): (r: Result<Option<string>>)
    requires ValidPitches(flat) && ValidPitch(bass.value)
    ensures r == Ok(None) <==> forall m :: 0 <= m < |flat| ==> RotationNames(reg, flat)[m].None?
    ensures r != Ok(None) ==>
              var names := RotationNames(reg, flat);
              exists k :: 0 <= k < |flat| && names[k].Some?
                && (forall m :: 0 <= m < k ==> names[m].None?)
                && r == Named(Caption(flat[k], names[k].value, bass, disp, show))
  {
    var names := RotationNames(reg, flat);
    match FirstSome(names, 0)
    case None => Ok(None)
    case Some(k) => Named(Caption(flat[k], names[k].value, bass, disp, show))
  }

  /** `getChordFromNotes`: the disposition of all notes, the lowest note as
      the bass, and the distinct pitch classes sorted by class, named as
      above. An empty array throws on its last element. */
  function ChordFromNotes(reg: Registry, notes: seq<Note>, show: real -> string): (r: Result<Option<string>>)
    requires ValidPitches(notes)
    ensures |notes| == 0 ==> r == Err(IndexOutOfBounds)
    ensures |notes| > 0 ==> r == NameFromTones(reg, ChordTones(notes), BassOf(notes), Disposition(notes), show)
  {
    if |notes| == 0 then Err(IndexOutOfBounds)
    else
      var bass := BassOf(notes);
      assert ValidPitch(bass.value);
      NameFromTones(reg, ChordTones(notes), bass, Disposition(notes), show)
  }

  /** `getChordFromNotes` marks an inversion. No rotation named gives no
      name. Otherwise, with `k` the first rotation the registry names, the
      text is the root spelled by the notes' disposition and the chord name;
      a caret and the lowest note's text follow exactly when the lowest
      note's pitch class is not the root's, and that text throws for a
      percussion note outside the percussion keys. */
  lemma CaretMarksInversion(reg: Registry, notes: seq<Note>, show: real -> string)
    requires ValidPitches(notes) && |notes| > 0
    ensures var flat := ChordTones(notes);
            var f := FirstSome(RotationNames(reg, flat), 0);
            var r := ChordFromNotes(reg, notes, show);
            (f.None? ==> r == Ok(None))
            && (f.Some? ==>
                  var k := f.value;
                  var bass := BassOf(notes);
                  var head := DispositionedToneStringWithoutOctave(Disposition(notes), GetValue(flat[k]))
                              + RotationNames(reg, flat)[k].value;
                  (PositionKey(bass) == PositionKey(flat[k]) ==> r == Ok(Some(head)))
                  && (PositionKey(bass) != PositionKey(flat[k]) && Renderable(bass)
                      ==> r == Ok(Some(head + "^" + NoteText(bass, show).value)))
                  && (PositionKey(bass) != PositionKey(flat[k]) && !Renderable(bass) ==> r == Err(IndexOutOfBounds)))
  {
    var flat := ChordTones(notes);
    var bass := BassOf(notes);
    assert ValidPitch(bass.value);
    var f := FirstSome(RotationNames(reg, flat), 0);
    if f.Some? {
      var k := f.value;
      FirstNamedRotation(reg, flat, bass, Disposition(notes), k, show);
      CaptionCases(flat[k], RotationNames(reg, flat)[k].value, bass, Disposition(notes), show);
      BassHeadsItsClass(notes, k);
    }
  }

  /** The naming loop stops at the first named rotation. */
  lemma FirstNamedRotation(reg: Registry, flat: seq<Note>, bass: Note, disp: int, k: int, show: real -> string)
    requires ValidPitches(flat) && ValidPitch(bass.value)
    requires var names := RotationNames(reg, flat);
             0 <= k < |names| && names[k].Some? && forall m :: 0 <= m < k ==> names[m].None?
    ensures NameFromTones(reg, flat, bass, disp, show)
            == Named(Caption(flat[k], RotationNames(reg, flat)[k].value, bass, disp, show))
  {
    var names := RotationNames(reg, flat);
    var f := FirstSome(names, 0);
    assert f.Some? && f.value == k;
  }

  /** The three outcomes of the chord text. */
  lemma CaptionCases(root: Note, name: string, bass: Note, disp: int, show: real -> string)
    requires ValidPitch(root.value) && ValidPitch(bass.value)
    ensures var head := DispositionedToneStringWithoutOctave(disp, GetValue(root)) + name;
            var r := Named(Caption(root, name, bass, disp, show));
            (NoteEquals(bass, root) ==> r == Ok(Some(head)))
            && (!NoteEquals(bass, root) && Renderable(bass) ==> r == Ok(Some(head + "^" + NoteText(bass, show).value)))
            && (!NoteEquals(bass, root) && !Renderable(bass) ==> r == Err(IndexOutOfBounds))
  {
  }

  /** The lowest note is `equals` to a chord tone exactly when they share a
      pitch class: the stable sort by class keeps the lowest note first
      among the notes of its class, so flattening keeps that very note. */
  lemma BassHeadsItsClass(notes: seq<Note>, k: int)
    requires ValidPitches(notes) && |notes| > 0 && 0 <= k < |ChordTones(notes)|
    ensures NoteEquals(BassOf(notes), ChordTones(notes)[k])
            <==> PositionKey(BassOf(notes)) == PositionKey(ChordTones(notes)[k])
  {
    var byValue := StableSortBy(notes, GetValue);
    var byClass := StableSortBy(byValue, PositionKey);
    var bass := BassOf(notes);
    var flat := ChordTones(notes);
    assert bass == byValue[0];
    assert flat == Flatten(byClass);
    var i := FirstIndices(byClass)[k];
    assert flat[k] == byClass[i] && FirstOfItsClass(byClass, i);
    if PositionKey(bass) == PositionKey(flat[k]) {
      var c := PositionKey(bass);
      StableSortByIsStable(byValue, PositionKey);
      assert KeyClass(byClass, PositionKey, c) == KeyClass(byValue, PositionKey, c);
      assert KeyClass(byValue, PositionKey, c)[0] == bass;
      var h := KeyClassMember(byClass, PositionKey, c);
      assert h == i;
    }
  }

  // ------------------------------------------------------- a worked example

  /** C, E and G of the fifth octave, as `new Note(60)` and so on. */
  const C5: Note := FromValue(60)
  const E5: Note := FromValue(64)
  const G5: Note := FromValue(67)

  /** With the built-in registry, C E G in root position reads "CMAJ": the
      notes are their own chord tones, the lowest note is C, nothing is
      spelled with a flat or sharp, and the root rotation's pattern
      "1 3 5" is registered as "MAJ". */
  lemma MajorTriadIsNamed(show: real -> string)
    ensures ChordFromNotes(BUILT_IN, [C5, E5, G5], show) == Ok(Some("CMAJ"))
  {
    var notes := [C5, E5, G5];
    TriadTones();
    TriadAbstains();
    TriadRootNamed();
    assert BassOf(notes) == C5;
    TriadCaption(show);
  }

  /** Both stable sorts leave the triad where it is. */
  lemma TriadSortsToItself()
    ensures StableSortBy([C5, E5, G5], GetValue) == [C5, E5, G5]
    ensures StableSortBy([C5, E5, G5], PositionKey) == [C5, E5, G5]
  {
    assert [C5, E5][..1] == [C5] && [C5, E5][1..] == [E5] && [C5, E5, G5][..2] == [C5, E5];
    assert StableSortBy([C5], GetValue) == [C5];
    assert StableSortBy([C5, E5], GetValue) == [C5, E5];
    assert InsertBy(G5, [E5], GetValue) == [E5, G5];
    assert InsertBy(G5, [C5, E5], GetValue) == [C5, E5, G5];
    assert StableSortBy([C5], PositionKey) == [C5];
    assert StableSortBy([C5, E5], PositionKey) == [C5, E5];
    assert InsertBy(G5, [E5], PositionKey) == [E5, G5];
    assert InsertBy(G5, [C5, E5], PositionKey) == [C5, E5, G5];
  }

  /** The triad is its own list of chord tones. */
  lemma TriadTones()
    ensures ChordTones([C5, E5, G5]) == [C5, E5, G5]
  {
    TriadSortsToItself();
    TriadClassesDistinct();
    FlattenKeepsDistinctClasses([C5, E5, G5]);
  }

  /** C, E and G lie in three different pitch classes. */
  lemma TriadClassesDistinct()
    ensures forall a, b :: 0 <= a < b < 3 ==> PositionKey([C5, E5, G5][a]) != PositionKey([C5, E5, G5][b])
  {
    TriadNoteByClass(C5);
    TriadNoteByClass(E5);
    TriadNoteByClass(G5);
  }

  /** Each note of the triad is the only one of its class. */
  lemma TriadNoteByClass(x: Note)
    requires x in [C5, E5, G5]
    ensures PositionKey(x) in {0, 4, 7}
    ensures PositionKey(x) == 0 ==> x == C5
    ensures PositionKey(x) == 4 ==> x == E5
    ensures PositionKey(x) == 7 ==> x == G5
  {
    assert PositionKey(C5) == 0 && PositionKey(E5) == 4 && PositionKey(G5) == 7;
  }

  /** Built from the triad, the intervals read "1 3 5". */
  lemma TriadPattern()
    ensures CreateIntervalsFromNotes([C5, E5, G5]).Ok?
    ensures CreateIntervalsFromNotes([C5, E5, G5]).value.pattern == "1 3 5"
  {
    assert ClassDistance(C5, E5) == 4 && ClassDistance(C5, G5) == 7;
    assert DegreeToken(4) == "3" && DegreeToken(7) == "5";
    assert DegreeTokens([C5, E5, G5]) == ["3", "5"];
    assert JoinTrailing(["3", "5"]) == "3 5 ";
    assert "1 " + "3 5 " == "1 3 5 ";
    assert Trim("1 3 5 ") == "1 3 5";
  }

  /** "C5", "E5" and "G5" carry no accidental, so no note votes. */
  lemma TriadAbstains()
    ensures Disposition([C5, E5, G5]) == 0
  {
    assert ToneString(60) == "C5" && ToneString(64) == "E5" && ToneString(67) == "G5";
    assert SpellingAccidental("C5") == 0 && SpellingAccidental("E5") == 0 && SpellingAccidental("G5") == 0;
    assert VotingSpelling(C5) == "C5" && VotingSpelling(E5) == "E5" && VotingSpelling(G5) == "G5";
    assert [C5, E5, G5][1..] == [E5, G5] && [E5, G5][1..] == [G5];
    assert [G5][1..] == [];
    assert SpelledWith([G5], 1) == 0;
    assert SpellingAccidental(VotingSpelling([G5][0])) != -1;
    assert SpelledWith([], -1) == 0;
    assert SpelledWith([G5], -1) == 0;
    assert SpelledWith([E5, G5], 1) == 0 && SpelledWith([E5, G5], -1) == 0;
  }

  /** Root and bass are the same note: no caret follows the name. */
  lemma TriadCaption(show: real -> string)
    ensures Caption(C5, "MAJ", C5, 0, show) == Ok("CMAJ")
  {
    assert DispositionedToneStringWithoutOctave(0, 60) == "C";
    assert "C" + "MAJ" == "CMAJ";
  }

  /** The root position is named "MAJ". */
  lemma TriadRootNamed()
    ensures RotationNames(BUILT_IN, [C5, E5, G5])[0] == Some("MAJ")
  {
    var notes := [C5, E5, G5];
    TriadPattern();
    assert RotationFrom(notes, 0) == notes;
    MajorTriadLookup(CreateIntervalsFromNotes(notes).value);
  }

  // ------------------------------------------------------------- as text

  /** `getInversionFromChordString`: the carets anywhere in the text. */
  method InversionFromChordString(s: string) returns (counter: nat)
    ensures counter == Count(s, '^')
  {
    counter := 0;
    var i := 0;
    while i < |s|
      invariant 0 <= i <= |s|
      invariant counter == Count(s[..i], '^')
    {
      assert s[..i + 1] == s[..i] + [s[i]];
      CountAppend(s[..i], [s[i]], '^');
      assert Count([s[i]], '^') == (if s[i] == '^' then 1 else 0) by {
        assert [s[i]][1..] == [];
      }
      if s[i] == '^' {
        counter := counter + 1;
      }
      i := i + 1;
    }
    assert s[..i] == s;
  }

  /** `insertChordNameIntoNote`: the root's own tone text, the chord name,
      the duration when it was explicit, and the velocities. */
  function InsertChordName(root: Note, name: string, show: real -> string): string
    requires ValidPitch(root.value)
  {
    GetToneString(root) + name
    + (if root.durationExplicit then DurationString(root.duration, show) else "")
    + VelocityString(root)
  }

  /** `getPattern` of a named chord: the root's text carrying the name, then
      one caret per inversion (none for a negative inversion). A named chord
      without a root dereferences null; an unnamed chord has no such text. */
  function ChordPattern(reg: Registry, c: Chord, show: real -> string): (r: Result<Option<string>>)
    requires c.root.Some? ==> ValidPitch(c.root.value.value)
    ensures r.Err? <==> ChordType(reg, c.intervals).Some? && c.root.None?
    ensures r.Err? ==> r.error == MissingRoot
    ensures r.Ok? ==> (r.value.Some? <==> ChordType(reg, c.intervals).Some?)
    ensures r.Ok? && r.value.Some? ==>
              var head := InsertChordName(c.root.value, ChordType(reg, c.intervals).value, show);
              var carets := if c.inversion > 0 then c.inversion else 0;
              |r.value.value| == |head| + carets && r.value.value[..|head|] == head
              && Count(r.value.value, '^') == Count(head, '^') + carets
  {
    match ChordType(reg, c.intervals)
    case None => Ok(None)
    case Some(name) =>
      if c.root.None? then Err(MissingRoot)
      else
        var head := InsertChordName(c.root.value, name, show);
        var carets := Repeat('^', if c.inversion > 0 then c.inversion else 0);
        CountAppend(head, carets, '^');
        CaretsCount(|carets|);
        Ok(Some(head + carets))
  }

  /** A run of carets counts its own length. */
  lemma {:induction false} CaretsCount(n: nat)
    ensures Count(Repeat('^', n), '^') == n
  {
    if n > 0 {
      assert Repeat('^', n)[1..] == Repeat('^', n - 1);
      CaretsCount(n - 1);
    }
  }

  /** Writing a named chord and reading its carets back recovers a
      non-negative inversion, as long as nothing before the carets holds one. */
  lemma PatternInversionReadsBack(reg: Registry, c: Chord, show: real -> string)
    requires c.root.Some? && ValidPitch(c.root.value.value) && c.inversion >= 0
    requires ChordType(reg, c.intervals).Some?
    requires '^' !in InsertChordName(c.root.value, ChordType(reg, c.intervals).value, show)
    ensures ChordPattern(reg, c, show).Ok? && ChordPattern(reg, c, show).value.Some?
    ensures Count(ChordPattern(reg, c, show).value.value, '^') == c.inversion
  {
  }

  // -------------------------------------------------------- major, minor

  const MAJOR_INTERVALS: Intervals := Intervals("1 3 5", None)
  const MINOR_INTERVALS: Intervals := Intervals("1 b3 5", None)

  /** `isMajor`: the intervals have the major triad's pattern. */
  predicate IsMajor(c: Chord) {
    Equals(c.intervals, MAJOR_INTERVALS)
  }

  /** `isMinor`: the intervals have the minor triad's pattern. */
  predicate IsMinor(c: Chord) {
    Equals(c.intervals, MINOR_INTERVALS)
  }

  /** The minor triad reads 0, 3 and 7 half-steps. */
  lemma MinorTriadHalfsteps(root: Option<Note>)
    ensures ToHalfstepArray(Intervals("1 b3 5", root)) == Ok([0, 3, 7])
  {
    ThreeTokens("1", "b3", "5", "1 b3 5");
    UnisonReadsBack();
    FlatThird();
    FifthReading();
    ThreeReadings(Intervals("1 b3 5", root), "1", "b3", "5", 0, 3, 7);
  }

  /** A major chord sounds a major third and a fifth above its root, a minor
      chord a minor third and a fifth, and no chord is both. */
  lemma MajorAndMinorTriads(c: Chord)
    ensures IsMajor(c) ==> ToHalfstepArray(c.intervals) == Ok([0, 4, 7])
    ensures IsMinor(c) ==> ToHalfstepArray(c.intervals) == Ok([0, 3, 7])
    ensures !(IsMajor(c) && IsMinor(c))
  {
    if IsMajor(c) {
      assert c.intervals == Intervals("1 3 5", c.intervals.root);
      MajorTriadHalfsteps(c.intervals.root);
    }
    if IsMinor(c) {
      assert c.intervals == Intervals("1 b3 5", c.intervals.root);
      MinorTriadHalfsteps(c.intervals.root);
    }
  }
}
