# JFugue music theory core in Dafny

This project models the value layer of JFugue for Android's `org.jfugue.theory`
package (`Note`, `Note.Interv`, `Intervals`, `Chord`, `Scale`, `Key`) as
immutable Dafny datatypes and pure functions, and proves the properties that
the Java code promises about pitches, degree tokens, chord names and keys.

Modules, one per concept of the Java package:

- `Results` — `Option`, `Result` and the error values that stand for the Java
  exceptions the core can raise (unknown degree number, missing root, missing
  scale, index out of bounds, division by zero).
- `Strings` — the pieces of `java.lang.String` the core relies on: ASCII
  upper-casing and `equalsIgnoreCase`, `contains`, `split(" ")` with Java's
  rule for trailing empty pieces, `trim`, decimal rendering and parsing.
- `Pitch` — `Note`: the record of fields, the value/octave/position getters,
  the duration setters, `equals`, the three note-name tables and the tone
  strings, the accidental classification, `getDurationString`,
  `getDurationStringForBeat`, `getVelocityString` and `toStringWithoutDuration`.
- `IntervalNames` — the `Note.Interv` enum, `getName` and `get`.
- `NoteSort` — `Note.sortNotesBy`, the bubble sort keyed by a callback.
- `Degrees` — `Intervals`: the degree/half-step tables, `getHalfsteps`,
  `size`, `getNthInterval`, `toHalfstepArray`, `rotate`, `has(Note)`,
  `equals`/`hashCode` and `createIntervalsFromNotes(Note[])`.
- `ChordRegistry` — the chord map of `Chord` as an explicit value: an ordered
  sequence of (name, intervals) pairs kept in the map's order (longer names
  first, then lexicographic), with its lookups and updates, and the
  human-readable alias map.
- `Chords` — `Chord`: `getNotes`, `setBassNote`, `getDisposition`,
  `flattenNotesByPositionInOctave`, `getChordFromNotes`,
  `getInversionFromChordString`, the chord text of `getPattern`,
  `isMajor`/`isMinor`.
- `Scales` — `Scale`: constructors, setters, `equals`/`hashCode`,
  `getDisposition`, `toString` and the `MAJOR`, `MINOR` and `CIRCLE_OF_FIFTHS`
  constants.
- `Keys` — `Key(Note, Scale)`, `Key(Chord)`, `Key(Key)`, `getKeySignature`,
  and the `Chord(Key)` constructor that reads a key back as a chord.

Modelling choices:

- The rotation index `(i + inversion) % length` of `getNotes` is summed in 32 bits, as Java's `int` addition wraps.
- A pitch is an `int`. Every operation that casts a pitch to a Java `byte`
  requires `0 <= v <= 127` (and, for chord tones, that the raised tones stay in
  that range), so no cast ever wraps.
- Java's `%` truncates toward zero. `Pitch.JavaRem` models it for the places
  where the left operand can be negative (`has`, `setBassNote`).
- The static chord map is a parameter of the chord operations. `Put` and
  `Remove` return the updated registry.
- A Java exception becomes an `Err`. A Java `null` result becomes `None`.
- `Double.toString` cannot be reproduced, so the text of a decimal duration is
  a parameter `show: real -> string`. Durations are `real`.
- The defaults held by `DefaultNoteSettingsManager` are constants: on and off
  velocity 64, duration 0.25.
- Note positions follow the code, not the doc comment at
  `Note.java:311-314`: C has position 0.

## Model

| member | source | states |
|---|---|---|
| `Pitch.Blank` | jfugue-android/src/main/java/org/jfugue/theory/Note.java:52-55 | a new note has value 0 and no spelling; it is a first note, not a rest, percussion, melodic or harmonic note; its octave and duration are not explicit, it has no ties, and it has the default on and off velocities |
| `Pitch.FromValue` | jfugue-android/src/main/java/org/jfugue/theory/Note.java:90-99 | a note built from a value keeps that value, takes the default duration without marking it explicit, and has no explicit octave |
| `Pitch.FromValueAndDuration` | jfugue-android/src/main/java/org/jfugue/theory/Note.java:101-109 | a note built from a value and a duration keeps both and marks the duration explicit |
| `Pitch.GetValue` | jfugue-android/src/main/java/org/jfugue/theory/Note.java:125-127 | a rest reads as 0, and any other note reads as its stored value |
| `Pitch.GetOctave` | jfugue-android/src/main/java/org/jfugue/theory/Note.java:149-151 | a rest is in octave 0; otherwise the octave o satisfies 12·o <= value < 12·o + 12, with o in 0..10 |
| `Pitch.GetPositionInOctave` | jfugue-android/src/main/java/org/jfugue/theory/Note.java:316-318 | the position is in 0..11, is 0 for a rest, and otherwise is congruent to the value modulo 12 |
| `Pitch.OctaveAndPositionRecompose` | jfugue-android/src/main/java/org/jfugue/theory/Note.java:149-151 | for a sounding note, 12 · octave + position == value |
| `Pitch.SetValue` | jfugue-android/src/main/java/org/jfugue/theory/Note.java:116-119 | only the value changes |
| `Pitch.SetDuration` | jfugue-android/src/main/java/org/jfugue/theory/Note.java:162-166 | sets the duration, marks it explicit, and changes nothing else |
| `Pitch.UseDefaultDuration` | jfugue-android/src/main/java/org/jfugue/theory/Note.java:168-172 | sets the default duration and leaves the explicit flag and every other field untouched |
| `Pitch.UseSameDurationAs` | jfugue-android/src/main/java/org/jfugue/theory/Note.java:174-178 | copies both the duration and its explicit flag from the other note, and changes nothing else |
| `Pitch.UseSameExplicitOctaveSettingAs` | jfugue-android/src/main/java/org/jfugue/theory/Note.java:185-188 | copies the explicit-octave flag from the other note, and changes nothing else |
| `Pitch.CopyEqualsOriginal` | jfugue-android/src/main/java/org/jfugue/theory/Note.java:69-84 | the copy constructor's result is `equals` to the original in both directions, and `equals` is symmetric |
| `Pitch.EqualsComparesSpellingIgnoringCase` | jfugue-android/src/main/java/org/jfugue/theory/Note.java:760-781 | two notes that differ only in spelling are equal exactly when the spellings are equal ignoring case |
| `Pitch.EqualsIsNotTransitive` | jfugue-android/src/main/java/org/jfugue/theory/Note.java:766 | because a missing spelling matches anything, "C#" equals the unspelled 61 and the unspelled 61 equals "Db", yet "C#" does not equal "Db" |
| `Strings.EqualsIgnoreCaseIsEquivalence` | jfugue-android/src/main/java/org/jfugue/theory/Note.java:766 | the case-insensitive comparison of spellings is reflexive, symmetric and transitive |
| `Pitch.NameTablesAgreeOnNaturals` | jfugue-android/src/main/java/org/jfugue/theory/Note.java:872-874 | the sharp and flat tables agree exactly at the naturals 0, 2, 4, 5, 7, 9 and 11; the common table agrees with both there, and elsewhere it takes one of the two |
| `Pitch.NameTablesDenotePosition` | jfugue-android/src/main/java/org/jfugue/theory/Note.java:872-874 | the entry at index i of each of the three tables names a note whose letter plus accidental is position i |
| `Pitch.ToneStringWithoutOctave` | jfugue-android/src/main/java/org/jfugue/theory/Note.java:382-384 | the name is exactly the common-table entry for the value's position in the octave, and it denotes that position |
| `Pitch.DispositionedToneStringWithoutOctave` | jfugue-android/src/main/java/org/jfugue/theory/Note.java:396-402 | uses the flat table exactly when the disposition is -1 and the sharp table otherwise, including 0; the name denotes the position and never mixes '#' with 'b' |
| `Pitch.ToneString` | jfugue-android/src/main/java/org/jfugue/theory/Note.java:365-370 | the common name followed by the decimal octave value / 12 |
| `Pitch.DispositionedToneStringWithOctave` | jfugue-android/src/main/java/org/jfugue/theory/Note.java:414-423 | the dispositioned name followed by the decimal octave value / 12 |
| `Pitch.ToneStringReadsBack` | jfugue-android/src/main/java/org/jfugue/theory/Note.java:365-423 | both tone strings with octave determine their pitch: the name before the first digit gives the position and the digits give the octave, so reading them back yields the value |
| `Pitch.GetAllAccidental` | jfugue-android/src/main/java/org/jfugue/theory/Note.java:721-742 | the result is in -2..2, and is 0 for rests and percussion notes |
| `Pitch.GetAccidental` | jfugue-android/src/main/java/org/jfugue/theory/Note.java:688-709 | equals the sign of `getAllAccidental` |
| `Pitch.SpelledAccidental` | jfugue-android/src/main/java/org/jfugue/theory/Note.java:721-742 | for a spelling letter + accidental + octave digits, the text after the first character classifies as bb → -2, b → -1, ## → 2, # → 1, none → 0 |
| `Pitch.UnspelledAccidental` | jfugue-android/src/main/java/org/jfugue/theory/Note.java:619-634 | a sounding, non-percussion note without a spelling is classified by its common-table name: -1 at positions 3 and 10, +1 at 1, 6 and 8, 0 at the naturals |
| `Pitch.DurationString` | jfugue-android/src/main/java/org/jfugue/theory/Note.java:499-529 | the text is empty exactly for 0; a duration whose remainder is not a table entry (every negative one included) falls back to "/" + the text of the ORIGINAL value; below 1 a table value gives exactly its letter |
| `Pitch.DurationRoundTrip` | jfugue-android/src/main/java/org/jfugue/theory/Note.java:499-529 | for every duration whose remainder is 0 or a table entry, reading the text back as "w", an optional whole count, and at most one letter gives the duration |
| `Pitch.DurationExamples` | jfugue-android/src/main/java/org/jfugue/theory/Note.java:499-529 | 4.0 → "w4", 1.5 → "wh", 0.75 → "h.", 1.0 → "w", and 0.625 and 2.625 give the "/" fallback of the whole value |
| `Pitch.DurationStringForBeat` | jfugue-android/src/main/java/org/jfugue/theory/Note.java:536-544 | any beat other than 2, 4, 8 or 16 gives the "/" fallback: "/Infinity" for beat 0, otherwise "/" followed by the text of 1/beat |
| `Pitch.BeatAgreesWithDurationString` | jfugue-android/src/main/java/org/jfugue/theory/Note.java:536-544 | for beats 2, 4, 8 and 16 the letter is the one `getDurationString` gives for 1/beat |
| `Pitch.VelocityString` | jfugue-android/src/main/java/org/jfugue/theory/Note.java:551-560 | "a" and the on velocity when it is not the default, then "d" and the off velocity when it is not the default; the text is empty exactly when both are defaults, and reading it back gives exactly the non-default velocities |
| `Pitch.PercussionString` | jfugue-android/src/main/java/org/jfugue/theory/Note.java:431-437 | succeeds exactly for keys 35..81, with the table name of key v − 35 in square brackets; any other key indexes out of bounds |
| `Pitch.PercussionStringReadsBack` | jfugue-android/src/main/java/org/jfugue/theory/Note.java:431-437 | a percussion text and the key it names determine each other: the text is that of key v exactly when its bracketed name is the table's name for v |
| `Pitch.PercussionNamesDistinct` | jfugue-android/src/main/java/org/jfugue/theory/Note.java:1124-1173 | no two percussion keys share a name |
| `Pitch.ToStringWithoutDuration` | jfugue-android/src/main/java/org/jfugue/theory/Note.java:598-609 | "R" for a rest; a percussion note gives its percussion text, and fails exactly when its key is outside 35..81; any other note gives its spelling when it has one, else the common name followed by its octave |
| `Pitch.NoteTextReadsBack` | jfugue-android/src/main/java/org/jfugue/theory/Note.java:598-609 | the text of a sounding note without a spelling gives its value back, through the tone name and octave or through the percussion name |
| `IntervalNames.GetNameOfConstant` | jfugue-android/src/main/java/org/jfugue/theory/Note.java:968-1042 | for every constant, `getName` of its span and half-steps returns that constant's French or US name |
| `IntervalNames.GetNameUndefined` | jfugue-android/src/main/java/org/jfugue/theory/Note.java:968-1042 | `getName` returns "undefined" exactly when no constant has that span and half-step count |
| `IntervalNames.NamedPairHasConstant` | jfugue-android/src/main/java/org/jfugue/theory/Note.java:968-1042 | a defined name comes from a constant with exactly that span and half-step count |
| `IntervalNames.PairsIdentifyConstants` | jfugue-android/src/main/java/org/jfugue/theory/Note.java:881-957 | no two constants share a (span, half-steps) pair |
| `IntervalNames.NamesAreDefined` | jfugue-android/src/main/java/org/jfugue/theory/Note.java:881-959 | no constant is named "undefined" |
| `IntervalNames.FrenchNamesDistinct` | jfugue-android/src/main/java/org/jfugue/theory/Note.java:881-957 | no two constants share a French name |
| `IntervalNames.USNamesDistinct` | jfugue-android/src/main/java/org/jfugue/theory/Note.java:881-957 | no two constants share a US name |
| `IntervalNames.FrenchIsNotUS` | jfugue-android/src/main/java/org/jfugue/theory/Note.java:881-957 | no French name is also a US name |
| `IntervalNames.GetOfName` | jfugue-android/src/main/java/org/jfugue/theory/Note.java:1045-1119 | `get` of either name of a constant returns that constant |
| `IntervalNames.GetOfOtherText` | jfugue-android/src/main/java/org/jfugue/theory/Note.java:1045-1119 | `get` of any text that is no constant's name returns null |
| `NoteSort.SortNotesBy` | jfugue-android/src/main/java/org/jfugue/theory/Note.java:341-352 | the bubble sort returns a permutation of its input that is non-decreasing by the key; each key class keeps its input order, so the result is the stable sort |
| `NoteSort.StableSortIsUnique` | jfugue-android/src/main/java/org/jfugue/theory/Note.java:341-352 | two key-sorted sequences with the same key classes, in the same order, are equal |
| `NoteSort.StableSortByIsStable` | jfugue-android/src/main/java/org/jfugue/theory/Note.java:341-352 | the insertion-sort reference definition is sorted and keeps every key class in input order |
| `NoteSort.SwapKeepsKeyClasses` | jfugue-android/src/main/java/org/jfugue/theory/Note.java:344-349 | swapping neighbours whose keys differ leaves every key class unchanged |
| `Degrees.DegreeTablesAreInverse` | jfugue-android/src/main/java/org/jfugue/theory/Intervals.java:41-75 | the degree → half-steps table and the half-steps → degree table are inverse maps |
| `Degrees.HalfstepDelta` | jfugue-android/src/main/java/org/jfugue/theory/Intervals.java:264-274 | the delta is the number of '#' minus the number of 'b' and 'B', wherever they stand in the token |
| `Degrees.NumberPortion` | jfugue-android/src/main/java/org/jfugue/theory/Intervals.java:288-295 | a token without a digit reads as 0, and a reading is never negative |
| `Degrees.GetHalfsteps` | jfugue-android/src/main/java/org/jfugue/theory/Intervals.java:241-243 | the reading succeeds exactly when the number portion is in 1..15; a number outside the table is an unknown-degree error, not a value |
| `Degrees.SpelledNumber` | jfugue-android/src/main/java/org/jfugue/theory/Intervals.java:241-274 | for accidentals around a degree number in 1..15, the half-steps are the table entry plus the accidental delta |
| `Degrees.HalfstepExamples` | jfugue-android/src/main/java/org/jfugue/theory/Intervals.java:241-274 | b3 → 3, 3 → 4, #5 → 8, ##5 → 9, and "3b" reads like "b3" |
| `Degrees.UnreadableTokens` | jfugue-android/src/main/java/org/jfugue/theory/Intervals.java:241-243 | "#" (no number, read as 0) and "16" (beyond the table) are errors |
| `Degrees.NthInterval` | jfugue-android/src/main/java/org/jfugue/theory/Intervals.java:226-228 | a token exists exactly for 0 <= n < size; any other index is out of bounds |
| `Degrees.ToHalfstepArray` | jfugue-android/src/main/java/org/jfugue/theory/Intervals.java:250-257 | has length `size()`, element i is the half-steps of `getNthInterval(i)`, and it fails exactly when some token cannot be read |
| `Degrees.ReadingsDetermineArray` | jfugue-android/src/main/java/org/jfugue/theory/Intervals.java:250-257 | when every token reads as the matching entry of hs, the array is hs |
| `Degrees.Rotate` | jfugue-android/src/main/java/org/jfugue/theory/Intervals.java:302-316 | an empty pattern divides by zero; a negative remainder of n by the size indexes out of bounds; every n >= 0 succeeds; the root is kept |
| `Degrees.RotateLeft` | jfugue-android/src/main/java/org/jfugue/theory/Intervals.java:306-313 | the shifted tokens are tokens m.. followed by tokens ..m, a permutation of the input |
| `Degrees.RotateTokens` | jfugue-android/src/main/java/org/jfugue/theory/Intervals.java:302-316 | for n >= 0 the new pattern's tokens are the old ones shifted left by n mod size, so the size and the multiset of tokens are kept |
| `Degrees.RotateBySizeIsIdentity` | jfugue-android/src/main/java/org/jfugue/theory/Intervals.java:302-316 | rotating by the size, or by 0, gives back the same pattern |
| `Degrees.RotateExample` | jfugue-android/src/main/java/org/jfugue/theory/Intervals.java:298-316 | "1 3 5" rotated by 1 is "3 5 1" |
| `Degrees.Has` | jfugue-android/src/main/java/org/jfugue/theory/Intervals.java:334-345 | false without a root; with a root and readable tokens, true exactly when some token lands on the note's position, the root value plus its half-steps taken with Java's remainder by 12 |
| `Degrees.EqualsAgreesWithHash` | jfugue-android/src/main/java/org/jfugue/theory/Intervals.java:367-375 | equality is equality of the pattern text, it is symmetric, and equal patterns hash alike |
| `Degrees.HashIsPolynomialModulo` | jfugue-android/src/main/java/org/jfugue/theory/Intervals.java:373-375 | the 32-bit wrapped hash equals the polynomial s[0]·31^(n-1) + … + s[n-1] modulo 2^32 |
| `Degrees.ClassDistance` | jfugue-android/src/main/java/org/jfugue/theory/Intervals.java:413-418 | the two-branch difference of positions is the distance (pc_i − pc_0 + 12) mod 12, in 0..11 |
| `Degrees.DegreeTokenReadsBack` | jfugue-android/src/main/java/org/jfugue/theory/Intervals.java:419-425 | the token emitted for a distance (a table degree, or "b" + the next degree up) never misses the table and reads back as that distance |
| `Degrees.CreateIntervalsFromNotes` | jfugue-android/src/main/java/org/jfugue/theory/Intervals.java:408-430 | succeeds exactly for a non-empty note array (an empty one indexes out of bounds) and takes the first note as the root |
| `Degrees.CreateIntervalsFromNotesReadsBack` | jfugue-android/src/main/java/org/jfugue/theory/Intervals.java:408-430 | one token per note, the first being "1", none containing '#', and token i reads back as the distance from note 0 to note i |
| `ChordRegistry.BeforeIsStrictTotalOrder` | jfugue-android/src/main/java/org/jfugue/theory/Chord.java:48-66 | the map's order (longer names first, then lexicographic) is irreflexive, total, asymmetric and transitive |
| `ChordRegistry.BuiltInIsOrdered` | jfugue-android/src/main/java/org/jfugue/theory/Chord.java:69-116 | the built-in chords, listed in the map's order, are strictly ordered |
| `ChordRegistry.Get` | jfugue-android/src/main/java/org/jfugue/theory/Chord.java:158-160 | a name is found exactly when it is a key, and what is found is that key's entry |
| `ChordRegistry.Put` | jfugue-android/src/main/java/org/jfugue/theory/Chord.java:140-151 | the registry stays ordered, gains the name, maps it to the new intervals, and answers every other name as before |
| `ChordRegistry.Remove` | jfugue-android/src/main/java/org/jfugue/theory/Chord.java:167-169 | the registry stays ordered, loses the name, and answers every other name as before |
| `ChordRegistry.ChordNames` | jfugue-android/src/main/java/org/jfugue/theory/Chord.java:130-132 | the names come in strictly increasing map order, and they are exactly the keys |
| `ChordRegistry.NamesAreDistinct` | jfugue-android/src/main/java/org/jfugue/theory/Chord.java:48-66 | an ordered registry holds each name at most once |
| `ChordRegistry.ChordType` | jfugue-android/src/main/java/org/jfugue/theory/Chord.java:177-184 | null exactly when no entry's intervals equal the argument; otherwise the name of the first matching entry |
| `ChordRegistry.MajorTriadLookup` | jfugue-android/src/main/java/org/jfugue/theory/Chord.java:69-116 | with the built-in chords, the intervals "1 3 5" are named "MAJ": no entry before it in the map's order has those intervals |
| `ChordRegistry.ChordTypeIsFirstInOrder` | jfugue-android/src/main/java/org/jfugue/theory/Chord.java:177-184 | the answer is a key whose intervals equal the argument, and it comes before every other such key in the map's order |
| `ChordRegistry.Min6IsShadowed` | jfugue-android/src/main/java/org/jfugue/theory/Chord.java:80-86 | with the built-in map, "1 b3 5 6" is named "MIN6%9", and no intervals at all are named "MIN6" |
| `ChordRegistry.Min6NeverAnswered` | jfugue-android/src/main/java/org/jfugue/theory/Chord.java:80-86 | no other pattern is named "MIN6" either |
| `ChordRegistry.CorrectedBuiltInIsOrdered` | jfugue-android/src/main/java/org/jfugue/theory/Chord.java:69-116 | the built-in map with MIN6%9 as "1 b3 5 6 9" is strictly ordered |
| `ChordRegistry.CorrectedMin6IsFound` | jfugue-android/src/main/java/org/jfugue/theory/Chord.java:80-86 | with MIN6%9 as "1 b3 5 6 9", "1 b3 5 6" is named "MIN6" and "1 b3 5 6 9" is named "MIN6%9" |
| `ChordRegistry.PutHumanReadable` | jfugue-android/src/main/java/org/jfugue/theory/Chord.java:194-196 | the chord name now reads as the alias, and every other name reads as before |
| `ChordRegistry.BuiltInAliases` | jfugue-android/src/main/java/org/jfugue/theory/Chord.java:118-121 | MAJ6%9 reads as "6/9" and MAJ7%6 as "7/6"; every other name reads as itself |
| `Chords.SpellingTables` | jfugue-android/src/main/java/org/jfugue/theory/Chord.java:493-499 | a chord tone is spelled from the common table when the root has no accidental, from the flat table for -1, and from the sharp table otherwise |
| `Chords.ChordTone` | jfugue-android/src/main/java/org/jfugue/theory/Chord.java:492-499 | a non-root tone is harmonic, not melodic, not first, copies the root's duration and explicit flags, and carries a spelling exactly when the root's octave is not explicit |
| `Chords.Voicing` | jfugue-android/src/main/java/org/jfugue/theory/Chord.java:484-500 | before inversion, note 0 is a copy of the root and note k is the tone at root + hs[k] − hs[0] |
| `Chords.RaiseFirst` | jfugue-android/src/main/java/org/jfugue/theory/Chord.java:504-508 | the first min(inversion, length) notes are raised by an octave and the rest are unchanged |
| `Chords.RotationBounds` | jfugue-android/src/main/java/org/jfugue/theory/Chord.java:512-515 | with the index sum taken in 32 bits, an inversion >= 0 indexes in bounds while inversion + length <= 2^31, and for more than one note a negative inversion greater than −length indexes out of bounds |
| `Chords.RotationOverflows` | jfugue-android/src/main/java/org/jfugue/theory/Chord.java:514 | with the largest `int` inversion, index 1 of a triad wraps to −2^31, whose remainder by 3 is −2, so the rotation indexes out of bounds |
| `Chords.RotateNotes` | jfugue-android/src/main/java/org/jfugue/theory/Chord.java:512-515 | output i is input (i + inversion) with Java's remainder by the length |
| `Chords.GetNotes` | jfugue-android/src/main/java/org/jfugue/theory/Chord.java:483-518 | fails exactly when a token is unreadable, the root is missing, or the rotation indexes out of bounds; otherwise there are `size()` notes, and note i is the tone of index (i + inversion) mod length, the sum wrapped to 32 bits, raised when that index is below the inversion |
| `Chords.GetNotesSpelling` | jfugue-android/src/main/java/org/jfugue/theory/Chord.java:483-518 | every produced note carries the spelling that the root's accidental selects |
| `Chords.SecondInversionOfMajor` | jfugue-android/src/main/java/org/jfugue/theory/Chord.java:510-515 | a major triad with inversion 2 gives G C E: root + 7, then the root raised an octave, then root + 16 |
| `Chords.LastMatch` | jfugue-android/src/main/java/org/jfugue/theory/Chord.java:458-462 | the index found is the largest one whose tone has the bass note's pitch class |
| `Chords.SetBassNote` | jfugue-android/src/main/java/org/jfugue/theory/Chord.java:453-465 | without a root the chord is unchanged; otherwise it fails exactly when a token is unreadable, the inversion becomes the largest index whose tone has the bass's pitch class, and it is unchanged when none has |
| `Chords.BassNoteSoundsFirst` | jfugue-android/src/main/java/org/jfugue/theory/Chord.java:453-518 | after `setBassNote`, the first note `getNotes` returns has the bass note's pitch class |
| `Chords.VoteTotalBalance` | jfugue-android/src/main/java/org/jfugue/theory/Chord.java:329-357 | the running total is the number of single-sharp spellings minus the number of single-flat spellings |
| `Chords.DispositionVote` | jfugue-android/src/main/java/org/jfugue/theory/Chord.java:332-349 | a spelling's vote agrees with the `getAllAccidental` reading of the same text: +1 for one sharp, −1 for one flat, and 0 for none or a double accidental |
| `Chords.Disposition` | jfugue-android/src/main/java/org/jfugue/theory/Chord.java:329-357 | the sign of (single-sharp spellings − single-flat spellings) |
| `Chords.FirstIndices` | jfugue-android/src/main/java/org/jfugue/theory/Chord.java:305-322 | the increasing list of exactly the indices that are the first of their pitch class |
| `Chords.Flatten` | jfugue-android/src/main/java/org/jfugue/theory/Chord.java:305-322 | the output is the first-occurrence subsequence of the input; its pitch classes are distinct and are exactly the input's |
| `Chords.FlattenKeepsDistinctClasses` | jfugue-android/src/main/java/org/jfugue/theory/Chord.java:305-322 | notes whose pitch classes are already distinct are all kept, in order |
| `Chords.ChordTones` | jfugue-android/src/main/java/org/jfugue/theory/Chord.java:384-391 | sorting by position and flattening gives the input's pitch classes, each once, in strictly increasing order, drawn from the input |
| `Chords.BassOf` | jfugue-android/src/main/java/org/jfugue/theory/Chord.java:368-382 | the bass is an input note of lowest value, the first such note in input order |
| `Chords.RotationFrom` | jfugue-android/src/main/java/org/jfugue/theory/Chord.java:393-398 | rotation i takes note (i + u) mod length at place u |
| `Chords.FirstSome` | jfugue-android/src/main/java/org/jfugue/theory/Chord.java:402-420 | the first rotation that has a name, or none |
| `Chords.NameFromTones` | jfugue-android/src/main/java/org/jfugue/theory/Chord.java:402-420 | null exactly when no rotation has a name; otherwise the first named rotation's root spelled by the disposition, then the name, then "^" and the bass text exactly when the bass is not `equals` to that root |
| `Chords.ChordFromNotes` | jfugue-android/src/main/java/org/jfugue/theory/Chord.java:364-421 | an empty array indexes out of bounds; otherwise the name built from the sorted, flattened tones, the lowest note and the disposition |
| `Chords.CaretMarksInversion` | jfugue-android/src/main/java/org/jfugue/theory/Chord.java:364-420 | no name when no rotation is named; otherwise, for the first rotation the registry names, the text is the disposition-spelled root and the name; "^" and the lowest note's text follow exactly when the lowest note's pitch class differs from the root's, and that text fails for a percussion note outside 35..81 |
| `Chords.BassHeadsItsClass` | jfugue-android/src/main/java/org/jfugue/theory/Chord.java:368-416 | the lowest note is `equals` to a chord tone exactly when they share a pitch class, because the stable sorts keep it first in its class |
| `Chords.MajorTriadIsNamed` | jfugue-android/src/main/java/org/jfugue/theory/Chord.java:364-421 | with the built-in chords, the notes 60, 64, 67 are named "CMAJ", with no caret |
| `Chords.InversionFromChordString` | jfugue-android/src/main/java/org/jfugue/theory/Chord.java:552-558 | the count of '^' characters in the text |
| `Chords.ChordPattern` | jfugue-android/src/main/java/org/jfugue/theory/Chord.java:561-578 | an unnamed chord gives no chord text; a named chord without a root is an error; otherwise the root's text with the name, followed by exactly one '^' per inversion step |
| `Chords.PatternInversionReadsBack` | jfugue-android/src/main/java/org/jfugue/theory/Chord.java:552-578 | the caret count of the chord text is the inversion |
| `Chords.MajorAndMinorTriads` | jfugue-android/src/main/java/org/jfugue/theory/Chord.java:619-625 | a major chord reads as half-steps 0 4 7 and a minor one as 0 3 7, and no chord is both |
| `Scales.SetName` | jfugue-android/src/main/java/org/jfugue/theory/Scale.java:82-85 | only the name changes |
| `Scales.SetMajorOrMinorIndicator` | jfugue-android/src/main/java/org/jfugue/theory/Scale.java:108-111 | only the indicator changes |
| `Scales.EqualityIsByPattern` | jfugue-android/src/main/java/org/jfugue/theory/Scale.java:151-159 | equality is equality of the pattern text, name and indicator are ignored, and equal scales hash alike |
| `Scales.Disposition` | jfugue-android/src/main/java/org/jfugue/theory/Scale.java:125-127 | +1 exactly for the major indicator, and −1 for every other indicator, the unset 0 included |
| `Scales.ScaleText` | jfugue-android/src/main/java/org/jfugue/theory/Scale.java:134-142 | "maj" for the major indicator, "min" for the minor one, otherwise the name |
| `Scales.TextAgreesWithDisposition` | jfugue-android/src/main/java/org/jfugue/theory/Scale.java:125-142 | for a set indicator, "maj" goes with +1 and "min" with −1 |
| `Scales.MajorScale` | jfugue-android/src/main/java/org/jfugue/theory/Scale.java:161 | seven degrees with half-steps 0 2 4 5 7 9 11, text "maj", disposition +1 |
| `Scales.MinorScale` | jfugue-android/src/main/java/org/jfugue/theory/Scale.java:162 | seven degrees with half-steps 0 2 3 5 7 8 10, text "min", disposition −1 |
| `Scales.CircleOfFifthsScale` | jfugue-android/src/main/java/org/jfugue/theory/Scale.java:163 | seven degrees whose "3b" and "7b" read like b3 and b7 (0 2 3 5 7 9 10), no text, disposition −1 |
| `Keys.FromChord` | jfugue-android/src/main/java/org/jfugue/theory/Key.java:46-53 | the key takes the chord's root; the scale is MAJOR exactly for the text "1 3 5", MINOR exactly for "1 b3 5", and missing otherwise |
| `Keys.CopyKey` | jfugue-android/src/main/java/org/jfugue/theory/Key.java:65-68 | the copy has the same root and scale |
| `Keys.KeySignature` | jfugue-android/src/main/java/org/jfugue/theory/Key.java:74-76 | a missing root fails first; then a percussion root outside 35..81 fails on its text; then a missing scale fails; otherwise the root's text followed by the scale's text, or "null" when that text is missing |
| `Keys.SignatureOfTriadKey` | jfugue-android/src/main/java/org/jfugue/theory/Key.java:46-76 | the key of a major triad signs with a trailing "maj", and the key of a minor triad with "min" |
| `Keys.TriadLiesInItsKey` | jfugue-android/src/main/java/org/jfugue/theory/Key.java:46-53 | every half-step of a major or minor triad is a half-step of its key's scale |
| `Keys.ChordOfKey` | jfugue-android/src/main/java/org/jfugue/theory/Chord.java:265-268 | a chord read from a key has the key's root and the scale's intervals, with no inversion; a missing scale is an error |
| `Keys.TriadKeyChord` | jfugue-android/src/main/java/org/jfugue/theory/Chord.java:265-268 | the chord of a triad's key is the seven-degree scale, which is neither major nor minor and gives no key scale back |

## Left out

- Frequencies and timing (`getFrequencyForNote`, `getMicrosecondDuration`): they use double arithmetic and `Math.pow`.
- Everything that goes through the note or chord text parser, which is not part of this model: `Note(String)`, `Chord(String)`, `Key(String)`, `Key.DEFAULT_KEY`, `setRoot(String)`, `has(String)`, `createIntervalsFromNotes(String)` and `(Pattern)`, `Intervals.getNotes`, `getSomeNotes`, `Chord.fromNotes`, `getBassNote`, `isValidChord`, `Note.isValidNote` and `Note.addInterval`.
- `Pattern` plumbing (`getPattern` of `Intervals` and `Note`, `getPatternWithNotes…`, `as`): the model covers only the strings these methods produce. A chord without a name gives `None` where Java falls back to `getPatternWithNotes`.
- Java `byte` wrap-around in the `(byte)` casts: every pitch operation requires values in 0..127 instead.
- The process-wide mutable `chordMap` and `humanReadableMap`, and any concurrency: the registry and the alias map are explicit values.
- `Chord.compareTo` and `equalsNotes`, `Note.isSameNote`, `getFrenchName`, `changeValue`, `setOctave`, and the debug strings: these are outside the modelled core.
- `NoteSort.SortNotesBy`: returns the sorted sequence. The Java method sorts the caller's array in place, which `getChordFromNotes` relies on only through the sorted value.
- `Chords.SetBassNote`: when a later token is unreadable, Java has already updated the inversion for earlier matches before throwing. The model returns only the error.
- `Chords.ChordFromNotes`: does not model the octave-span flag, since both of its branches produce the same text.
- `Degrees.Has`: the contract is stated for patterns whose tokens all read. When an unreadable token comes before any match, Java throws; the model returns that error, but the contract does not state it.
- `Degrees.Rotate`: returns a new value. Java rewrites the receiver's pattern in place and returns it, so other references to the same `Intervals` (a registry entry, say) see the change.
- `Chords.RotationBounds`: says nothing about an inversion >= 0 with inversion + length > 2^31 beyond the wrapped index it computes; `Chords.RotationOverflows` shows one such inversion failing.
- `Chords.BassNoteSoundsFirst`: stated for chords of at most 2^30 intervals, so that the index sum cannot wrap.
- `Degrees.RotateTokens`: stated for well-formed patterns, which are single-space separated and have no blank tokens. Java's `split` and `trim` treat other patterns differently.
- `Pitch.DurationString`: `Double.toString` is the parameter `show`, so the fallback text is stated only as "/" + `show(d)`. Durations are exact reals; double rounding is not modelled.
- `Pitch.NoteText`, `Pitch.GetToneString`, `Pitch.DecoratorString` and `Chords.InsertChordName`: these compose strings only, so their properties appear in the members that use them.
- `Strings`: upper-casing and case-insensitive comparison cover ASCII letters only.
- The scale constants are written as joins of their degree lists; `Scales.MajorScale`, `Scales.MinorScale` and `Scales.CircleOfFifthsScale` fix their token readings.
- `Token.java`, `NoteProducer.java`, `TokenProducer.java` and `HTMLDListElement.java` have no behaviour to model: they are data holders or interfaces.

## Findings

| source | as written | input that shows it | evidently intended | confidence | as-written member | corrected member |
|---|---|---|---|---|---|---|
| jfugue-android/src/main/java/org/jfugue/theory/Chord.java:86 | MIN6%9 is registered as "1 b3 5 6", the same intervals as MIN6 at line 80; the longer name comes first in the map's order, so it shadows MIN6 | `getChordType(new Intervals("1 b3 5 6"))` returns "MIN6%9", and no intervals are ever named "MIN6" | MIN6%9 as "1 b3 5 6 9", like MAJ6%9 "1 3 5 6 9" | not executed | `ChordRegistry.Min6IsShadowed` | `ChordRegistry.CorrectedMin6IsFound` |
