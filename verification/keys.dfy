/** A `Key`: a root note and a scale, either of which may be missing; the
    key a major or minor triad implies, its signature text, and the chord
    built back from a key. */
module Keys {
  import opened Results
  import opened Pitch
  import opened Degrees
  import opened Chords
  import opened Scales

  /** A missing root or scale (Java null) is `None`. */
  datatype Key = Key(root: Option<Note>, scale: Option<Scale>)

  /** `new Key(Chord)`: the chord's root, with the major scale for the major
      triad pattern, the minor scale for the minor one, and no scale for any
      other pattern. */
  function FromChord(c: Chord): (k: Key)
    ensures k.root == c.root
    ensures k.scale == Some(MAJOR) <==> c.intervals.pattern == "1 3 5"
    ensures k.scale == Some(MINOR) <==> c.intervals.pattern == "1 b3 5"
    ensures k.scale.None? <==> c.intervals.pattern != "1 3 5" && c.intervals.pattern != "1 b3 5"
  {
    Key(c.root, if IsMajor(c) then Some(MAJOR) else if IsMinor(c) then Some(MINOR) else None)
  }

  /** `new Key(Key)`: the same root and the same scale. */
  function CopyKey(k: Key): (r: Key)
    ensures r.root == k.root && r.scale == k.scale
  {
    Key(k.root, k.scale)
  }

  /** Java's text for a possibly null string in a concatenation. */
  function NullableText(s: Option<string>): string {
    match s
    case Some(t) => t
    case None => "null"
  }

  /** `getKeySignature`: the root note's text, then the scale's text ("null"
      when the scale has neither indicator nor name). A missing root or
      scale is dereferenced and throws, and so does the text of a
      percussion root outside the percussion keys, before the scale is
      reached. */
  function KeySignature(k: Key, show: real -> string): (r: Result<string>)
    requires k.root.Some? ==> ValidPitch(k.root.value.value)
    ensures k.root.None? ==> r == Err(MissingRoot)
    ensures k.root.Some? && !Renderable(k.root.value) ==> r == Err(IndexOutOfBounds)
    ensures k.root.Some? && Renderable(k.root.value) && k.scale.None? ==> r == Err(MissingScale)
    ensures r.Ok? <==> k.root.Some? && Renderable(k.root.value) && k.scale.Some?
    ensures r.Ok? ==>
              var head := NoteText(k.root.value, show).value;
              |head| <= |r.value| && r.value[..|head|] == head
              && r.value[|head|..] == NullableText(ScaleText(k.scale.value))
  {
    if k.root.None? then Err(MissingRoot)
    else
      match NoteText(k.root.value, show)
      case Err(e) => Err(e)
      case Ok(head) =>
        if k.scale.None? then Err(MissingScale)
        else
          var r := head + NullableText(ScaleText(k.scale.value));
          assert r[..|head|] == head && r[|head|..] == NullableText(ScaleText(k.scale.value));
          Ok(r)
  }

  /** The key of a major triad signs "maj", of a minor one "min", after the
      root's text. */
  lemma SignatureOfTriadKey(c: Chord, show: real -> string)
    requires c.root.Some? && Renderable(c.root.value)
    requires IsMajor(c) || IsMinor(c)
    ensures var r := KeySignature(FromChord(c), show);
            r.Ok? && |r.value| >= 3
            && r.value[|r.value| - 3..] == (if IsMajor(c) then "maj" else "min")
  {
    MajorAndMinorTriads(c);
  }

  /** A triad's tones all belong to the scale of its key: 0 4 7 within the
      major scale, 0 3 7 within the minor one. */
  lemma TriadLiesInItsKey(c: Chord)
    requires IsMajor(c) || IsMinor(c)
    ensures var k := FromChord(c);
            k.scale.Some? && ToHalfstepArray(c.intervals).Ok? && ToHalfstepArray(k.scale.value.intervals).Ok?
            && forall h :: h in ToHalfstepArray(c.intervals).value ==> h in ToHalfstepArray(k.scale.value.intervals).value
  {
    MajorAndMinorTriads(c);
    if IsMajor(c) {
      MajorScale();
      WithinScale([0, 4, 7], [0, 2, 4, 5, 7, 9, 11]);
    } else {
      MinorScale();
      WithinScale([0, 3, 7], [0, 2, 3, 5, 7, 8, 10]);
    }
  }

  /** Literal membership, kept apart from the readings. */
  lemma WithinScale(triad: seq<int>, scale: seq<int>)
    requires (triad == [0, 4, 7] && scale == [0, 2, 4, 5, 7, 9, 11])
             || (triad == [0, 3, 7] && scale == [0, 2, 3, 5, 7, 8, 10])
    ensures forall h :: h in triad ==> h in scale
  {
    assert scale[0] == 0 && scale[4] == 7 && triad[1] == scale[2];
  }

  /** `new Chord(Key)`: the key's root and its scale's intervals, no
      inversion; a missing scale is dereferenced and throws. */
  function ChordOfKey(k: Key): (r: Result<Chord>)
    ensures r.Err? <==> k.scale.None?
    ensures r.Err? ==> r.error == MissingScale
    ensures r.Ok? ==> r.value.root == k.root && r.value.intervals == k.scale.value.intervals
                      && r.value.inversion == 0
  {
    match k.scale
    case None => Err(MissingScale)
    case Some(s) => Ok(Chord(k.root, s.intervals, 0))
  }

  /** Going from a major or minor triad to its key and back gives the chord
      of the whole seven-degree scale, which is no longer a triad and so has
      no key of its own. */
  lemma TriadKeyChord(c: Chord)
    requires IsMajor(c) || IsMinor(c)
    ensures ChordOfKey(FromChord(c)).Ok?
    ensures var d := ChordOfKey(FromChord(c)).value;
            d.root == c.root && Size(d.intervals) == 7 && !IsMajor(d) && !IsMinor(d)
            && FromChord(d).scale.None?
  {
    MajorScale();
    MinorScale();
    var d := ChordOfKey(FromChord(c)).value;
    ScalePatternsAreLong();
    assert |d.intervals.pattern| != |"1 3 5"| && |d.intervals.pattern| != |"1 b3 5"|;
  }

  /** The seven-degree patterns are longer than any triad pattern. */
  lemma ScalePatternsAreLong()
    ensures |MAJOR.intervals.pattern| == 13 && |MINOR.intervals.pattern| == 16
  {
  }
}
