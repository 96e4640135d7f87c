/** The static side of `Chord`: the name -> intervals registry kept in a
    `TreeMap` whose comparator puts longer names first and breaks ties with
    `String.compareTo`, the human-readable aliases, and the reverse lookup
    `getChordType`. The process-wide maps become explicit values here. */
module ChordRegistry {
  import opened Results
  import opened Pitch
  import opened Degrees

  // ----------------------------------------------------- the name order

  /** `String.compareTo(a, b) < 0`: the first differing character decides, and
      a proper prefix comes first. */
  predicate LexLess(a: string, b: string) {
    if a == [] then b != []
    else if b == [] then false
    else if a[0] != b[0] then a[0] < b[0]
    else LexLess(a[1..], b[1..])
  }

  /** The registry comparator: a longer name comes first; names of equal
      length are in `compareTo` order. */
  predicate Before(a: string, b: string) {
    |a| > |b| || (|a| == |b| && LexLess(a, b))
  }

  lemma {:induction false} LexLessTotal(a: string, b: string)
    requires a != b
    ensures LexLess(a, b) || LexLess(b, a)
  {
    if a != [] && b != [] && a[0] == b[0] {
      assert a == [a[0]] + a[1..] && b == [b[0]] + b[1..];
      LexLessTotal(a[1..], b[1..]);
    }
  }

  lemma {:induction false} LexLessAsymmetric(a: string, b: string)
    ensures !(LexLess(a, b) && LexLess(b, a))
  {
    if a != [] && b != [] && a[0] == b[0] {
      LexLessAsymmetric(a[1..], b[1..]);
    }
  }

  lemma {:induction false} LexLessTransitive(a: string, b: string, c: string)
    requires LexLess(a, b) && LexLess(b, c)
    ensures LexLess(a, c)
  {
    if a != [] && a[0] == b[0] && b[0] == c[0] {
      LexLessTransitive(a[1..], b[1..], c[1..]);
    }
  }

  /** The comparator is a strict total order on names. */
  lemma BeforeIsStrictTotalOrder(a: string, b: string, c: string)
    ensures !Before(a, a)
    ensures a != b ==> Before(a, b) || Before(b, a)
    ensures !(Before(a, b) && Before(b, a))
    ensures Before(a, b) && Before(b, c) ==> Before(a, c)
  {
    LexLessAsymmetric(a, a);
    LexLessAsymmetric(a, b);
    if a != b && |a| == |b| {
      LexLessTotal(a, b);
    }
    if Before(a, b) && Before(b, c) && |a| == |b| == |c| {
      LexLessTransitive(a, b, c);
    }
  }

  // ------------------------------------------------------- the registry

  /** The entries of the `TreeMap` in iteration order. */
  type Registry = seq<(string, Intervals)>

  predicate Ordered(reg: Registry) {
    forall i, j :: 0 <= i < j < |reg| ==> Before(reg[i].0, reg[j].0)
  }

  function Keys(reg: Registry): set<string> {
    set i | 0 <= i < |reg| :: reg[i].0
  }

  lemma KeysOfCons(reg: Registry)
    requires reg != []
    ensures Keys(reg) == {reg[0].0} + Keys(reg[1..])
  {
    forall m | m in Keys(reg) ensures m in {reg[0].0} + Keys(reg[1..]) {
      var i :| 0 <= i < |reg| && reg[i].0 == m;
      if i > 0 {
        assert reg[1..][i - 1].0 == m;
      }
    }
    forall m | m in Keys(reg[1..]) ensures m in Keys(reg) {
      var i :| 0 <= i < |reg[1..]| && reg[1..][i].0 == m;
      assert reg[i + 1].0 == m;
    }
  }

  /** In an ordered registry the head's name is not repeated further on. */
  lemma HeadIsUnique(reg: Registry)
    requires reg != [] && Ordered(reg)
    ensures reg[0].0 !in Keys(reg[1..])
    ensures Ordered(reg[1..])
  {
    if reg[0].0 in Keys(reg[1..]) {
      var i :| 0 <= i < |reg[1..]| && reg[1..][i].0 == reg[0].0;
      assert Before(reg[0].0, reg[i + 1].0);
      BeforeIsStrictTotalOrder(reg[0].0, reg[0].0, reg[0].0);
      assert false;
    }
  }

  /** `chordMap.get(name)`: the intervals stored under `name`, or null. */
  function Get(reg: Registry, name: string): (r: Option<Intervals>)
    ensures r.Some? <==> name in Keys(reg)
    ensures r.Some? ==> (name, r.value) in reg
  {
    if reg == [] then None
    else
      KeysOfCons(reg);
      if reg[0].0 == name then Some(reg[0].1) else Get(reg[1..], name)
  }

  /** Every entry of an ordered registry is what `get` returns for its name. */
  lemma {:induction false} GetFindsEntry(reg: Registry, i: int)
    requires Ordered(reg) && 0 <= i < |reg|
    ensures Get(reg, reg[i].0) == Some(reg[i].1)
  {
    if i > 0 {
      assert Before(reg[0].0, reg[i].0);
      BeforeIsStrictTotalOrder(reg[0].0, reg[i].0, reg[i].0);
      HeadIsUnique(reg);
      assert reg[1..][i - 1] == reg[i];
      GetFindsEntry(reg[1..], i - 1);
    }
  }

  /** `chordMap.put(name, iv)` (`addChord`): the entry is replaced in place or
      inserted at its place in the order. */
  function Put(reg: Registry, name: string, iv: Intervals): (r: Registry)
    requires Ordered(reg)
    ensures Ordered(r)
    ensures Keys(r) == Keys(reg) + {name}
    ensures Get(r, name) == Some(iv)
    ensures forall m :: m != name ==> Get(r, m) == Get(reg, m)
  {
    if reg == [] then
      assert [(name, iv)][1..] == [];
      KeysOfCons([(name, iv)]);
      [(name, iv)]
    else if reg[0].0 == name then
      PutOverHead(reg, name, iv);
      [(name, iv)] + reg[1..]
    else if Before(name, reg[0].0) then
      PutBeforeHead(reg, name, iv);
      [(name, iv)] + reg
    else
      var rest := Put(reg[1..], name, iv);
      PutAfterHead(reg, name, iv, rest);
      [reg[0]] + rest
  }

  /** What `put` promises, as one predicate for the three cases below. */
  ghost predicate PutDone(reg: Registry, name: string, iv: Intervals, r: Registry) {
    Ordered(r) && Keys(r) == Keys(reg) + {name} && Get(r, name) == Some(iv)
    && forall m :: m != name ==> Get(r, m) == Get(reg, m)
  }

  lemma GetOfCons(e: (string, Intervals), rest: Registry, m: string)
    ensures Get([e] + rest, m) == if e.0 == m then Some(e.1) else Get(rest, m)
  {
    assert ([e] + rest)[1..] == rest;
  }

  lemma PutOverHead(reg: Registry, name: string, iv: Intervals)
    requires Ordered(reg) && reg != [] && reg[0].0 == name
    ensures PutDone(reg, name, iv, [(name, iv)] + reg[1..])
  {
    var r := [(name, iv)] + reg[1..];
    KeysOfCons(reg);
    HeadIsUnique(reg);
    assert r[1..] == reg[1..];
    KeysOfCons(r);
    forall j | 0 <= j < |reg[1..]| ensures Before(name, reg[1..][j].0) {
      assert reg[1..][j] == reg[j + 1];
    }
    PrependKeepsOrder(name, iv, reg[1..]);
    forall m | m != name ensures Get(r, m) == Get(reg, m) {
      GetOfCons((name, iv), reg[1..], m);
      GetOfCons(reg[0], reg[1..], m);
      assert reg == [reg[0]] + reg[1..];
    }
  }

  lemma PutBeforeHead(reg: Registry, name: string, iv: Intervals)
    requires Ordered(reg) && reg != [] && Before(name, reg[0].0)
    ensures PutDone(reg, name, iv, [(name, iv)] + reg)
  {
    var r := [(name, iv)] + reg;
    assert r[1..] == reg;
    KeysOfCons(r);
    forall j | 0 <= j < |reg| ensures Before(name, reg[j].0) {
      if j > 0 {
        BeforeIsStrictTotalOrder(name, reg[0].0, reg[j].0);
      }
    }
    PrependKeepsOrder(name, iv, reg);
    BeforeIsStrictTotalOrder(name, name, name);
    forall m | m != name ensures Get(r, m) == Get(reg, m) {
      GetOfCons((name, iv), reg, m);
    }
  }

  lemma PutAfterHead(reg: Registry, name: string, iv: Intervals, rest: Registry)
    requires Ordered(reg) && reg != [] && reg[0].0 != name && !Before(name, reg[0].0)
    requires PutDone(reg[1..], name, iv, rest)
    ensures PutDone(reg, name, iv, [reg[0]] + rest)
  {
    var head := reg[0].0;
    var r := [reg[0]] + rest;
    KeysOfCons(reg);
    HeadIsUnique(reg);
    BeforeIsStrictTotalOrder(name, head, head);
    assert r[1..] == rest;
    KeysOfCons(r);
    forall j | 0 <= j < |rest| ensures Before(head, rest[j].0) {
      assert rest[j].0 in Keys(rest);
      if rest[j].0 != name {
        var i :| 0 <= i < |reg[1..]| && reg[1..][i].0 == rest[j].0;
        assert Before(reg[0].0, reg[i + 1].0);
      }
    }
    PrependKeepsOrder(reg[0].0, reg[0].1, rest);
    GetOfCons(reg[0], rest, name);
    forall m | m != name ensures Get(r, m) == Get(reg, m) {
      GetOfCons(reg[0], rest, m);
      GetOfCons(reg[0], reg[1..], m);
      assert reg == [reg[0]] + reg[1..];
    }
  }

  /** An entry placed before every entry of an ordered registry keeps it ordered. */
  lemma PrependKeepsOrder(name: string, iv: Intervals, reg: Registry)
    requires Ordered(reg)
    requires forall j :: 0 <= j < |reg| ==> Before(name, reg[j].0)
    ensures Ordered([(name, iv)] + reg)
  {
    var r := [(name, iv)] + reg;
    forall i, j | 0 <= i < j < |r| ensures Before(r[i].0, r[j].0) {
      if i > 0 {
        assert r[i] == reg[i - 1] && r[j] == reg[j - 1];
      } else {
        assert r[j] == reg[j - 1];
      }
    }
  }

  /** `removeChord`: the entry under `name` goes; a missing name changes nothing. */
  function Remove(reg: Registry, name: string): (r: Registry)
    requires Ordered(reg)
    ensures Ordered(r)
    ensures Keys(r) == Keys(reg) - {name}
    ensures Get(r, name).None?
    ensures forall m :: m != name ==> Get(r, m) == Get(reg, m)
  {
    if reg == [] then []
    else
      KeysOfCons(reg);
      HeadIsUnique(reg);
      if reg[0].0 == name then reg[1..]
      else
        var rest := Remove(reg[1..], name);
        var r := [reg[0]] + rest;
        assert r[1..] == rest;
        KeysOfCons(r);
        forall j | 0 <= j < |rest| ensures Before(reg[0].0, rest[j].0) {
          assert rest[j].0 in Keys(rest);
          var i :| 0 <= i < |reg[1..]| && reg[1..][i].0 == rest[j].0;
          assert Before(reg[0].0, reg[i + 1].0);
        }
        PrependKeepsOrder(reg[0].0, reg[0].1, rest);
        r
  }

  /** `getChordNames`: the names in registry order. */
  function ChordNames(reg: Registry): (names: seq<string>)
    requires Ordered(reg)
    ensures |names| == |reg|
    ensures forall i, j :: 0 <= i < j < |names| ==> Before(names[i], names[j])
    ensures forall m :: m in names <==> Get(reg, m).Some?
  {
    var names := seq(|reg|, i requires 0 <= i < |reg| => reg[i].0);
    assert forall m :: m in names <==> m in Keys(reg) by {
      forall m | m in Keys(reg) ensures m in names {
        var i :| 0 <= i < |reg| && reg[i].0 == m;
        assert names[i] == m;
      }
    }
    names
  }

  // ------------------------------------------------------ reverse lookup

  /** `getChordType(Intervals)`: the first name, in registry order, whose
      intervals have the same pattern text; null when none has. */
  function ChordType(reg: Registry, iv: Intervals): (r: Option<string>)
    ensures r.None? <==> forall i :: 0 <= i < |reg| ==> !Equals(iv, reg[i].1)
    ensures r.Some? ==> exists i :: 0 <= i < |reg| && reg[i].0 == r.value && Equals(iv, reg[i].1)
                          && forall j :: 0 <= j < i ==> !Equals(iv, reg[j].1)
  {
    if reg == [] then None
    else if Equals(iv, reg[0].1) then Some(reg[0].0)
    else
      var r := ChordType(reg[1..], iv);
      assert forall i :: 0 < i < |reg| ==> reg[1..][i - 1] == reg[i];
      if r.Some? then
        var i :| 0 <= i < |reg[1..]| && reg[1..][i].0 == r.value && Equals(iv, reg[1..][i].1)
                 && forall j :: 0 <= j < i ==> !Equals(iv, reg[1..][j].1);
        assert reg[i + 1].0 == r.value && Equals(iv, reg[i + 1].1);
        r
      else r
  }

  /** The name `getChordType` answers is registered with a matching pattern,
      and comes before every other name registered with one. */
  lemma ChordTypeIsFirstInOrder(reg: Registry, iv: Intervals)
    requires Ordered(reg) && ChordType(reg, iv).Some?
    ensures var n := ChordType(reg, iv).value;
      Get(reg, n).Some? && Equals(iv, Get(reg, n).value)
      && forall m :: m != n && Get(reg, m).Some? && Equals(iv, Get(reg, m).value) ==> Before(n, m)
  {
    var n := ChordType(reg, iv).value;
    var i :| 0 <= i < |reg| && reg[i].0 == n && Equals(iv, reg[i].1)
             && forall j :: 0 <= j < i ==> !Equals(iv, reg[j].1);
    GetFindsEntry(reg, i);
    forall m | m != n && Get(reg, m).Some? && Equals(iv, Get(reg, m).value) ensures Before(n, m) {
      var k :| 0 <= k < |reg| && reg[k].0 == m;
      GetFindsEntry(reg, k);
      if k < i {
        assert false;
      }
      assert k != i;
    }
  }

  // ------------------------------------------------------ the built-ins

  /* The chords registered by the static initialiser, in registry order, in
     blocks that keep each proof about them small. */
  const LONGEST_NAMES: Registry := [
    ("DOM7%6%11", Intervals("1 3 5 b7 9 11 13", None)),
    ("DOM7%6SUS", Intervals("1 4 5 6 b7", None)),
    ("DOM13SUS",  Intervals("1 3 5 b7 11 13", None))]

  const SEVEN_LETTER_NAMES: Registry := [
    ("DOM7%11", Intervals("1 3 5 b7 11", None)),
    ("DOM7SUS", Intervals("1 4 5 b7", None)),
    ("MIN7%11", Intervals("1 b3 5 b7 11", None)),
    ("MINADD9", Intervals("1 b3 5 9", None)),
    ("MINMAJ7", Intervals("1 b3 5 7", None)),
    ("MINMAJ9", Intervals("1 b3 5 7 9", None))]

  const SIX_LETTER_NAMES: Registry := [
    ("DOM7%6", Intervals("1 3 5 6 b7", None)),
    ("MAJ6%9", Intervals("1 3 5 6 9", None)),
    ("MAJ7%6", Intervals("1 3 5 6 7", None)),
    ("MIN6%9", Intervals("1 b3 5 6", None))]

  const FIVE_LETTER_NAMES: Registry := [
    ("DOM11", Intervals("1 3 5 b7 9 11", None)),
    ("DOM13", Intervals("1 3 5 b7 9 13", None)),
    ("MAJ13", Intervals("1 3 5 7 9 13", None)),
    ("MIN11", Intervals("1 b3 5 b7 9 11", None))]

  const FOUR_LETTER_NAMES_A: Registry := [
    ("ADD2", Intervals("1 2 3 5", None)),
    ("ADD4", Intervals("1 3 4 5", None)),
    ("ADD9", Intervals("1 3 5 9", None)),
    ("AUG7", Intervals("1 3 b6 b7", None)),
    ("DIM7", Intervals("1 b3 b5 6", None))]

  const FOUR_LETTER_NAMES_D: Registry := [
    ("DOM7", Intervals("1 3 5 b7", None)),
    ("DOM9", Intervals("1 3 5 b7 9", None)),
    ("MAJ6", Intervals("1 3 5 6", None)),
    ("MAJ7", Intervals("1 3 5 7", None)),
    ("MAJ9", Intervals("1 3 5 7 9", None))]

  const FOUR_LETTER_NAMES_M: Registry := [
    ("MIN6", Intervals("1 b3 5 6", None)),
    ("MIN7", Intervals("1 b3 5 b7", None)),
    ("MIN9", Intervals("1 b3 5 b7 9", None)),
    ("SUS2", Intervals("1 2 5", None)),
    ("SUS4", Intervals("1 4 5", None))]

  const THREE_LETTER_NAMES: Registry := [
    ("AUG", Intervals("1 3 b6", None)),
    ("DIM", Intervals("1 b3 b5", None)),
    ("MAJ", Intervals("1 3 5", None)),
    ("MIN", Intervals("1 b3 5", None))]

  const BUILT_IN: Registry :=
    LONGEST_NAMES + SEVEN_LETTER_NAMES + SIX_LETTER_NAMES + FIVE_LETTER_NAMES
    + FOUR_LETTER_NAMES_A + FOUR_LETTER_NAMES_D + FOUR_LETTER_NAMES_M + THREE_LETTER_NAMES

  /** The six-letter block with "MIN6%9" given the minor 6/9 voicing, the
      pattern its name and its major twin "MAJ6%9" ("1 3 5 6 9") call for;
      the other three entries are those of `SIX_LETTER_NAMES`. */
  const CORRECTED_SIX_LETTER_NAMES: Registry := [
    ("DOM7%6", Intervals("1 3 5 6 b7", None)),
    ("MAJ6%9", Intervals("1 3 5 6 9", None)),
    ("MAJ7%6", Intervals("1 3 5 6 7", None)),
    ("MIN6%9", Intervals("1 b3 5 6 9", None))]

  /** The built-ins with the "MIN6%9" entry corrected. */
  const CORRECTED_BUILT_IN: Registry :=
    LONGEST_NAMES + SEVEN_LETTER_NAMES + CORRECTED_SIX_LETTER_NAMES + FIVE_LETTER_NAMES
    + FOUR_LETTER_NAMES_A + FOUR_LETTER_NAMES_D + FOUR_LETTER_NAMES_M + THREE_LETTER_NAMES

  /** Neighbour-wise order is enough, the comparator being transitive. */
  lemma {:induction false} OrderedByNeighbours(reg: Registry)
    requires forall i :: 0 <= i < |reg| - 1 ==> Before(reg[i].0, reg[i + 1].0)
    ensures Ordered(reg)
  {
    if |reg| > 1 {
      OrderedByNeighbours(reg[1..]);
      forall i, j | 0 <= i < j < |reg| ensures Before(reg[i].0, reg[j].0) {
        if i > 0 {
          assert reg[1..][i - 1] == reg[i] && reg[1..][j - 1] == reg[j];
        } else {
          var k := 1;
          while k < j
            invariant 1 <= k <= j && Before(reg[0].0, reg[k].0)
          {
            BeforeIsStrictTotalOrder(reg[0].0, reg[k].0, reg[k + 1].0);
            k := k + 1;
          }
        }
      }
    }
  }

  /** Two ordered registries joined end to end stay ordered when the last name
      of the first comes before the first name of the second. */
  lemma OrderedConcat(a: Registry, b: Registry)
    requires Ordered(a) && Ordered(b)
    requires a != [] && b != [] ==> Before(a[|a| - 1].0, b[0].0)
    ensures Ordered(a + b)
  {
    var r := a + b;
    forall i, j | 0 <= i < j < |r| ensures Before(r[i].0, r[j].0) {
      if i < |a| <= j {
        var x, y, z, w := a[i].0, a[|a| - 1].0, b[0].0, b[j - |a|].0;
        if i < |a| - 1 {
          BeforeIsStrictTotalOrder(x, y, z);
        }
        if j > |a| {
          BeforeIsStrictTotalOrder(x, z, w);
        }
      }
    }
  }

  /** Two names agreeing on their first `k` characters and differing at the
      next are in the order of that character. */
  lemma {:induction false} LexLessAt(a: string, b: string, k: nat)
    requires k < |a| && k < |b| && a[..k] == b[..k] && a[k] < b[k]
    ensures LexLess(a, b)
  {
    if k > 0 {
      assert a[0] == a[..k][0] == b[..k][0] == b[0];
      assert a[1..][..k - 1] == a[..k][1..] && b[1..][..k - 1] == b[..k][1..];
      LexLessAt(a[1..], b[1..], k - 1);
    }
  }

  lemma OrderedLongestNames()
    ensures Ordered(LONGEST_NAMES)
  {
    forall i | 0 <= i < |LONGEST_NAMES| - 1 ensures Before(LONGEST_NAMES[i].0, LONGEST_NAMES[i + 1].0) {
      if i == 0 {
        LexLessAt("DOM7%6%11", "DOM7%6SUS", 6);
      }
    }
    OrderedByNeighbours(LONGEST_NAMES);
  }

  lemma OrderedSevenLetterNames()
    ensures Ordered(SEVEN_LETTER_NAMES)
  {
    forall i | 0 <= i < |SEVEN_LETTER_NAMES| - 1 ensures Before(SEVEN_LETTER_NAMES[i].0, SEVEN_LETTER_NAMES[i + 1].0) {
      if i == 0 {
        LexLessAt("DOM7%11", "DOM7SUS", 4);
      } else if i == 1 {
        LexLessAt("DOM7SUS", "MIN7%11", 0);
      } else if i == 2 {
        LexLessAt("MIN7%11", "MINADD9", 3);
      } else if i == 3 {
        LexLessAt("MINADD9", "MINMAJ7", 3);
      } else if i == 4 {
        LexLessAt("MINMAJ7", "MINMAJ9", 6);
      }
    }
    OrderedByNeighbours(SEVEN_LETTER_NAMES);
  }

  lemma OrderedSixLetterNames()
    ensures Ordered(SIX_LETTER_NAMES)
  {
    forall i | 0 <= i < |SIX_LETTER_NAMES| - 1 ensures Before(SIX_LETTER_NAMES[i].0, SIX_LETTER_NAMES[i + 1].0) {
      if i == 0 {
        LexLessAt("DOM7%6", "MAJ6%9", 0);
      } else if i == 1 {
        LexLessAt("MAJ6%9", "MAJ7%6", 3);
      } else if i == 2 {
        LexLessAt("MAJ7%6", "MIN6%9", 1);
      }
    }
    OrderedByNeighbours(SIX_LETTER_NAMES);
  }

  lemma OrderedFiveLetterNames()
    ensures Ordered(FIVE_LETTER_NAMES)
  {
    forall i | 0 <= i < |FIVE_LETTER_NAMES| - 1 ensures Before(FIVE_LETTER_NAMES[i].0, FIVE_LETTER_NAMES[i + 1].0) {
      if i == 0 {
        LexLessAt("DOM11", "DOM13", 4);
      } else if i == 1 {
        LexLessAt("DOM13", "MAJ13", 0);
      } else if i == 2 {
        LexLessAt("MAJ13", "MIN11", 1);
      }
    }
    OrderedByNeighbours(FIVE_LETTER_NAMES);
  }

  lemma OrderedFourLetterNamesA()
    ensures Ordered(FOUR_LETTER_NAMES_A)
  {
    forall i | 0 <= i < |FOUR_LETTER_NAMES_A| - 1 ensures Before(FOUR_LETTER_NAMES_A[i].0, FOUR_LETTER_NAMES_A[i + 1].0) {
      if i == 0 {
        LexLessAt("ADD2", "ADD4", 3);
      } else if i == 1 {
        LexLessAt("ADD4", "ADD9", 3);
      } else if i == 2 {
        LexLessAt("ADD9", "AUG7", 1);
      } else if i == 3 {
        LexLessAt("AUG7", "DIM7", 0);
      }
    }
    OrderedByNeighbours(FOUR_LETTER_NAMES_A);
  }

  lemma OrderedFourLetterNamesD()
    ensures Ordered(FOUR_LETTER_NAMES_D)
  {
    forall i | 0 <= i < |FOUR_LETTER_NAMES_D| - 1 ensures Before(FOUR_LETTER_NAMES_D[i].0, FOUR_LETTER_NAMES_D[i + 1].0) {
      if i == 0 {
        LexLessAt("DOM7", "DOM9", 3);
      } else if i == 1 {
        LexLessAt("DOM9", "MAJ6", 0);
      } else if i == 2 {
        LexLessAt("MAJ6", "MAJ7", 3);
      } else if i == 3 {
        LexLessAt("MAJ7", "MAJ9", 3);
      }
    }
    OrderedByNeighbours(FOUR_LETTER_NAMES_D);
  }

  lemma OrderedFourLetterNamesM()
    ensures Ordered(FOUR_LETTER_NAMES_M)
  {
    forall i | 0 <= i < |FOUR_LETTER_NAMES_M| - 1 ensures Before(FOUR_LETTER_NAMES_M[i].0, FOUR_LETTER_NAMES_M[i + 1].0) {
      if i == 0 {
        LexLessAt("MIN6", "MIN7", 3);
      } else if i == 1 {
        LexLessAt("MIN7", "MIN9", 3);
      } else if i == 2 {
        LexLessAt("MIN9", "SUS2", 0);
      } else if i == 3 {
        LexLessAt("SUS2", "SUS4", 3);
      }
    }
    OrderedByNeighbours(FOUR_LETTER_NAMES_M);
  }

  lemma OrderedThreeLetterNames()
    ensures Ordered(THREE_LETTER_NAMES)
  {
    forall i | 0 <= i < |THREE_LETTER_NAMES| - 1 ensures Before(THREE_LETTER_NAMES[i].0, THREE_LETTER_NAMES[i + 1].0) {
      if i == 0 {
        LexLessAt("AUG", "DIM", 0);
      } else if i == 1 {
        LexLessAt("DIM", "MAJ", 0);
      } else if i == 2 {
        LexLessAt("MAJ", "MIN", 1);
      }
    }
    OrderedByNeighbours(THREE_LETTER_NAMES);
  }

  /** The built-in table is in registry order. */
  lemma BuiltInIsOrdered()
    ensures Ordered(BUILT_IN)
  {
    OrderedLongestNames();
    OrderedSevenLetterNames();
    OrderedSixLetterNames();
    OrderedFiveLetterNames();
    OrderedFourLetterNamesA();
    OrderedFourLetterNamesD();
    OrderedFourLetterNamesM();
    OrderedThreeLetterNames();
    OrderedConcat(LONGEST_NAMES, SEVEN_LETTER_NAMES);
    OrderedConcat(LONGEST_NAMES + SEVEN_LETTER_NAMES, SIX_LETTER_NAMES);
    OrderedConcat(LONGEST_NAMES + SEVEN_LETTER_NAMES + SIX_LETTER_NAMES, FIVE_LETTER_NAMES);
    OrderedConcat(LONGEST_NAMES + SEVEN_LETTER_NAMES + SIX_LETTER_NAMES + FIVE_LETTER_NAMES, FOUR_LETTER_NAMES_A);
    LexLessAt("DIM7", "DOM7", 1);
    OrderedConcat(LONGEST_NAMES + SEVEN_LETTER_NAMES + SIX_LETTER_NAMES + FIVE_LETTER_NAMES + FOUR_LETTER_NAMES_A, FOUR_LETTER_NAMES_D);
    LexLessAt("MAJ9", "MIN6", 1);
    OrderedConcat(LONGEST_NAMES + SEVEN_LETTER_NAMES + SIX_LETTER_NAMES + FIVE_LETTER_NAMES + FOUR_LETTER_NAMES_A + FOUR_LETTER_NAMES_D, FOUR_LETTER_NAMES_M);
    OrderedConcat(LONGEST_NAMES + SEVEN_LETTER_NAMES + SIX_LETTER_NAMES + FIVE_LETTER_NAMES + FOUR_LETTER_NAMES_A + FOUR_LETTER_NAMES_D + FOUR_LETTER_NAMES_M, THREE_LETTER_NAMES);
  }
  /** The corrected table is in registry order too: only a pattern changed. */
  lemma CorrectedBuiltInIsOrdered()
    ensures Ordered(CORRECTED_BUILT_IN)
  {
    BuiltInIsOrdered();
    assert forall i :: 0 <= i < |BUILT_IN| ==> CORRECTED_BUILT_IN[i].0 == BUILT_IN[i].0;
  }

  /** The reverse lookup over two blocks: the first block is searched first. */
  lemma {:induction false} ChordTypeOfConcat(a: Registry, b: Registry, iv: Intervals)
    ensures ChordType(a + b, iv) == if ChordType(a, iv).Some? then ChordType(a, iv) else ChordType(b, iv)
  {
    if a != [] {
      assert (a + b)[0] == a[0] && (a + b)[1..] == a[1..] + b;
      ChordTypeOfConcat(a[1..], b, iv);
    } else {
      assert a + b == b;
    }
  }

  /** In an ordered registry a name occurs once. */
  lemma NamesAreDistinct(reg: Registry, i: int, j: int)
    requires Ordered(reg) && 0 <= i < |reg| && 0 <= j < |reg| && reg[i].0 == reg[j].0
    ensures i == j
  {
    BeforeIsStrictTotalOrder(reg[i].0, reg[i].0, reg[i].0);
  }

  /** The entry a lookup stops at: the first whose pattern matches. */
  lemma ChordTypeAt(reg: Registry, iv: Intervals, i: int)
    requires 0 <= i < |reg| && Equals(iv, reg[i].1)
    requires forall j :: 0 <= j < i ==> !Equals(iv, reg[j].1)
    ensures ChordType(reg, iv) == Some(reg[i].0)
  {
  }

  /** A name absent from a registry is never the answer of its lookup. */
  lemma AbsentNameIsNotAnswered(reg: Registry, iv: Intervals, name: string)
    requires name !in Keys(reg)
    ensures ChordType(reg, iv) != Some(name)
  {
  }

  /** The blocks of the table, looked up with the pattern "1 b3 5 6". */
  lemma Min6PatternInBlocks(iv: Intervals)
    requires iv.pattern == "1 b3 5 6"
    ensures ChordType(LONGEST_NAMES, iv).None? && ChordType(SEVEN_LETTER_NAMES, iv).None?
    ensures ChordType(SIX_LETTER_NAMES, iv) == Some("MIN6%9")
    ensures ChordType(CORRECTED_SIX_LETTER_NAMES, iv).None?
    ensures ChordType(FIVE_LETTER_NAMES, iv).None? && ChordType(FOUR_LETTER_NAMES_A, iv).None?
    ensures ChordType(FOUR_LETTER_NAMES_D, iv).None?
    ensures ChordType(FOUR_LETTER_NAMES_M, iv) == Some("MIN6")
  {
    Min6PatternMissesLongNames(iv);
    Min6PatternFindsMin69(iv);
    Min6PatternMissesCorrectedSix(iv);
    Min6PatternMissesShortNames(iv);
    Min6PatternFindsMin6(iv);
  }

  lemma Min6PatternMissesLongNames(iv: Intervals)
    requires iv.pattern == "1 b3 5 6"
    ensures ChordType(LONGEST_NAMES, iv).None? && ChordType(SEVEN_LETTER_NAMES, iv).None?
  {
    Min6PatternMissesLongest(iv);
    Min6PatternMissesSevenLetter(iv);
  }

  lemma Min6PatternMissesLongest(iv: Intervals)
    requires iv.pattern == "1 b3 5 6"
    ensures ChordType(LONGEST_NAMES, iv).None?
  {
  }

  lemma Min6PatternMissesSevenLetter(iv: Intervals)
    requires iv.pattern == "1 b3 5 6"
    ensures ChordType(SEVEN_LETTER_NAMES, iv).None?
  {
  }

  lemma Min6PatternFindsMin69(iv: Intervals)
    requires iv.pattern == "1 b3 5 6"
    ensures ChordType(SIX_LETTER_NAMES, iv) == Some("MIN6%9")
  {
    assert SIX_LETTER_NAMES[3].0 == "MIN6%9";
    ChordTypeAt(SIX_LETTER_NAMES, iv, 3);
  }

  lemma Min6PatternMissesCorrectedSix(iv: Intervals)
    requires iv.pattern == "1 b3 5 6"
    ensures ChordType(CORRECTED_SIX_LETTER_NAMES, iv).None?
  {
  }

  lemma Min6PatternMissesShortNames(iv: Intervals)
    requires iv.pattern == "1 b3 5 6"
    ensures ChordType(FIVE_LETTER_NAMES, iv).None? && ChordType(FOUR_LETTER_NAMES_A, iv).None?
    ensures ChordType(FOUR_LETTER_NAMES_D, iv).None?
  {
    Min6PatternMissesFiveLetter(iv);
    Min6PatternMissesFourLetterA(iv);
    Min6PatternMissesFourLetterD(iv);
  }

  lemma Min6PatternMissesFiveLetter(iv: Intervals)
    requires iv.pattern == "1 b3 5 6"
    ensures ChordType(FIVE_LETTER_NAMES, iv).None?
  {
  }

  lemma Min6PatternMissesFourLetterA(iv: Intervals)
    requires iv.pattern == "1 b3 5 6"
    ensures ChordType(FOUR_LETTER_NAMES_A, iv).None?
  {
  }

  lemma Min6PatternMissesFourLetterD(iv: Intervals)
    requires iv.pattern == "1 b3 5 6"
    ensures ChordType(FOUR_LETTER_NAMES_D, iv).None?
  {
  }

  lemma Min6PatternFindsMin6(iv: Intervals)
    requires iv.pattern == "1 b3 5 6"
    ensures ChordType(FOUR_LETTER_NAMES_M, iv) == Some("MIN6")
  {
    ChordTypeAt(FOUR_LETTER_NAMES_M, iv, 0);
  }

  /** "MIN6" is registered in one block only, at its head. */
  lemma Min6NameInBlocks()
    ensures "MIN6" !in Keys(LONGEST_NAMES) && "MIN6" !in Keys(SEVEN_LETTER_NAMES)
    ensures "MIN6" !in Keys(SIX_LETTER_NAMES) && "MIN6" !in Keys(FIVE_LETTER_NAMES)
    ensures "MIN6" !in Keys(FOUR_LETTER_NAMES_A) && "MIN6" !in Keys(FOUR_LETTER_NAMES_D)
    ensures "MIN6" !in Keys(FOUR_LETTER_NAMES_M[1..]) && "MIN6" !in Keys(THREE_LETTER_NAMES)
    ensures FOUR_LETTER_NAMES_M[0] == ("MIN6", Intervals("1 b3 5 6", None))
  {
  }

  /** As registered, "MIN6%9" and "MIN6" share the pattern "1 b3 5 6"; the longer
      name comes first, so the reverse lookup answers "MIN6%9" and never "MIN6". */
  lemma Min6IsShadowed(root: Option<Note>)
    ensures ChordType(BUILT_IN, Intervals("1 b3 5 6", root)) == Some("MIN6%9")
    ensures forall iv :: ChordType(BUILT_IN, iv) != Some("MIN6")
  {
    Min6Lookup(Intervals("1 b3 5 6", root));
    forall iv ensures ChordType(BUILT_IN, iv) != Some("MIN6") {
      if iv.pattern == "1 b3 5 6" {
        Min6Lookup(iv);
      } else {
        Min6NeverAnswered(iv);
      }
    }
  }

  lemma Min6Lookup(iv: Intervals)
    requires iv.pattern == "1 b3 5 6"
    ensures ChordType(BUILT_IN, iv) == Some("MIN6%9")
  {
    Min6PatternInBlocks(iv);
    ChordTypeOfConcat(LONGEST_NAMES, SEVEN_LETTER_NAMES, iv);
    ChordTypeOfConcat(LONGEST_NAMES + SEVEN_LETTER_NAMES, SIX_LETTER_NAMES, iv);
    ChordTypeOfConcat(LONGEST_NAMES + SEVEN_LETTER_NAMES + SIX_LETTER_NAMES, FIVE_LETTER_NAMES, iv);
    ChordTypeOfConcat(LONGEST_NAMES + SEVEN_LETTER_NAMES + SIX_LETTER_NAMES + FIVE_LETTER_NAMES, FOUR_LETTER_NAMES_A, iv);
    ChordTypeOfConcat(LONGEST_NAMES + SEVEN_LETTER_NAMES + SIX_LETTER_NAMES + FIVE_LETTER_NAMES + FOUR_LETTER_NAMES_A, FOUR_LETTER_NAMES_D, iv);
    ChordTypeOfConcat(LONGEST_NAMES + SEVEN_LETTER_NAMES + SIX_LETTER_NAMES + FIVE_LETTER_NAMES + FOUR_LETTER_NAMES_A + FOUR_LETTER_NAMES_D, FOUR_LETTER_NAMES_M, iv);
    ChordTypeOfConcat(LONGEST_NAMES + SEVEN_LETTER_NAMES + SIX_LETTER_NAMES + FIVE_LETTER_NAMES + FOUR_LETTER_NAMES_A + FOUR_LETTER_NAMES_D + FOUR_LETTER_NAMES_M, THREE_LETTER_NAMES, iv);
  }

  /** Another pattern does not match the "MIN6" entry, and no other entry is named so. */
  lemma Min6NeverAnswered(iv: Intervals)
    requires iv.pattern != "1 b3 5 6"
    ensures ChordType(BUILT_IN, iv) != Some("MIN6")
  {
    Min6NameInBlocks();
    var m := FOUR_LETTER_NAMES_M;
    assert m == [m[0]] + m[1..];
    ChordTypeOfConcat([m[0]], m[1..], iv);
    AbsentNameIsNotAnswered(LONGEST_NAMES, iv, "MIN6");
    AbsentNameIsNotAnswered(SEVEN_LETTER_NAMES, iv, "MIN6");
    AbsentNameIsNotAnswered(SIX_LETTER_NAMES, iv, "MIN6");
    AbsentNameIsNotAnswered(FIVE_LETTER_NAMES, iv, "MIN6");
    AbsentNameIsNotAnswered(FOUR_LETTER_NAMES_A, iv, "MIN6");
    AbsentNameIsNotAnswered(FOUR_LETTER_NAMES_D, iv, "MIN6");
    AbsentNameIsNotAnswered(THREE_LETTER_NAMES, iv, "MIN6");
    AbsentNameIsNotAnswered(m[1..], iv, "MIN6");
    ChordTypeOfConcat(LONGEST_NAMES, SEVEN_LETTER_NAMES, iv);
    ChordTypeOfConcat(LONGEST_NAMES + SEVEN_LETTER_NAMES, SIX_LETTER_NAMES, iv);
    ChordTypeOfConcat(LONGEST_NAMES + SEVEN_LETTER_NAMES + SIX_LETTER_NAMES, FIVE_LETTER_NAMES, iv);
    ChordTypeOfConcat(LONGEST_NAMES + SEVEN_LETTER_NAMES + SIX_LETTER_NAMES + FIVE_LETTER_NAMES, FOUR_LETTER_NAMES_A, iv);
    ChordTypeOfConcat(LONGEST_NAMES + SEVEN_LETTER_NAMES + SIX_LETTER_NAMES + FIVE_LETTER_NAMES + FOUR_LETTER_NAMES_A, FOUR_LETTER_NAMES_D, iv);
    ChordTypeOfConcat(LONGEST_NAMES + SEVEN_LETTER_NAMES + SIX_LETTER_NAMES + FIVE_LETTER_NAMES + FOUR_LETTER_NAMES_A + FOUR_LETTER_NAMES_D, FOUR_LETTER_NAMES_M, iv);
    ChordTypeOfConcat(LONGEST_NAMES + SEVEN_LETTER_NAMES + SIX_LETTER_NAMES + FIVE_LETTER_NAMES + FOUR_LETTER_NAMES_A + FOUR_LETTER_NAMES_D + FOUR_LETTER_NAMES_M, THREE_LETTER_NAMES, iv);
  }

  /** With the corrected entry, "1 b3 5 6" is read as "MIN6" and the minor 6/9
      voicing as "MIN6%9". */
  lemma CorrectedMin6IsFound(root: Option<Note>)
    ensures ChordType(CORRECTED_BUILT_IN, Intervals("1 b3 5 6", root)) == Some("MIN6")
    ensures ChordType(CORRECTED_BUILT_IN, Intervals("1 b3 5 6 9", root)) == Some("MIN6%9")
  {
    var iv := Intervals("1 b3 5 6", root);
    Min6PatternInBlocks(iv);
    ChordTypeOfConcat(LONGEST_NAMES, SEVEN_LETTER_NAMES, iv);
    ChordTypeOfConcat(LONGEST_NAMES + SEVEN_LETTER_NAMES, CORRECTED_SIX_LETTER_NAMES, iv);
    ChordTypeOfConcat(LONGEST_NAMES + SEVEN_LETTER_NAMES + CORRECTED_SIX_LETTER_NAMES, FIVE_LETTER_NAMES, iv);
    ChordTypeOfConcat(LONGEST_NAMES + SEVEN_LETTER_NAMES + CORRECTED_SIX_LETTER_NAMES + FIVE_LETTER_NAMES, FOUR_LETTER_NAMES_A, iv);
    ChordTypeOfConcat(LONGEST_NAMES + SEVEN_LETTER_NAMES + CORRECTED_SIX_LETTER_NAMES + FIVE_LETTER_NAMES + FOUR_LETTER_NAMES_A, FOUR_LETTER_NAMES_D, iv);
    ChordTypeOfConcat(LONGEST_NAMES + SEVEN_LETTER_NAMES + CORRECTED_SIX_LETTER_NAMES + FIVE_LETTER_NAMES + FOUR_LETTER_NAMES_A + FOUR_LETTER_NAMES_D, FOUR_LETTER_NAMES_M, iv);
    ChordTypeOfConcat(LONGEST_NAMES + SEVEN_LETTER_NAMES + CORRECTED_SIX_LETTER_NAMES + FIVE_LETTER_NAMES + FOUR_LETTER_NAMES_A + FOUR_LETTER_NAMES_D + FOUR_LETTER_NAMES_M, THREE_LETTER_NAMES, iv);
    var iv9 := Intervals("1 b3 5 6 9", root);
    Min69PatternInBlocks(iv9);
    ChordTypeOfConcat(LONGEST_NAMES, SEVEN_LETTER_NAMES, iv9);
    ChordTypeOfConcat(LONGEST_NAMES + SEVEN_LETTER_NAMES, CORRECTED_SIX_LETTER_NAMES, iv9);
    ChordTypeOfConcat(LONGEST_NAMES + SEVEN_LETTER_NAMES + CORRECTED_SIX_LETTER_NAMES, FIVE_LETTER_NAMES, iv9);
    ChordTypeOfConcat(LONGEST_NAMES + SEVEN_LETTER_NAMES + CORRECTED_SIX_LETTER_NAMES + FIVE_LETTER_NAMES, FOUR_LETTER_NAMES_A, iv9);
    ChordTypeOfConcat(LONGEST_NAMES + SEVEN_LETTER_NAMES + CORRECTED_SIX_LETTER_NAMES + FIVE_LETTER_NAMES + FOUR_LETTER_NAMES_A, FOUR_LETTER_NAMES_D, iv9);
    ChordTypeOfConcat(LONGEST_NAMES + SEVEN_LETTER_NAMES + CORRECTED_SIX_LETTER_NAMES + FIVE_LETTER_NAMES + FOUR_LETTER_NAMES_A + FOUR_LETTER_NAMES_D, FOUR_LETTER_NAMES_M, iv9);
    ChordTypeOfConcat(LONGEST_NAMES + SEVEN_LETTER_NAMES + CORRECTED_SIX_LETTER_NAMES + FIVE_LETTER_NAMES + FOUR_LETTER_NAMES_A + FOUR_LETTER_NAMES_D + FOUR_LETTER_NAMES_M, THREE_LETTER_NAMES, iv9);
  }

  /** The blocks of the corrected table, looked up with "1 b3 5 6 9". */
  lemma Min69PatternInBlocks(iv: Intervals)
    requires iv.pattern == "1 b3 5 6 9"
    ensures ChordType(LONGEST_NAMES, iv).None? && ChordType(SEVEN_LETTER_NAMES, iv).None?
    ensures ChordType(CORRECTED_SIX_LETTER_NAMES, iv) == Some("MIN6%9")
  {
    Min69PatternMissesLongNames(iv);
    Min69PatternFindsMin69(iv);
  }

  lemma Min69PatternMissesLongNames(iv: Intervals)
    requires iv.pattern == "1 b3 5 6 9"
    ensures ChordType(LONGEST_NAMES, iv).None? && ChordType(SEVEN_LETTER_NAMES, iv).None?
  {
    Min69PatternMissesLongest(iv);
    Min69PatternMissesSevenLetter(iv);
  }

  lemma Min69PatternMissesLongest(iv: Intervals)
    requires iv.pattern == "1 b3 5 6 9"
    ensures ChordType(LONGEST_NAMES, iv).None?
  {
  }

  lemma Min69PatternMissesSevenLetter(iv: Intervals)
    requires iv.pattern == "1 b3 5 6 9"
    ensures ChordType(SEVEN_LETTER_NAMES, iv).None?
  {
  }

  lemma Min69PatternFindsMin69(iv: Intervals)
    requires iv.pattern == "1 b3 5 6 9"
    ensures ChordType(CORRECTED_SIX_LETTER_NAMES, iv) == Some("MIN6%9")
  {
    assert CORRECTED_SIX_LETTER_NAMES[3].0 == "MIN6%9";
    ChordTypeAt(CORRECTED_SIX_LETTER_NAMES, iv, 3);
  }

  /** The major triad pattern "1 3 5" is answered "MAJ": no longer name
      shares it, and no other three-letter name before it. */
  lemma MajorTriadLookup(iv: Intervals)
    requires iv.pattern == "1 3 5"
    ensures ChordType(BUILT_IN, iv) == Some("MAJ")
  {
    MajorPatternMissesLongNames(iv);
    MajorPatternMissesShortNames(iv);
    MajorPatternFindsMaj(iv);
    ChordTypeOfConcat(LONGEST_NAMES, SEVEN_LETTER_NAMES, iv);
    ChordTypeOfConcat(LONGEST_NAMES + SEVEN_LETTER_NAMES, SIX_LETTER_NAMES, iv);
    ChordTypeOfConcat(LONGEST_NAMES + SEVEN_LETTER_NAMES + SIX_LETTER_NAMES, FIVE_LETTER_NAMES, iv);
    ChordTypeOfConcat(LONGEST_NAMES + SEVEN_LETTER_NAMES + SIX_LETTER_NAMES + FIVE_LETTER_NAMES, FOUR_LETTER_NAMES_A, iv);
    ChordTypeOfConcat(LONGEST_NAMES + SEVEN_LETTER_NAMES + SIX_LETTER_NAMES + FIVE_LETTER_NAMES + FOUR_LETTER_NAMES_A, FOUR_LETTER_NAMES_D, iv);
    ChordTypeOfConcat(LONGEST_NAMES + SEVEN_LETTER_NAMES + SIX_LETTER_NAMES + FIVE_LETTER_NAMES + FOUR_LETTER_NAMES_A + FOUR_LETTER_NAMES_D, FOUR_LETTER_NAMES_M, iv);
    ChordTypeOfConcat(LONGEST_NAMES + SEVEN_LETTER_NAMES + SIX_LETTER_NAMES + FIVE_LETTER_NAMES + FOUR_LETTER_NAMES_A + FOUR_LETTER_NAMES_D + FOUR_LETTER_NAMES_M, THREE_LETTER_NAMES, iv);
  }

  lemma MajorPatternMissesLongNames(iv: Intervals)
    requires iv.pattern == "1 3 5"
    ensures ChordType(LONGEST_NAMES, iv).None? && ChordType(SEVEN_LETTER_NAMES, iv).None?
    ensures ChordType(SIX_LETTER_NAMES, iv).None? && ChordType(FIVE_LETTER_NAMES, iv).None?
  {
    MajorPatternMissesLongest(iv);
    MajorPatternMissesSevenLetter(iv);
    MajorPatternMissesSixLetter(iv);
    MajorPatternMissesFiveLetter(iv);
  }

  lemma MajorPatternMissesLongest(iv: Intervals)
    requires iv.pattern == "1 3 5"
    ensures ChordType(LONGEST_NAMES, iv).None?
  {
  }

  lemma MajorPatternMissesSevenLetter(iv: Intervals)
    requires iv.pattern == "1 3 5"
    ensures ChordType(SEVEN_LETTER_NAMES, iv).None?
  {
  }

  lemma MajorPatternMissesSixLetter(iv: Intervals)
    requires iv.pattern == "1 3 5"
    ensures ChordType(SIX_LETTER_NAMES, iv).None?
  {
  }

  lemma MajorPatternMissesFiveLetter(iv: Intervals)
    requires iv.pattern == "1 3 5"
    ensures ChordType(FIVE_LETTER_NAMES, iv).None?
  {
  }

  lemma MajorPatternMissesShortNames(iv: Intervals)
    requires iv.pattern == "1 3 5"
    ensures ChordType(FOUR_LETTER_NAMES_A, iv).None? && ChordType(FOUR_LETTER_NAMES_D, iv).None?
    ensures ChordType(FOUR_LETTER_NAMES_M, iv).None?
  {
    MajorPatternMissesFourLetterA(iv);
    MajorPatternMissesFourLetterD(iv);
    MajorPatternMissesFourLetterM(iv);
  }

  lemma MajorPatternMissesFourLetterA(iv: Intervals)
    requires iv.pattern == "1 3 5"
    ensures ChordType(FOUR_LETTER_NAMES_A, iv).None?
  {
  }

  lemma MajorPatternMissesFourLetterD(iv: Intervals)
    requires iv.pattern == "1 3 5"
    ensures ChordType(FOUR_LETTER_NAMES_D, iv).None?
  {
  }

  lemma MajorPatternMissesFourLetterM(iv: Intervals)
    requires iv.pattern == "1 3 5"
    ensures ChordType(FOUR_LETTER_NAMES_M, iv).None?
  {
  }

  lemma MajorPatternFindsMaj(iv: Intervals)
    requires iv.pattern == "1 3 5"
    ensures ChordType(THREE_LETTER_NAMES, iv) == Some("MAJ")
  {
    assert THREE_LETTER_NAMES[2].0 == "MAJ";
    ChordTypeAt(THREE_LETTER_NAMES, iv, 2);
  }

  // ------------------------------------------------ human-readable names

  /** `humanReadableMap`: aliases for the more cryptic chord names. */
  type Aliases = map<string, string>

  const HUMAN_READABLE: Aliases := map["MAJ6%9" := "6/9", "MAJ7%6" := "7/6"]

  /** `getHumanReadableName`: the alias when there is one, else the name itself. */
  function HumanReadableName(aliases: Aliases, chordName: string): string {
    if chordName in aliases then aliases[chordName] else chordName
  }

  /** `putHumanReadable`: the new alias answers for its chord and no other
      answer changes. */
  function PutHumanReadable(aliases: Aliases, chordName: string, alias: string): (r: Aliases)
    ensures HumanReadableName(r, chordName) == alias
    ensures forall other :: other != chordName ==> HumanReadableName(r, other) == HumanReadableName(aliases, other)
  {
    aliases[chordName := alias]
  }

  /** The two built-in aliases; every other name reads as itself. */
  lemma BuiltInAliases(chordName: string)
    ensures HumanReadableName(HUMAN_READABLE, "MAJ6%9") == "6/9"
    ensures HumanReadableName(HUMAN_READABLE, "MAJ7%6") == "7/6"
    ensures chordName != "MAJ6%9" && chordName != "MAJ7%6" ==> HumanReadableName(HUMAN_READABLE, chordName) == chordName
  {
  }
}
