/** `Note.Interv`: the named intervals of two to seven degrees with their
    French and US names, and the two lookups between names and values. */
module IntervalNames {
  import opened Results

  datatype Interv =
    | SecondeDim | SecondeMin | SecondeMaj | SecondeAug
    | TierceDim | TierceMin | TierceMaj | TierceAug
    | QuarteDim | QuarteJuste | QuarteAug
    | QuinteDim | QuinteJuste | QuinteAug
    | SixteDim | SixteMin | SixteMaj | SixteAug
    | SeptiemeDim | SeptiemeMin | SeptiemeMaj | SeptiemeAug

  /** Every constant, in declaration order. */
  const ALL: seq<Interv> := [
    SecondeDim, SecondeMin, SecondeMaj, SecondeAug,
    TierceDim, TierceMin, TierceMaj, TierceAug,
    QuarteDim, QuarteJuste, QuarteAug,
    QuinteDim, QuinteJuste, QuinteAug,
    SixteDim, SixteMin, SixteMaj, SixteAug,
    SeptiemeDim, SeptiemeMin, SeptiemeMaj, SeptiemeAug]

  /** `getValueInHalfSteps`. */
  function HalfSteps(x: Interv): int {
    match x
    case SecondeDim => 0 case SecondeMin => 1 case SecondeMaj => 2 case SecondeAug => 3
    case TierceDim => 2 case TierceMin => 3 case TierceMaj => 4 case TierceAug => 5
    case QuarteDim => 4 case QuarteJuste => 5 case QuarteAug => 6
    case QuinteDim => 6 case QuinteJuste => 7 case QuinteAug => 8
    case SixteDim => 7 case SixteMin => 8 case SixteMaj => 9 case SixteAug => 10
    case SeptiemeDim => 9 case SeptiemeMin => 10 case SeptiemeMaj => 11 case SeptiemeAug => 12
  }

  /** `getValueInNotes`: the degree span (2 for a second, ..., 7 for a seventh). */
  function Span(x: Interv): int {
    match x
    case SecondeDim => 2 case SecondeMin => 2 case SecondeMaj => 2 case SecondeAug => 2
    case TierceDim => 3 case TierceMin => 3 case TierceMaj => 3 case TierceAug => 3
    case QuarteDim => 4 case QuarteJuste => 4 case QuarteAug => 4
    case QuinteDim => 5 case QuinteJuste => 5 case QuinteAug => 5
    case SixteDim => 6 case SixteMin => 6 case SixteMaj => 6 case SixteAug => 6
    case SeptiemeDim => 7 case SeptiemeMin => 7 case SeptiemeMaj => 7 case SeptiemeAug => 7
  }

  /** `getFRName`. */
  function NameFR(x: Interv): string {
    match x
    case SecondeDim => "SECONDE DIMINUEE" case SecondeMin => "SECONDE MINEURE"
    case SecondeMaj => "SECONDE MAJEURE" case SecondeAug => "SECONDE AUGMENTEE"
    case TierceDim => "TIERCE DIMINUEE" case TierceMin => "TIERCE MINEURE"
    case TierceMaj => "TIERCE MAJEURE" case TierceAug => "TIERCE AUGMENTEE"
    case QuarteDim => "QUARTE DIMINUEE" case QuarteJuste => "QUARTE JUSTE"
    case QuarteAug => "QUARTE AUGMENTEE"
    case QuinteDim => "QUINTE DIMINUEE" case QuinteJuste => "QUINTE JUSTE"
    case QuinteAug => "QUINTE AUGMENTEE"
    case SixteDim => "SIXTE DIMINUEE" case SixteMin => "SIXTE MINEURE"
    case SixteMaj => "SIXTE MAJEURE" case SixteAug => "SIXTE AUGMENTEE"
    case SeptiemeDim => "SEPTIEME DIMINUEE" case SeptiemeMin => "SEPTIEME MINEURE"
    case SeptiemeMaj => "SEPTIEME MAJEURE" case SeptiemeAug => "SEPTIEME AUGMENTEE"
  }

  /** `getUSName`. */
  function NameUS(x: Interv): string {
    match x
    case SecondeDim => "DIM 2ND" case SecondeMin => "MINOR 2ND"
    case SecondeMaj => "MAJOR 2ND" case SecondeAug => "AUG 2ND"
    case TierceDim => "DIM 3RD" case TierceMin => "MINOR 3RD"
    case TierceMaj => "MAJOR 3RD" case TierceAug => "AUG 3RD"
    case QuarteDim => "DIM 4TH" case QuarteJuste => "PERFECT 4TH" case QuarteAug => "AUG 4TH"
    case QuinteDim => "DIM 5TH" case QuinteJuste => "PERFECT 5TH" case QuinteAug => "AUG 5TH"
    case SixteDim => "DIM 6TH" case SixteMin => "MINOR 6TH"
    case SixteMaj => "MAJOR 6TH" case SixteAug => "AUG 6TH"
    case SeptiemeDim => "DIM 7TH" case SeptiemeMin => "MINOR 7TH"
    case SeptiemeMaj => "MAJOR 7TH" case SeptiemeAug => "AUG 7TH"
  }

  const UNDEFINED: string := "undefined"

  function NameOf(x: Interv, inFrench: bool): string {
    if inFrench then NameFR(x) else NameUS(x)
  }

  /** `Interv.getName`: the name of the interval spanning `span` degrees and
      `halfSteps` half-steps, or "undefined" when no constant has that pair. */
  function GetName(span: int, halfSteps: int, inFrench: bool): string {
    match span
    case 2 =>
      if halfSteps == 0 then NameOf(SecondeDim, inFrench)
      else if halfSteps == 1 then NameOf(SecondeMin, inFrench)
      else if halfSteps == 2 then NameOf(SecondeMaj, inFrench)
      else if halfSteps == 3 then NameOf(SecondeAug, inFrench)
      else UNDEFINED
    case 3 =>
      if halfSteps == 2 then NameOf(TierceDim, inFrench)
      else if halfSteps == 3 then NameOf(TierceMin, inFrench)
      else if halfSteps == 4 then NameOf(TierceMaj, inFrench)
      else if halfSteps == 5 then NameOf(TierceAug, inFrench)
      else UNDEFINED
    case 4 =>
      if halfSteps == 4 then NameOf(QuarteDim, inFrench)
      else if halfSteps == 5 then NameOf(QuarteJuste, inFrench)
      else if halfSteps == 6 then NameOf(QuarteAug, inFrench)
      else UNDEFINED
    case 5 =>
      if halfSteps == 6 then NameOf(QuinteDim, inFrench)
      else if halfSteps == 7 then NameOf(QuinteJuste, inFrench)
      else if halfSteps == 8 then NameOf(QuinteAug, inFrench)
      else UNDEFINED
    case 6 =>
      if halfSteps == 7 then NameOf(SixteDim, inFrench)
      else if halfSteps == 8 then NameOf(SixteMin, inFrench)
      else if halfSteps == 9 then NameOf(SixteMaj, inFrench)
      else if halfSteps == 10 then NameOf(SixteAug, inFrench)
      else UNDEFINED
    case 7 =>
      if halfSteps == 9 then NameOf(SeptiemeDim, inFrench)
      else if halfSteps == 10 then NameOf(SeptiemeMin, inFrench)
      else if halfSteps == 11 then NameOf(SeptiemeMaj, inFrench)
      else if halfSteps == 12 then NameOf(SeptiemeAug, inFrench)
      else UNDEFINED
    case _ => UNDEFINED
  }

  /** `Interv.get`: the constant whose French or US name is `name`, tried in
      declaration order; null (None) for any other text. */
  function Get(name: string): Option<Interv> {
    GetFrom(name, 0)
  }

  function GetFrom(name: string, i: nat): Option<Interv>
    requires i <= |ALL|
    decreases |ALL| - i
  {
    if i == |ALL| then None
    else if NameFR(ALL[i]) == name || NameUS(ALL[i]) == name then Some(ALL[i])
    else GetFrom(name, i + 1)
  }

  /** Each constant is the only one with its (span, half-steps) pair. */
  lemma PairsIdentifyConstants(x: Interv, y: Interv)
    ensures Span(x) == Span(y) && HalfSteps(x) == HalfSteps(y) ==> x == y
  {
  }

  /** `getName` of a constant's own span and half-steps is that constant's name. */
  lemma GetNameOfConstant(x: Interv, inFrench: bool)
    ensures GetName(Span(x), HalfSteps(x), inFrench) == NameOf(x, inFrench)
  {
  }

  /** `getName` is "undefined" exactly for the pairs no constant carries. */
  lemma GetNameUndefined(span: int, halfSteps: int, inFrench: bool)
    ensures GetName(span, halfSteps, inFrench) == UNDEFINED
            <==> forall x: Interv :: !(Span(x) == span && HalfSteps(x) == halfSteps)
  {
    if GetName(span, halfSteps, inFrench) != UNDEFINED {
      var x := NamedPairHasConstant(span, halfSteps, inFrench);
    } else {
      forall x: Interv ensures !(Span(x) == span && HalfSteps(x) == halfSteps) {
        GetNameOfConstant(x, inFrench);
        NamesAreDefined(x, inFrench);
      }
    }
  }

  /** A pair `getName` names is carried by some constant. */
  lemma NamedPairHasConstant(span: int, halfSteps: int, inFrench: bool) returns (x: Interv)
    requires GetName(span, halfSteps, inFrench) != UNDEFINED
    ensures Span(x) == span && HalfSteps(x) == halfSteps
  {
    if span == 2 {
      x := [SecondeDim, SecondeMin, SecondeMaj, SecondeAug][halfSteps];
    } else if span == 3 {
      x := [TierceDim, TierceMin, TierceMaj, TierceAug][halfSteps - 2];
    } else if span == 4 {
      x := [QuarteDim, QuarteJuste, QuarteAug][halfSteps - 4];
    } else if span == 5 {
      x := [QuinteDim, QuinteJuste, QuinteAug][halfSteps - 6];
    } else if span == 6 {
      x := [SixteDim, SixteMin, SixteMaj, SixteAug][halfSteps - 7];
    } else {
      x := [SeptiemeDim, SeptiemeMin, SeptiemeMaj, SeptiemeAug][halfSteps - 9];
    }
  }

  /** No constant is named "undefined". */
  lemma NamesAreDefined(x: Interv, inFrench: bool)
    ensures NameOf(x, inFrench) != UNDEFINED
  {
  }

  /** No French name is a US name. */
  lemma FrenchIsNotUS(x: Interv, y: Interv)
    ensures NameFR(x) != NameUS(y)
  {
    FrenchInitial(x);
    USInitial(y);
  }

  /** French names begin with S, T or Q. */
  lemma FrenchInitial(x: Interv)
    ensures NameFR(x) != [] && NameFR(x)[0] in {'S', 'T', 'Q'}
  {
  }

  /** US names begin with D, M, A or P. */
  lemma USInitial(x: Interv)
    ensures NameUS(x) != [] && NameUS(x)[0] in {'D', 'M', 'A', 'P'}
  {
  }

  /** No two constants share a French name. */
  lemma FrenchNamesDistinct(x: Interv, y: Interv)
    ensures NameFR(x) == NameFR(y) ==> x == y
  {
  }

  /** No two constants share a US name. */
  lemma USNamesDistinct(x: Interv, y: Interv)
    ensures NameUS(x) == NameUS(y) ==> x == y
  {
  }

  lemma AllListsEveryConstant(x: Interv)
    ensures x in ALL
  {
  }

  /** `get` of either name of a constant returns that constant. */
  lemma GetOfName(x: Interv)
    ensures Get(NameFR(x)) == Some(x)
    ensures Get(NameUS(x)) == Some(x)
  {
    AllListsEveryConstant(x);
    var k :| 0 <= k < |ALL| && ALL[k] == x;
    GetFromFinds(NameFR(x), x, k, 0);
    GetFromFinds(NameUS(x), x, k, 0);
  }

  lemma {:induction false} GetFromFinds(name: string, x: Interv, k: nat, i: nat)
    requires i <= k < |ALL| && ALL[k] == x
    requires name == NameFR(x) || name == NameUS(x)
    ensures GetFrom(name, i) == Some(x)
    decreases k - i
  {
    NameMatchesOnlyItsConstant(name, x, ALL[i]);
    if i < k {
      GetFromFinds(name, x, k, i + 1);
    }
  }

  /** A name of `x` is a name of `y` only when `y` is `x`. */
  lemma NameMatchesOnlyItsConstant(name: string, x: Interv, y: Interv)
    requires name == NameFR(x) || name == NameUS(x)
    ensures NameFR(y) == name || NameUS(y) == name <==> y == x
  {
    FrenchIsNotUS(x, y);
    FrenchIsNotUS(y, x);
    FrenchNamesDistinct(x, y);
    USNamesDistinct(x, y);
  }

  /** Any text that names no constant gets null. */
  lemma {:induction false} GetOfOtherText(name: string, i: nat)
    requires i <= |ALL|
    requires forall x: Interv :: NameFR(x) != name && NameUS(x) != name
    ensures GetFrom(name, i) == None
    decreases |ALL| - i
  {
    if i < |ALL| {
      GetOfOtherText(name, i + 1);
    }
  }
}
