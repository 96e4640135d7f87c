/** Text helpers with Java's String semantics where the model needs them.

    Case mapping covers the ASCII letters only; the notation this library
    reads and writes is ASCII.
 */
module Strings {

  // ---------------------------------------------------------------- case

  function UpperChar(c: char): (u: char)
    ensures 'a' <= c <= 'z' ==> u as int == c as int - 32
    ensures !('a' <= c <= 'z') ==> u == c
  {
    if 'a' <= c <= 'z' then (c as int - 32) as char else c
  }

  function Upper(s: string): (u: string)
    ensures |u| == |s|
    ensures forall i :: 0 <= i < |s| ==> u[i] == UpperChar(s[i])
  {
    if s == [] then [] else [UpperChar(s[0])] + Upper(s[1..])
  }

  /** `String.equalsIgnoreCase` restricted to ASCII case folding. */
  predicate EqualsIgnoreCase(a: string, b: string) {
    Upper(a) == Upper(b)
  }

  lemma EqualsIgnoreCaseIsEquivalence(a: string, b: string, c: string)
    ensures EqualsIgnoreCase(a, a)
    ensures EqualsIgnoreCase(a, b) ==> EqualsIgnoreCase(b, a)
    ensures EqualsIgnoreCase(a, b) && EqualsIgnoreCase(b, c) ==> EqualsIgnoreCase(a, c)
  {
  }

  // ------------------------------------------------------------ searching

  /** `String.contains`: `p` occurs in `s` at some position. */
  predicate Contains(s: string, p: string)
    decreases |s|
  {
    if |s| < |p| then false
    else s[..|p|] == p || (|s| > 0 && Contains(s[1..], p))
  }

  /** `p` occurs in `s` starting at index `i`. */
  predicate OccursAt(s: string, p: string, i: int) {
    0 <= i && i + |p| <= |s| && s[i..i + |p|] == p
  }

  /** An occurrence of a pattern lies entirely inside the text. */
  lemma {:induction false} ContainsAt(s: string, p: string)
    requires Contains(s, p)
    ensures exists i :: OccursAt(s, p, i)
    decreases |s|
  {
    if s[..|p|] == p {
      assert OccursAt(s, p, 0);
    } else {
      ContainsAt(s[1..], p);
      var i :| OccursAt(s[1..], p, i);
      assert s[i + 1..i + 1 + |p|] == s[1..][i..i + |p|];
      assert OccursAt(s, p, i + 1);
    }
  }

  /** A text made only of characters foreign to a non-empty `p` cannot contain it. */
  lemma {:induction false} ForeignTextLacks(t: string, p: string)
    requires |p| > 0
    requires forall k :: 0 <= k < |t| ==> t[k] !in p
    ensures !Contains(t, p)
    decreases |t|
  {
    if |t| >= |p| {
      assert t[..|p|][0] == t[0];
      assert t[..|p|] != p;
      ForeignTextLacks(t[1..], p);
    }
  }

  /** Appending text made only of characters foreign to `p` creates no new occurrence. */
  lemma {:induction false} ContainsAppendForeign(s: string, t: string, p: string)
    requires |p| > 0
    requires forall k :: 0 <= k < |t| ==> t[k] !in p
    ensures Contains(s + t, p) <==> Contains(s, p)
    decreases |s|
  {
    if |s| == 0 {
      ForeignTextLacks(t, p);
      assert s + t == t;
    } else {
      assert (s + t)[1..] == s[1..] + t;
      ContainsAppendForeign(s[1..], t, p);
      if |s| >= |p| {
        assert (s + t)[..|p|] == s[..|p|];
      } else if |s + t| >= |p| {
        assert (s + t)[..|p|][|s|] == t[0];
        assert (s + t)[..|p|] != p;
      }
    }
  }

  /** Number of occurrences of `c` in `s`. */
  function Count(s: string, c: char): (n: nat)
    ensures n <= |s|
    ensures n == 0 <==> c !in s
  {
    if s == [] then 0 else (if s[0] == c then 1 else 0) + Count(s[1..], c)
  }

  lemma {:induction false} CountAppend(s: string, t: string, c: char)
    ensures Count(s + t, c) == Count(s, c) + Count(t, c)
    decreases |s|
  {
    if s == [] {
      assert s + t == t;
    } else {
      assert (s + t)[1..] == s[1..] + t;
      CountAppend(s[1..], t, c);
    }
  }

  // -------------------------------------------------------------- numbers

  predicate IsDigit(c: char) {
    '0' <= c <= '9'
  }

  function DigitChar(d: nat): (c: char)
    requires d < 10
    ensures IsDigit(c)
  {
    ('0' as int + d) as char
  }

  /** Decimal text of a natural number, as `Integer.toString` writes it. */
  function NatToString(n: nat): (s: string)
    ensures |s| > 0
    ensures forall k :: 0 <= k < |s| ==> IsDigit(s[k])
    ensures n > 0 ==> s[0] != '0'
  {
    if n < 10 then [DigitChar(n)] else NatToString(n / 10) + [DigitChar(n % 10)]
  }

  /** Decimal text of an integer, with a leading minus sign when negative. */
  function IntToString(i: int): (s: string)
    ensures |s| > 0
    ensures i >= 0 ==> s == NatToString(i)
    ensures i < 0 ==> s == "-" + NatToString(-i)
  {
    if i < 0 then "-" + NatToString(-i) else NatToString(i)
  }

  /** Value of a string of decimal digits. */
  function ParseDigits(s: string): nat
    requires forall k :: 0 <= k < |s| ==> IsDigit(s[k])
  {
    if s == [] then 0
    else
      assert IsDigit(s[|s| - 1]);
      10 * ParseDigits(s[..|s| - 1]) + (s[|s| - 1] as int - '0' as int)
  }

  lemma {:induction false} ParseNatToString(n: nat)
    ensures ParseDigits(NatToString(n)) == n
  {
    if n >= 10 {
      var s := NatToString(n);
      assert s[..|s| - 1] == NatToString(n / 10);
      ParseNatToString(n / 10);
    }
  }

  /** Text `Integer.parseInt` accepts: digits, optionally after a minus sign. */
  predicate IsIntText(s: string) {
    if |s| > 0 && s[0] == '-' then |s| > 1 && forall k :: 0 <= k < |s| - 1 ==> IsDigit(s[1..][k])
    else |s| > 0 && forall k :: 0 <= k < |s| ==> IsDigit(s[k])
  }

  /** Value of an integer text. */
  function ParseInt(s: string): int
    requires IsIntText(s)
  {
    if s[0] == '-' then -(ParseDigits(s[1..]) as int) else ParseDigits(s)
  }

  /** Reading the decimal text of an integer gives the integer back, and the
      text holds nothing but digits and a leading minus sign. */
  lemma ParseIntToString(i: int)
    ensures IsIntText(IntToString(i)) && ParseInt(IntToString(i)) == i
    ensures forall k :: 0 <= k < |IntToString(i)| ==> IsDigit(IntToString(i)[k]) || IntToString(i)[k] == '-'
  {
    var s := IntToString(i);
    if i < 0 {
      assert s[1..] == NatToString(-i);
      ParseNatToString(-i);
    } else {
      ParseNatToString(i);
    }
  }

  /** Index of the first `c` in `s`, or `|s|` when there is none. */
  function IndexOf(s: string, c: char): (k: nat)
    ensures k <= |s|
    ensures forall j :: 0 <= j < k ==> s[j] != c
    ensures k < |s| ==> s[k] == c
  {
    if s == [] || s[0] == c then 0 else 1 + IndexOf(s[1..], c)
  }

  // ---------------------------------------------------- joining, splitting

  /** The elements of `ts` separated by `sep`. */
  function Join(ts: seq<string>, sep: string): string {
    if ts == [] then ""
    else if |ts| == 1 then ts[0]
    else ts[0] + sep + Join(ts[1..], sep)
  }

  /** Every element followed by one space, as the StringBuilder loops build it. */
  function JoinTrailing(ts: seq<string>): (s: string)
    ensures |s| >= |ts|
  {
    if ts == [] then "" else ts[0] + " " + JoinTrailing(ts[1..])
  }

  lemma {:induction false} JoinTrailingAppend(a: seq<string>, b: seq<string>)
    ensures JoinTrailing(a + b) == JoinTrailing(a) + JoinTrailing(b)
    decreases |a|
  {
    if a == [] {
      assert a + b == b;
    } else {
      assert (a + b)[1..] == a[1..] + b;
      JoinTrailingAppend(a[1..], b);
    }
  }

  /** A pattern token: not empty and free of blanks and control characters. */
  predicate WellFormedToken(t: string) {
    |t| > 0 && forall k :: 0 <= k < |t| ==> t[k] > ' '
  }

  lemma WellFormedHasNoSpace(t: string)
    requires WellFormedToken(t)
    ensures ' ' !in t
  {
  }

  predicate WellFormedTokens(ts: seq<string>) {
    forall i :: 0 <= i < |ts| ==> WellFormedToken(ts[i])
  }

  /** The pieces of `s` between single spaces (`|Count(s, ' ')| + 1` pieces). */
  function SplitPieces(s: string): (r: seq<string>)
    ensures |r| > 0
  {
    if s == [] then [""]
    else if s[0] == ' ' then [""] + SplitPieces(s[1..])
    else var rest := SplitPieces(s[1..]); [[s[0]] + rest[0]] + rest[1..]
  }

  function DropTrailingEmpty(r: seq<string>): seq<string> {
    if r == [] then [] else if r[|r| - 1] == "" then DropTrailingEmpty(r[..|r| - 1]) else r
  }

  /** `s.split(" ")`: a text without a space is its own single piece; otherwise
      the pieces between spaces, trailing empty pieces removed. */
  function JavaSplit(s: string): seq<string> {
    if ' ' !in s then [s] else DropTrailingEmpty(SplitPieces(s))
  }

  predicate IsBlank(c: char) {
    c <= ' '
  }

  function TrimStart(s: string): string {
    if s != [] && IsBlank(s[0]) then TrimStart(s[1..]) else s
  }

  function TrimEnd(s: string): string {
    if s != [] && IsBlank(s[|s| - 1]) then TrimEnd(s[..|s| - 1]) else s
  }

  /** `String.trim`: blanks (every character up to U+0020) removed at both ends. */
  function Trim(s: string): string {
    TrimEnd(TrimStart(s))
  }

  lemma {:induction false} SplitPiecesOfToken(t: string, u: string)
    requires ' ' !in t
    ensures SplitPieces(t + " " + u) == [t] + SplitPieces(u)
    ensures SplitPieces(t) == [t]
    decreases |t|
  {
    if t == [] {
      assert t + " " + u == [' '] + u;
      assert (t + " " + u)[1..] == u;
    } else {
      assert (t + " " + u)[1..] == t[1..] + " " + u;
      SplitPiecesOfToken(t[1..], u);
      assert [t[0]] + t[1..] == t;
    }
  }

  /** Splitting a well-formed joined pattern gives its tokens back. */
  lemma {:induction false} SplitJoin(ts: seq<string>)
    requires |ts| > 0
    requires WellFormedTokens(ts)
    ensures JavaSplit(Join(ts, " ")) == ts
  {
    SplitPiecesJoin(ts);
    if |ts| == 1 {
      assert Join(ts, " ") == ts[0];
      assert WellFormedToken(ts[0]);
      WellFormedHasNoSpace(ts[0]);
    } else {
      assert Join(ts, " ")[|ts[0]|] == ' ';
      assert ts[|ts| - 1] != "" by { assert WellFormedToken(ts[|ts| - 1]); }
    }
  }

  lemma {:induction false} SplitPiecesJoin(ts: seq<string>)
    requires |ts| > 0
    requires WellFormedTokens(ts)
    ensures SplitPieces(Join(ts, " ")) == ts
  {
    assert WellFormedToken(ts[0]);
    WellFormedHasNoSpace(ts[0]);
    if |ts| == 1 {
      SplitPiecesOfToken(ts[0], "");
    } else {
      SplitPiecesJoin(ts[1..]);
      SplitPiecesOfToken(ts[0], Join(ts[1..], " "));
      assert [ts[0]] + ts[1..] == ts;
    }
  }

  lemma {:induction false} JoinTrailingIsJoinPlusSpace(ts: seq<string>)
    requires |ts| > 0
    ensures JoinTrailing(ts) == Join(ts, " ") + " "
  {
    if |ts| > 1 {
      JoinTrailingIsJoinPlusSpace(ts[1..]);
    }
  }

  lemma {:induction false} TrimEndSpace(s: string)
    requires s != [] && !IsBlank(s[|s| - 1])
    ensures TrimEnd(s + " ") == s
  {
    assert (s + " ")[..|s + " "| - 1] == s;
  }

  lemma {:induction false} JoinEnds(ts: seq<string>)
    requires |ts| > 0
    requires WellFormedTokens(ts)
    ensures Join(ts, " ") != []
    ensures !IsBlank(Join(ts, " ")[0])
    ensures !IsBlank(Join(ts, " ")[|Join(ts, " ")| - 1])
  {
    assert WellFormedToken(ts[0]);
    if |ts| > 1 {
      JoinEnds(ts[1..]);
    }
  }

  /** Trimming the builder output of a well-formed token list gives the joined pattern. */
  lemma TrimJoinTrailing(ts: seq<string>)
    requires |ts| > 0
    requires WellFormedTokens(ts)
    ensures Trim(JoinTrailing(ts)) == Join(ts, " ")
  {
    JoinTrailingIsJoinPlusSpace(ts);
    JoinEnds(ts);
    var j := Join(ts, " ");
    assert TrimStart(j + " ") == j + " ";
    TrimEndSpace(j);
  }

  /** `n` copies of one character. */
  function Repeat(c: char, n: nat): (s: string)
    ensures |s| == n
    ensures forall k :: 0 <= k < n ==> s[k] == c
  {
    if n == 0 then "" else [c] + Repeat(c, n - 1)
  }
}
