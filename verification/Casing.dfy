/**
 * Capital and small letters beyond ASCII, as far as the card labels need them. Case mapping may change the
 * length of a text and may depend on what stands around a letter.
 */
module Casing {
  import opened Text

  /** `initial` is the capital a text begins with once its first character is put into capitals. */
  datatype Letters = Letters(upper: string -> string, lower: string -> string, initial: char -> string)

  /** The characters a printed label is divided or escaped at. */
  predicate Mark(c: char) {
    c == ':' || c == ';' || c == ',' || c == '\\' || c == '\n'
  }

  function Count(s: string, c: char): nat {
    if s == "" then 0 else (if s[0] == c then 1 else 0) + Count(s[1..], c)
  }

  /**
   * What is used of the mappings: ASCII text is mapped as ASCII, no mark comes or goes, trimmed text stays
   * trimmed, and no text vanishes.
   */
  ghost predicate Proper(l: Letters) {
    && (forall s :: Ascii(s) ==> l.upper(s) == Upper(s) && l.lower(s) == Lower(s))
    && (forall s, c :: Mark(c) ==> Count(l.upper(s), c) == Count(s, c))
    && (forall s, c :: Mark(c) ==> Count(l.lower(s), c) == Count(s, c))
    && (forall d, c :: Mark(c) ==> Count(l.initial(d), c) == if c == d then 1 else 0)
    && (forall s :: Trimmed(s) ==> Trimmed(l.upper(s)))
    && (forall s :: (l.upper(s) == "" <==> s == "") && (l.lower(s) == "" <==> s == ""))
    && (forall d :: l.initial(d) != "")
  }

  type CaseMap = l: Letters | Proper(l) ghost witness (GermanIsProper(); GermanLetters())

  function Capitals(cs: CaseMap, s: string): string {
    cs.upper(s)
  }

  function Small(cs: CaseMap, s: string): string {
    cs.lower(s)
  }

  /** The text with its first character in capitals. */
  function Capitalised(cs: CaseMap, s: string): string {
    if s == "" then "" else cs.initial(s[0]) + s[1..]
  }

  // ---- counting ----

  lemma {:induction false} CountIn(s: string, c: char)
    ensures c in s <==> Count(s, c) > 0
  {
    if s != "" {
      CountIn(s[1..], c);
      assert s == [s[0]] + s[1..];
    }
  }

  lemma {:induction false} CountAppend(a: string, b: string, c: char)
    ensures Count(a + b, c) == Count(a, c) + Count(b, c)
  {
    if a == "" {
      assert a + b == b;
    } else {
      CountAppend(a[1..], b, c);
      assert (a + b)[1..] == a[1..] + b;
    }
  }

  /** Marks come through all three mappings. */
  lemma {:induction false} MarksKept(cs: CaseMap, s: string, c: char)
    requires Mark(c)
    ensures Count(Capitals(cs, s), c) == Count(Small(cs, s), c) == Count(Capitalised(cs, s), c) == Count(s, c)
    ensures (c in s <==> c in Capitals(cs, s)) && (c in s <==> c in Small(cs, s)) && (c in s <==> c in Capitalised(cs, s))
  {
    if s != "" {
      CountAppend(cs.initial(s[0]), s[1..], c);
    }
    CountIn(s, c);
    CountIn(Capitals(cs, s), c);
    CountIn(Small(cs, s), c);
    CountIn(Capitalised(cs, s), c);
  }

  lemma {:induction false} NothingVanishes(cs: CaseMap, s: string)
    ensures (Capitals(cs, s) == "" <==> s == "") && (Small(cs, s) == "" <==> s == "") && (Capitalised(cs, s) == "" <==> s == "")
  {
  }

  lemma {:induction false} AsciiCases(cs: CaseMap, s: string)
    requires Ascii(s)
    ensures Capitals(cs, s) == Upper(s) && Small(cs, s) == Lower(s)
  {
  }

  lemma {:induction false} CapitalsTrimmed(cs: CaseMap, s: string)
    requires Trimmed(s)
    ensures Trimmed(Capitals(cs, s))
  {
  }

  // ---- one with a letter whose capital is two ----

  const SHARP_S: char := '\U{DF}'

  function GermanCapital(c: char): string {
    if c == SHARP_S then "SS" else [UpperChar(c)]
  }

  function GermanCapitals(s: string): string {
    if s == "" then "" else GermanCapital(s[0]) + GermanCapitals(s[1..])
  }

  /** ASCII letters, and the sharp s that is written SS in capitals. */
  function GermanLetters(): Letters {
    Letters(GermanCapitals, Lower, GermanCapital)
  }

  lemma {:induction false} GermanIsProper()
    ensures Proper(GermanLetters())
  {
    forall s ensures (Ascii(s) ==> GermanCapitals(s) == Upper(s)) && (GermanCapitals(s) == "" <==> s == "") && (Lower(s) == "" <==> s == "") {
      if Ascii(s) { GermanAscii(s); }
    }
    forall s, c | Mark(c) ensures Count(GermanCapitals(s), c) == Count(s, c) && Count(Lower(s), c) == Count(s, c) {
      GermanMarks(s, c);
    }
    forall d, c | Mark(c) ensures Count(GermanCapital(d), c) == if c == d then 1 else 0 {
      GermanMark(d, c);
    }
    forall s | Trimmed(s) ensures Trimmed(GermanCapitals(s)) {
      GermanEnds(s);
    }
  }

  function German(): CaseMap {
    GermanIsProper();
    GermanLetters()
  }

  /** A sharp s is the one letter of a text that its capitals and back do not give again. */
  lemma {:induction false} SharpSBecomesTwo(a: string, b: string)
    requires Ascii(a) && Ascii(b)
    ensures var t := a + [SHARP_S] + b;
            && Small(German(), Capitals(German(), t)) == Lower(a) + "ss" + Lower(b)
            && Small(German(), t) == Lower(a) + [SHARP_S] + Lower(b)
  {
    hide GermanCapitals, Lower, Upper, Ascii;
    var t := a + [SHARP_S] + b;
    SharpSCapitals(a, b);
    SharpSSmall(a, b);
    UpThenDown(a);
    UpThenDown(b);
    LowerAppend(Upper(a), "SS");
    LowerAppend(Upper(a) + "SS", Upper(b));
    SmallSS();
  }

  lemma {:induction false} SmallSS()
    ensures Lower("SS") == "ss"
  {
  }

  lemma {:induction false} SharpSCapitals(a: string, b: string)
    requires Ascii(a) && Ascii(b)
    ensures GermanCapitals(a + [SHARP_S] + b) == Upper(a) + "SS" + Upper(b)
  {
    GermanAppend(a, [SHARP_S]);
    GermanAppend(a + [SHARP_S], b);
    GermanAscii(a);
    GermanAscii(b);
    GermanStep(SHARP_S, "");
    assert [SHARP_S] + "" == [SHARP_S];
    hide GermanCapitals, Upper;
  }

  lemma {:induction false} SharpSSmall(a: string, b: string)
    ensures Lower(a + [SHARP_S] + b) == Lower(a) + [SHARP_S] + Lower(b)
  {
    LowerAppend(a, [SHARP_S]);
    LowerAppend(a + [SHARP_S], b);
    assert Lower([SHARP_S]) == [SHARP_S];
  }

  lemma {:induction false} UpThenDown(s: string)
    ensures Lower(Upper(s)) == Lower(s)
  {
    assert forall k :: 0 <= k < |s| ==> LowerChar(UpperChar(s[k])) == LowerChar(s[k]);
  }

  lemma {:induction false} LowerAppend(a: string, b: string)
    ensures Lower(a + b) == Lower(a) + Lower(b)
  {
  }

  lemma {:induction false} GermanStep(c: char, s: string)
    ensures GermanCapitals([c] + s) == GermanCapital(c) + GermanCapitals(s)
    ensures GermanCapitals("") == ""
  {
    assert ([c] + s)[1..] == s;
  }

  lemma {:induction false} GermanAppend(a: string, b: string)
    ensures GermanCapitals(a + b) == GermanCapitals(a) + GermanCapitals(b)
  {
    hide GermanCapitals, GermanCapital;
    if a == "" {
      assert a + b == b;
      GermanStep('a', "");
    } else {
      var rest := a[1..];
      GermanAppend(rest, b);
      assert a == [a[0]] + rest && a + b == [a[0]] + (rest + b);
      GermanStep(a[0], rest);
      GermanStep(a[0], rest + b);
    }
  }

  lemma {:induction false} GermanAscii(s: string)
    requires Ascii(s)
    ensures GermanCapitals(s) == Upper(s)
  {
    if s != "" {
      GermanAscii(s[1..]);
      assert Upper(s) == [UpperChar(s[0])] + Upper(s[1..]);
    }
  }

  lemma {:induction false} GermanMark(d: char, c: char)
    requires Mark(c)
    ensures Count(GermanCapital(d), c) == if c == d then 1 else 0
  {
    assert "SS"[1..] == "S" && "S"[1..] == "";
    assert [UpperChar(d)][1..] == "";
  }

  lemma {:induction false} GermanMarks(s: string, c: char)
    requires Mark(c)
    ensures Count(GermanCapitals(s), c) == Count(s, c) && Count(Lower(s), c) == Count(s, c)
  {
    if s != "" {
      GermanMarks(s[1..], c);
      GermanMark(s[0], c);
      CountAppend(GermanCapital(s[0]), GermanCapitals(s[1..]), c);
      assert Lower(s)[1..] == Lower(s[1..]);
    }
  }

  lemma {:induction false} GermanEnds(s: string)
    ensures s != "" ==> var u := GermanCapitals(s); u != "" && (IsSpace(u[0]) ==> IsSpace(s[0])) && (IsSpace(u[|u| - 1]) ==> IsSpace(s[|s| - 1]))
  {
    if |s| > 1 {
      GermanEnds(s[1..]);
    } else if |s| == 1 {
      assert GermanCapitals(s[1..]) == "";
    }
  }
}
