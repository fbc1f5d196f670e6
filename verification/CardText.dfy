/**
 * The text layer of the contact card codec (contacts/vcard.ts): unfolding a card into lines, and the escape
 * and unescape passes its property values go through.
 */
module CardText {
  import opened Text
  import opened Folding

  // ---- unfolding ----

  function CrlfToLf(s: string): string {
    if s == "" then ""
    else if s[0] == '\r' && |s| > 1 && s[1] == '\n' then ['\n'] + CrlfToLf(s[2..])
    else [s[0]] + CrlfToLf(s[1..])
  }

  predicate IsFold(s: string) {
    |s| > 1 && s[0] == '\n' && (s[1] == ' ' || s[1] == '\t')
  }

  function DropFolds(s: string): string {
    if s == "" then "" else if IsFold(s) then DropFolds(s[2..]) else [s[0]] + DropFolds(s[1..])
  }

  /** Trim every line and drop the empty ones. */
  function Cleaned(ls: seq<string>): (r: seq<string>)
    ensures forall k :: 0 <= k < |r| ==> r[k] != ""
  {
    if ls == [] then []
    else
      var t := Trim(ls[0]);
      (if t == "" then [] else [t]) + Cleaned(ls[1..])
  }

  function Unfold(card: string): seq<string> {
    Cleaned(SplitFrom("", DropFolds(CrlfToLf(card))))
  }

  function Terminated(ls: seq<string>, eol: string): string {
    if ls == [] then "" else ls[0] + (eol + Terminated(ls[1..], eol))
  }

  lemma {:induction false} JoinTerminated(ls: seq<string>, eol: string)
    requires ls != []
    ensures Join(ls, eol) + eol == Terminated(ls, eol)
  {
    var front, last := ls[..|ls| - 1], ls[|ls| - 1];
    TerminatedAppend(front, last, eol);
    assert front + [last] == ls;
    if front != [] {
      JoinTerminated(front, eol);
      assert Join(ls, eol) + eol == (Join(front, eol) + eol) + (last + eol);
    } else {
      assert "" + (last + eol) == last + eol;
    }
  }

  lemma {:induction false} TerminatedAppend(ls: seq<string>, l: string, eol: string)
    ensures Terminated(ls + [l], eol) == Terminated(ls, eol) + (l + eol)
  {
    if ls == [] {
      assert [l][1..] == [] && eol + "" == eol;
    } else {
      TerminatedAppend(ls[1..], l, eol);
      assert (ls + [l])[1..] == ls[1..] + [l];
      Associates(eol, Terminated(ls[1..], eol), l + eol);
      Associates(ls[0], eol + Terminated(ls[1..], eol), l + eol);
    }
  }

  /** A line as the writer produces it: no line feed inside, and not a continuation. */
  predicate Whole(l: string) {
    '\n' !in l && !Continues(l)
  }

  lemma {:induction false} LineEnd(a: string, rest: string)
    requires '\n' !in a
    ensures CrlfToLf(a + (CRLF + rest)) == a + ("\n" + CrlfToLf(rest))
  {
    hide Continues;
    var s := a + (CRLF + rest);
    if a == "" {
      assert s == CRLF + rest && s[2..] == rest;
      assert a + ("\n" + CrlfToLf(rest)) == "\n" + CrlfToLf(rest);
    } else {
      LineEnd(a[1..], rest);
      assert s[0] == a[0] && s[1..] == a[1..] + (CRLF + rest);
      assert s[1] == if |a| > 1 then a[1] else '\r';
      Associates([a[0]], a[1..], "\n" + CrlfToLf(rest));
      assert [a[0]] + a[1..] == a;
    }
  }

  lemma {:induction false} NoFold(a: string, rest: string)
    requires '\n' !in a && !Continues(rest)
    ensures DropFolds(a + ("\n" + rest)) == a + ("\n" + DropFolds(rest))
  {
    var s := a + ("\n" + rest);
    if a == "" {
      assert s == "\n" + rest && s[1..] == rest;
      assert rest != "" ==> s[1] == rest[0];
      assert a + ("\n" + DropFolds(rest)) == "\n" + DropFolds(rest);
    } else {
      NoFold(a[1..], rest);
      assert s[0] == a[0] && s[1..] == a[1..] + ("\n" + rest);
      Associates([a[0]], a[1..], "\n" + DropFolds(rest));
      assert [a[0]] + a[1..] == a;
    }
  }

  lemma {:induction false} SplitTerminated(ls: seq<string>)
    requires forall k :: 0 <= k < |ls| ==> Whole(ls[k])
    ensures CrlfToLf(Terminated(ls, CRLF)) == Terminated(ls, "\n")
    ensures DropFolds(Terminated(ls, "\n")) == Terminated(ls, "\n")
    ensures SplitFrom("", Terminated(ls, "\n")) == ls + [""]
  {
    hide CrlfToLf, DropFolds, Continues;
    if ls == [] {
      EmptyText();
    } else {
      var rest := Terminated(ls[1..], "\n");
      SplitTerminated(ls[1..]);
      LineEnd(ls[0], Terminated(ls[1..], CRLF));
      StartsWhole(ls[1..]);
      NoFold(ls[0], rest);
      SplitAppend("", ls[0], rest);
      SplitUnbroken("", ls[0]);
      Associates(ls[0], "\n", rest);
      assert "" + ls[0] == ls[0];
      assert [ls[0]] + (ls[1..] + [""]) == ls + [""];
    }
  }

  lemma {:induction false} EmptyText()
    ensures CrlfToLf("") == "" && DropFolds("") == "" && SplitFrom("", "") == [""]
  {
  }

  lemma {:induction false} StartsWhole(ls: seq<string>)
    requires forall k :: 0 <= k < |ls| ==> Whole(ls[k])
    ensures !Continues(Terminated(ls, "\n"))
  {
    if ls != [] {
      var t := Terminated(ls, "\n");
      assert t[0] == if ls[0] == "" then '\n' else ls[0][0];
    }
  }

  lemma {:induction false} CleanedAppend(a: seq<string>, b: seq<string>)
    ensures Cleaned(a + b) == Cleaned(a) + Cleaned(b)
  {
    hide Trim;
    if a == [] {
      assert a + b == b;
    } else {
      CleanedAppend(a[1..], b);
      assert (a + b)[1..] == a[1..] + b && (a + b)[0] == a[0];
    }
  }

  /** Unfolding what the writer joined gives its lines back, trimmed, without the empty ones. */
  lemma {:induction false} UnfoldJoined(ls: seq<string>)
    requires ls != [] && forall k :: 0 <= k < |ls| ==> Whole(ls[k])
    ensures Unfold(Join(ls, CRLF) + CRLF) == Cleaned(ls)
  {
    hide Join, Terminated, Whole, DropFolds, CrlfToLf, SplitFrom, Cleaned;
    JoinTerminated(ls, CRLF);
    SplitTerminated(ls);
    CleanedEnd(ls);
  }

  lemma {:induction false} CleanedEnd(ls: seq<string>)
    ensures Cleaned(ls + [""]) == Cleaned(ls)
  {
    CleanedAppend(ls, [""]);
    assert [""][1..] == [];
  }

  lemma {:induction false} CleanedIdle(ls: seq<string>)
    requires forall k :: 0 <= k < |ls| ==> ls[k] != "" && Trimmed(ls[k])
    ensures Cleaned(ls) == ls
  {
    hide Trim;
    if ls != [] {
      TrimIdle(ls[0]);
      CleanedIdle(ls[1..]);
      assert [ls[0]] + ls[1..] == ls;
    }
  }

  /** Unfolded lines are non-empty, trimmed and free of line feeds. */
  lemma {:induction false} UnfoldedLines(card: string)
    ensures forall k :: 0 <= k < |Unfold(card)| ==> Unfold(card)[k] != "" && Trimmed(Unfold(card)[k]) && Whole(Unfold(card)[k])
  {
    hide DropFolds, CrlfToLf, Cleaned, SplitFrom, Trimmed;
    var ls := SplitFrom("", DropFolds(CrlfToLf(card)));
    SplitHasNoBreak("", DropFolds(CrlfToLf(card)));
    CleanedLines(ls);
  }

  lemma {:induction false} SplitHasNoBreak(cur: string, s: string)
    requires '\n' !in cur
    ensures forall k :: 0 <= k < |SplitFrom(cur, s)| ==> '\n' !in SplitFrom(cur, s)[k]
    decreases |s|
  {
    if s != "" {
      if s[0] == '\n' { SplitHasNoBreak("", s[1..]); } else { SplitHasNoBreak(cur + [s[0]], s[1..]); }
    }
  }

  lemma {:induction false} TrimmedIsWhole(l: string)
    requires '\n' !in l
    ensures Trimmed(Trim(l)) && Whole(Trim(l))
  {
    TrimTrims(l);
    assert forall c :: c in TrimStart(l) ==> c in l;
    assert forall c :: c in Trim(l) ==> c in TrimStart(l);
  }

  lemma {:induction false} CleanedLines(ls: seq<string>)
    requires forall k :: 0 <= k < |ls| ==> '\n' !in ls[k]
    ensures forall k :: 0 <= k < |Cleaned(ls)| ==> Cleaned(ls)[k] != "" && Trimmed(Cleaned(ls)[k]) && Whole(Cleaned(ls)[k])
  {
    hide Trim, Trimmed, Whole;
    if ls != [] {
      TrimmedIsWhole(ls[0]);
      CleanedLines(ls[1..]);
    }
  }

  // ---- a folded card is the card ----

  predicate EndsIn(s: string, c: char) {
    s != "" && s[|s| - 1] == c
  }

  predicate Begins(s: string, c: char) {
    s != "" && s[0] == c
  }

  lemma {:induction false} CrlfStep(c: char, s: string)
    ensures CrlfToLf([c] + s) == if c == '\r' && Begins(s, '\n') then ['\n'] + CrlfToLf(s[1..]) else [c] + CrlfToLf(s)
  {
    var t := [c] + s;
    assert t[1..] == s && (s != "" ==> t[1] == s[0] && t[2..] == s[1..]);
  }

  lemma {:induction false} Headed(a: string, b: string)
    requires a != ""
    ensures a == [a[0]] + a[1..] && a + b == [a[0]] + (a[1..] + b) && (a + b)[1..] == a[1..] + b
  {
  }

  lemma {:induction false} CrlfAppend(a: string, b: string)
    requires !(EndsIn(a, '\r') && Begins(b, '\n'))
    ensures CrlfToLf(a + b) == CrlfToLf(a) + CrlfToLf(b)
  {
    if a == "" {
      assert a + b == b && CrlfToLf("") == "";
    } else {
      hide CrlfToLf, Begins, EndsIn;
      var c, rest := a[0], a[1..];
      Headed(a, b);
      EndsRest(a, '\r');
      CrlfStep(c, rest);
      CrlfStep(c, rest + b);
      BeginsAppend(rest, b, '\n');
      if c == '\r' && Begins(rest, '\n') {
        BeginsMeans(rest, '\n');
        PairAppend(rest, b);
      } else {
        CrlfAppend(rest, b);
        Associates([c], CrlfToLf(rest), CrlfToLf(b));
      }
    }
  }

  /** After a return, its line feed and what follows. */
  lemma {:induction false} PairAppend(rest: string, b: string)
    requires rest != "" && rest[0] == '\n' && !(EndsIn(rest, '\r') && Begins(b, '\n'))
    ensures ['\n'] + CrlfToLf((rest + b)[1..]) == ['\n'] + CrlfToLf(rest[1..]) + CrlfToLf(b)
    decreases rest, 0
  {
    hide CrlfToLf, Begins, EndsIn;
    Headed(rest, b);
    EndsRest(rest, '\r');
    CrlfAppend(rest[1..], b);
    Associates(['\n'], CrlfToLf(rest[1..]), CrlfToLf(b));
  }

  lemma {:induction false} BeginsMeans(s: string, c: char)
    requires Begins(s, c)
    ensures s != "" && s[0] == c
  {
  }

  lemma {:induction false} EndsRest(s: string, c: char)
    requires s != ""
    ensures EndsIn(s, c) <==> if |s| == 1 then s[0] == c else EndsIn(s[1..], c)
    ensures !EndsIn("", c)
  {
  }

  lemma {:induction false} BeginsAppend(a: string, b: string, c: char)
    ensures Begins(a + b, c) <==> if a == "" then Begins(b, c) else Begins(a, c)
  {
    if a == "" { assert a + b == b; }
  }

  lemma {:induction false} FoldsAppend(a: string, b: string)
    requires !(EndsIn(a, '\n') && (Begins(b, ' ') || Begins(b, '\t')))
    ensures DropFolds(a + b) == DropFolds(a) + DropFolds(b)
  {
    if a == "" {
      assert a + b == b;
    } else {
      assert |a| > 1 ==> (a + b)[1] == a[1];
      assert |a| == 1 && b != "" ==> (a + b)[1] == b[0];
      if IsFold(a) {
        FoldsAppend(a[2..], b);
        assert (a + b)[2..] == a[2..] + b;
      } else {
        FoldsAppend(a[1..], b);
        assert (a + b)[1..] == a[1..] + b;
      }
    }
  }

  /** The line ends keep what a text begins and ends with. */
  lemma {:induction false} CrlfEnds(s: string)
    ensures EndsIn(CrlfToLf(s), '\n') <==> EndsIn(s, '\n')
    ensures (Begins(CrlfToLf(s), ' ') <==> Begins(s, ' ')) && (Begins(CrlfToLf(s), '\t') <==> Begins(s, '\t'))
    ensures CrlfToLf(s) == "" <==> s == ""
  {
    if s != "" {
      if s[0] == '\r' && |s| > 1 && s[1] == '\n' { CrlfEnds(s[2..]); } else { CrlfEnds(s[1..]); }
    }
  }

  /** A line end the reader knows. */
  predicate LineBreak(eol: string) {
    eol == CRLF || eol == "\n"
  }

  /** A line may be broken there: the pieces do not make up a line break or a fold by themselves. */
  predicate MayFold(x: string, eol: string, y: string) {
    && !(EndsIn(x, '\r') && (eol == "\n" || Begins(y, '\n')))
    && !(EndsIn(x, '\n') && (Begins(y, ' ') || Begins(y, '\t')))
  }

  /** A line broken anywhere and continued with a space or a tab is joined again, after either line end. */
  lemma {:induction false} FoldIsJoined(x: string, eol: string, c: char, y: string)
    requires LineBreak(eol) && (c == ' ' || c == '\t') && MayFold(x, eol, y)
    ensures Unfold(x + (eol + ([c] + y))) == Unfold(x + y)
  {
    hide Cleaned, SplitFrom;
    var rest := [c] + y;
    BreakNormalised(eol, c, y);
    CrlfAppend(x, eol + rest);
    CrlfAppend(x, y);
    CrlfEnds(x);
    CrlfEnds(y);
    var u, v := CrlfToLf(x), CrlfToLf(y);
    FoldsAppend(u, "\n" + ([c] + v));
    FoldsAppend(u, v);
    assert ("\n" + ([c] + v))[2..] == v;
  }

  lemma {:induction false} BreakNormalised(eol: string, c: char, y: string)
    requires LineBreak(eol) && (c == ' ' || c == '\t')
    ensures CrlfToLf(eol + ([c] + y)) == "\n" + ([c] + CrlfToLf(y))
  {
    var rest := [c] + y;
    assert rest[1..] == y;
    assert CrlfToLf(rest) == [c] + CrlfToLf(y);
    var s := eol + rest;
    if eol == CRLF {
      assert s[2..] == rest;
    } else {
      assert s[1..] == rest;
    }
  }

  // ---- escaping ----

  /** The writer's four passes. */
  function EscapeValue(v: string): string {
    ReplaceChar(ReplaceChar(ReplaceChar(ReplaceChar(v, '\\', "\\\\"), '\n', "\\n"), ',', "\\,"), ';', "\\;")
  }

  lemma {:induction false} EscapeAppend(a: string, b: string)
    ensures EscapeValue(a + b) == EscapeValue(a) + EscapeValue(b)
  {
    hide ReplaceChar;
    var a1, b1 := ReplaceChar(a, '\\', "\\\\"), ReplaceChar(b, '\\', "\\\\");
    var a2, b2 := ReplaceChar(a1, '\n', "\\n"), ReplaceChar(b1, '\n', "\\n");
    ReplaceAppend(a, b, '\\', "\\\\");
    ReplaceAppend(a1, b1, '\n', "\\n");
    ReplaceAppend(a2, b2, ',', "\\,");
    ReplaceAppend(ReplaceChar(a2, ',', "\\,"), ReplaceChar(b2, ',', "\\,"), ';', "\\;");
  }

  lemma {:induction false} ReplaceOne(s: string, c: char, r: string)
    requires |s| <= 2
    ensures |s| == 1 ==> ReplaceChar(s, c, r) == Substitute(s[0], c, r)
    ensures |s| == 2 ==> ReplaceChar(s, c, r) == Substitute(s[0], c, r) + Substitute(s[1], c, r)
  {
    if s != "" {
      assert s[1..] == if |s| == 1 then "" else [s[1]];
      assert |s| == 2 ==> s[1..][1..] == "" && ReplaceChar(s[1..], c, r) == Substitute(s[1], c, r);
    }
  }

  lemma {:induction false} EscapeChar(c: char)
    ensures EscapeValue([c]) == EscapeOne(c)
  {
    hide ReplaceChar;
    var s1 := Substitute(c, '\\', "\\\\");
    var s2 := if c == '\n' then "\\n" else s1;
    var s3 := if c == ',' then "\\," else s2;
    ReplaceOne([c], '\\', "\\\\");
    ReplaceOne(s1, '\n', "\\n");
    assert ReplaceChar(s1, '\n', "\\n") == s2;
    ReplaceOne(s2, ',', "\\,");
    assert ReplaceChar(s2, ',', "\\,") == s3;
    ReplaceOne(s3, ';', "\\;");
  }

  /** Here too the chained passes amount to one character-wise escape. */
  lemma {:induction false} EscapeValueIsCharacterwise(v: string)
    ensures EscapeValue(v) == EscapeEach(v)
  {
    hide EscapeValue, EscapeOne;
    if v == "" {
      EscapeNothing();
    } else {
      EscapeValueIsCharacterwise(v[1..]);
      EscapeAppend([v[0]], v[1..]);
      EscapeChar(v[0]);
      assert v == [v[0]] + v[1..];
    }
  }

  lemma {:induction false} EscapeNothing()
    ensures EscapeValue("") == "" && EscapeEach("") == ""
  {
  }

  predicate IsN(c: char) {
    c == 'n' || c == 'N'
  }

  function BreaksBack(s: string): string {
    if s == "" then ""
    else if s[0] == '\\' && |s| > 1 && IsN(s[1]) then ['\n'] + BreaksBack(s[2..])
    else [s[0]] + BreaksBack(s[1..])
  }

  function DropEscapes(s: string): string {
    if s == "" then ""
    else if s[0] == '\\' && |s| > 1 && (s[1] == ',' || s[1] == ';' || s[1] == '\\') then [s[1]] + DropEscapes(s[2..])
    else [s[0]] + DropEscapes(s[1..])
  }

  function Passed(s: string): string {
    DropEscapes(BreaksBack(s))
  }

  /** The reader's two passes, then a trim. */
  function UnescapeText(v: string): string {
    Trim(Passed(v))
  }

  /** Backslash, semicolon and comma get a backslash in front, a line feed becomes one and an `n`, and any other character stays. */
  lemma {:induction false} EscapeForms(c: char)
    ensures EscapeValue([c]) == if c == '\\' || c == ';' || c == ',' then ['\\', c] else if c == '\n' then "\\n" else [c]
  {
    EscapeChar(c);
  }

  /** What the reader makes of one escape: a line feed of `n` in either case, the mark itself of a comma, a semicolon or a backslash, and nothing of others. */
  lemma {:induction false} PassedForms(c: char)
    ensures Passed(['\\', c]) == if c == 'n' || c == 'N' then "\n" else if c == ',' || c == ';' || c == '\\' then [c] else ['\\', c]
    ensures c != '\\' ==> Passed([c]) == [c]
  {
    var s := ['\\', c];
    assert s[1..] == [c] && s[2..] == "" && [c][1..] == "" && "\n"[1..] == "";
    assert BreaksBack([c]) == [c] + BreaksBack("") == [c];
    assert BreaksBack(s) == if IsN(c) then "\n" else s by {
      assert ['\n'] + BreaksBack("") == "\n" && ['\\'] + [c] == s;
    }
    assert DropEscapes([c]) == [c] + DropEscapes("") == [c];
    assert ['\\'] + DropEscapes([c]) == s && DropEscapes("\n") == "\n" + DropEscapes("");
  }

  predicate EscapedN(v: string, k: nat) {
    k + 1 < |v| && v[k] == '\\' && IsN(v[k + 1])
  }

  /** No backslash stands before an `n`. */
  predicate Clean(v: string) {
    forall k: nat :: k < |v| ==> !EscapedN(v, k)
  }

  /** The text with every `n` after a backslash turned into a line feed. */
  function Garbled(v: string): (r: string)
    ensures |r| == |v| && forall k :: 0 <= k < |v| ==> r[k] == if k > 0 && EscapedN(v, k - 1) then '\n' else v[k]
  {
    seq(|v|, k requires 0 <= k < |v| => if k > 0 && EscapedN(v, k - 1) then '\n' else v[k])
  }

  lemma {:induction false} GarbledStep(v: string)
    requires v != ""
    ensures EscapedN(v, 0) ==> Garbled(v) == "\\\n" + Garbled(v[2..])
    ensures !EscapedN(v, 0) ==> Garbled(v) == [v[0]] + Garbled(v[1..])
  {
    if EscapedN(v, 0) {
      var t := "\\\n" + Garbled(v[2..]);
      forall k | 0 <= k < |v| ensures Garbled(v)[k] == t[k] {
        if k > 2 { assert EscapedN(v, k - 1) <==> EscapedN(v[2..], k - 3); }
      }
    } else {
      var t := [v[0]] + Garbled(v[1..]);
      forall k | 0 <= k < |v| ensures Garbled(v)[k] == t[k] {
        if k > 1 { assert EscapedN(v, k - 1) <==> EscapedN(v[1..], k - 2); }
      }
    }
  }

  /** What the reader's passes make of the writer's output. */
  lemma {:induction false} PassedEscape(v: string)
    ensures Passed(EscapeEach(v)) == Garbled(v)
  {
    hide Garbled;
    if v != "" {
      GarbledStep(v);
      var e := EscapeEach(v);
      if EscapedN(v, 0) {
        PassedEscape(v[2..]);
        PairStep(v);
      } else {
        PassedEscape(v[1..]);
        CharStep(v);
      }
    }
  }

  lemma {:induction false} PairStep(v: string)
    requires EscapedN(v, 0)
    ensures Passed(EscapeEach(v)) == "\\\n" + Passed(EscapeEach(v[2..]))
  {
    var rest := EscapeEach(v[2..]);
    var tail := v[1..];
    assert tail[0] == v[1] && tail[1..] == v[2..];
    assert EscapeEach(tail) == [v[1]] + rest;
    var e := EscapeEach(v);
    assert e == "\\\\" + ([v[1]] + rest);
    assert e[1..] == "\\" + ([v[1]] + rest) && e[1..][2..] == rest;
    var f := BreaksBack(rest);
    assert BreaksBack(e) == ['\\'] + (['\n'] + f);
    var g := BreaksBack(e);
    assert g[1..] == ['\n'] + f && g[1..][1..] == f;
    assert DropEscapes(g[1..]) == ['\n'] + DropEscapes(f);
    assert "\\\n" == ['\\'] + ['\n'];
  }

  lemma {:induction false} CharStep(v: string)
    requires v != "" && !EscapedN(v, 0)
    ensures Passed(EscapeEach(v)) == [v[0]] + Passed(EscapeEach(v[1..]))
  {
    var rest := EscapeEach(v[1..]);
    assert v[1..] != "" ==> rest[0] == EscapeOne(v[1])[0];
    if v[0] == '\\' || v[0] == ',' || v[0] == ';' {
      EscapedStep(v[0], rest);
    } else {
      OrdinaryStep(v[0], rest);
    }
  }

  lemma {:induction false} EscapedStep(c: char, rest: string)
    requires c == '\\' || c == ',' || c == ';'
    requires c == '\\' ==> rest == "" || !IsN(rest[0])
    ensures Passed(['\\', c] + rest) == [c] + Passed(rest)
  {
    var e, f := ['\\', c] + rest, BreaksBack(rest);
    assert e[1..] == [c] + rest && e[1..][1..] == rest;
    assert BreaksBack(e[1..]) == [c] + f;
    assert BreaksBack(e) == ['\\'] + ([c] + f);
    assert BreaksBack(e)[2..] == f;
  }

  lemma {:induction false} OrdinaryStep(c: char, rest: string)
    requires c != '\\' && c != ',' && c != ';'
    ensures Passed(EscapeOne(c) + rest) == [c] + Passed(rest)
  {
    var e, f := EscapeOne(c) + rest, BreaksBack(rest);
    if c == '\n' {
      assert e == "\\n" + rest && e[2..] == rest;
    } else {
      assert e == [c] + rest && e[1..] == rest;
    }
    assert BreaksBack(e) == [c] + f && ([c] + f)[1..] == f;
  }

  /** Where trimming starts is the same before and after garbling. */
  lemma {:induction false} TrimStartGarbled(v: string)
    ensures TrimStart(Garbled(v)) == Garbled(TrimStart(v))
  {
    if v != "" && IsSpace(v[0]) {
      GarbledStep(v);
      TrimStartGarbled(v[1..]);
      assert Garbled(v)[1..] == Garbled(v[1..]);
    }
  }

  lemma {:induction false} TrimEndKeeps(s: string, k: nat)
    requires k < |s| && !IsSpace(s[k])
    ensures k < |TrimEnd(s)|
  {
    if IsSpace(s[|s| - 1]) { TrimEndKeeps(s[..|s| - 1], k); }
  }

  lemma {:induction false} CleanWhole(v: string)
    requires Clean(v)
    ensures Garbled(v) == v
  {
    forall k | 0 <= k < |v| ensures Garbled(v)[k] == v[k] {
      if k > 0 { assert !EscapedN(v, k - 1); }
    }
  }

  lemma {:induction false} CleanAfterTrimStart(v: string)
    ensures Clean(TrimStart(v)) <==> Clean(v)
  {
    if v != "" && IsSpace(v[0]) {
      CleanAfterTrimStart(v[1..]);
      var t := v[1..];
      if Clean(v) {
        forall k: nat | k < |t| ensures !EscapedN(t, k) { assert !EscapedN(v, k + 1); }
      }
      if Clean(t) {
        forall k: nat | k < |v| ensures !EscapedN(v, k) {
          if k > 0 { assert !EscapedN(t, k - 1); }
        }
      }
    }
  }

  lemma {:induction false} GarbledTrimExact(t: string)
    ensures TrimEnd(Garbled(t)) == TrimEnd(t) <==> Clean(t)
  {
    hide TrimEnd, IsSpace;
    if Clean(t) {
      CleanWhole(t);
    } else {
      var k: nat :| k < |t| && EscapedN(t, k);
      var g := Garbled(t);
      NIsNoSpace(t[k + 1]);
      TrimEndKeeps(t, k + 1);
      assert TrimEnd(t)[k + 1] == t[k + 1];
      assert EscapedN(t, k + 1 - 1) && g[k + 1] == '\n';
      assert TrimEnd(g) <= g;
    }
  }

  lemma {:induction false} NIsNoSpace(c: char)
    ensures IsN(c) ==> !IsSpace(c)
  {
  }

  /** A value survives escaping and unescaping, up to surrounding space, exactly when no backslash stands before an `n`. */
  lemma {:induction false} TextRoundTripExact(v: string)
    ensures UnescapeText(EscapeValue(v)) == Trim(v) <==> Clean(v)
  {
    hide EscapeValue, EscapeEach, Passed, TrimStart, TrimEnd, Clean, Garbled;
    EscapeValueIsCharacterwise(v);
    PassedEscape(v);
    TrimStartGarbled(v);
    CleanAfterTrimStart(v);
    GarbledTrimExact(TrimStart(v));
  }

  /** Trailing space a line loses to trimming is space the value would lose anyway. */
  lemma {:induction false} UnescapeTrimmed(v: string)
    ensures UnescapeText(TrimEnd(v)) == UnescapeText(v)
  {
    hide Trim, Passed;
    if v != "" && IsSpace(v[|v| - 1]) {
      var front := v[..|v| - 1];
      UnescapeTrimmed(front);
      PassedSpace(front, v[|v| - 1]);
      assert front + [v[|v| - 1]] == v;
      TrimSpace(Passed(front), v[|v| - 1]);
    }
  }

  lemma {:induction false} TrimSpace(s: string, c: char)
    requires IsSpace(c)
    ensures Trim(s + [c]) == Trim(s)
  {
    hide TrimStart, IsSpace;
    TrimStartSpace(s, c);
    var t := TrimStart(s);
    assert (t + [c])[..|t|] == t;
  }

  lemma {:induction false} TrimStartSpace(s: string, c: char)
    requires IsSpace(c)
    ensures TrimStart(s + [c]) == if TrimStart(s) == "" then "" else TrimStart(s) + [c]
  {
    if s == "" {
      assert s + [c] == [c] && [c][1..] == "";
    } else {
      assert (s + [c])[1..] == s[1..] + [c];
      if IsSpace(s[0]) { TrimStartSpace(s[1..], c); }
    }
  }

  lemma {:induction false} PassedSpace(s: string, c: char)
    requires IsSpace(c)
    ensures Passed(s + [c]) == Passed(s) + [c]
  {
    hide BreaksBack, DropEscapes, IsSpace;
    BreaksBackSpace(s, c);
    DropEscapesSpace(BreaksBack(s), c);
  }

  lemma {:induction false} BreaksBackSpace(s: string, c: char)
    requires IsSpace(c)
    ensures BreaksBack(s + [c]) == BreaksBack(s) + [c]
  {
    var t := s + [c];
    if s == "" {
      assert t == [c] && [c][1..] == "";
    } else if s[0] == '\\' && |s| > 1 && IsN(s[1]) {
      assert t[2..] == s[2..] + [c] && t[0] == s[0] && t[1] == s[1];
      BreaksBackSpace(s[2..], c);
      Associates(['\n'], BreaksBack(s[2..]), [c]);
    } else {
      assert t[1..] == s[1..] + [c] && t[0] == s[0] && t[1] == if |s| > 1 then s[1] else c;
      BreaksBackSpace(s[1..], c);
      Associates([s[0]], BreaksBack(s[1..]), [c]);
    }
  }

  lemma {:induction false} DropEscapesSpace(s: string, c: char)
    requires IsSpace(c)
    ensures DropEscapes(s + [c]) == DropEscapes(s) + [c]
  {
    var t := s + [c];
    if s == "" {
      assert t == [c] && [c][1..] == "";
    } else if s[0] == '\\' && |s| > 1 && (s[1] == ',' || s[1] == ';' || s[1] == '\\') {
      assert t[2..] == s[2..] + [c] && t[0] == s[0] && t[1] == s[1];
      DropEscapesSpace(s[2..], c);
      Associates([s[1]], DropEscapes(s[2..]), [c]);
    } else {
      assert t[1..] == s[1..] + [c] && t[0] == s[0] && t[1] == if |s| > 1 then s[1] else c;
      DropEscapesSpace(s[1..], c);
      Associates([s[0]], DropEscapes(s[1..]), [c]);
    }
  }
}
