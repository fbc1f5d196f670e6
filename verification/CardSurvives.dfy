/**
 * The main results about contact cards (contacts/vcard.ts): what a printed or merged card parses to, which lines
 * a merge keeps, and that the last of two merges decides.
 */
module CardSurvives {
  import opened Wrappers
  import opened Text
  import opened Casing
  import opened Folding
  import opened CardText
  import opened Cards
  import opened CardRoundTrip
  import opened CardFields

  // ---- section by section ----

  lemma {:induction false} NothingRead(cs: CaseMap, r: Reading)
    ensures ReadFrom(cs, r, Cleaned([])) == r
  {
  }

  /** One printed property without parameters. */
  lemma {:induction false} PropertyRead(cs: CaseMap, r: Reading, name: string, value: string)
    requires PlainName(name)
    ensures ReadFrom(cs, r, Cleaned([Line(name, value)])) == Read(cs, r, VLine(Named(name), [], TrimEnd(value)))
  {
    hide ReadFrom, Cleaned, Named, ParseLine, Line, IsSpace, TrimEnd, Read;
    PlainNoSpace(name);
    ReadOne(cs, r, name, value);
    PlainHead(cs, name, TrimEnd(value));
  }

  lemma {:induction false} FieldRead(cs: CaseMap, r: Reading, name: string, field: Option<string>)
    requires PlainName(name)
    requires Named(name).Nickname? || Named(name).Title? || Named(name).Birthday? || Named(name).Note?
    ensures ReadFrom(cs, r, Cleaned(OptionalLine(name, field, "")))
            == if FieldRaw(field).None? then r
               else match Named(name)
                 case Nickname => r.(card := r.card.(nickname := FieldRaw(field)))
                 case Title => r.(card := r.card.(title := FieldRaw(field)))
                 case Birthday => r.(card := r.card.(birthday := FieldRaw(field)))
                 case _ => r.(card := r.card.(note := FieldRaw(field)))
  {
    hide ReadFrom, Cleaned, Named, Line, TrimEnd, Trim, EscapeValue, UnescapeText, Trimmed;
    var v := Trim(TextOf(field));
    NothingRead(cs, r);
    PropertyRead(cs, r, name, EscapeValue(v) + "");
    assert EscapeValue(v) + "" == EscapeValue(v);
    UnescapeTrimmed(EscapeValue(v));
    TrimTrims(TextOf(field));
    if v != "" { NeverEmpty(v); }
  }

  lemma {:induction false} OrgRead(cs: CaseMap, r: Reading, field: Option<string>)
    requires r.card.org.None?
    ensures ReadFrom(cs, r, Cleaned(OptionalLine("ORG", field, ";"))) == r.(card := r.card.(org := OrgRaw(field)))
  {
    hide ReadFrom, Cleaned, Named, Line, TrimEnd, Trim, EscapeValue, UnescapeText, SplitAt, PlainName;
    var v := Trim(TextOf(field));
    Names();
    Properties();
    NothingRead(cs, r);
    PropertyRead(cs, r, "ORG", EscapeValue(v) + ";");
    EndsInSemicolon(EscapeValue(v));
  }

  lemma {:induction false} EndsInSemicolon(s: string)
    ensures TrimEnd(s + ";") == s + ";"
  {
    SemicolonIsNoSpace();
    assert (s + ";")[|s|] == ';';
  }

  lemma {:induction false} NameRead(cs: CaseMap, r: Reading, fn: string)
    requires r.structured.None?
    ensures var x := ReadFrom(cs, r, Cleaned(NameLines(fn)));
            && x.uid == r.uid && x.card == r.card.(name := Some(UnescapeText(EscapeValue(fn))))
            && x.structured == ReadName(NameValue(fn))
  {
    hide ReadFrom, Cleaned, Named, Line, TrimEnd, EscapeValue, UnescapeText, PlainName, ReadName, NameValue;
    Names();
    Properties();
    ReadCleanedAppend(cs, r, [Line("FN", EscapeValue(fn))], [Line("N", NameValue(fn))]);
    PropertyRead(cs, r, "FN", EscapeValue(fn));
    UnescapeTrimmed(EscapeValue(fn));
    PropertyRead(cs, ReadFrom(cs, r, Cleaned([Line("FN", EscapeValue(fn))])), "N", NameValue(fn));
    NameValueEnd(fn);
  }

  lemma {:induction false} NameValueEnd(fn: string)
    ensures TrimEnd(NameValue(fn)) == NameValue(fn)
  {
    hide TrimEnd, EscapeValue, Family, Given;
    EndsInSemicolon(NameValue(fn)[..|NameValue(fn)| - 1]);
    assert NameValue(fn)[..|NameValue(fn)| - 1] + ";" == NameValue(fn);
  }

  lemma {:induction false} NamePieces(fn: string)
    requires ';' !in Family(fn) && ';' !in Given(fn)
    ensures var p := SplitAt("", NameValue(fn), ';'); |p| > 1 && p[0] == EscapeValue(Family(fn)) && p[1] == EscapeValue(Given(fn))
  {
    hide SplitAt, EscapeValue, Family, Given;
    EscapedSeparator(Family(fn), ';');
    EscapedSeparator(Given(fn), ';');
    SplitWhere("", EscapeValue(Family(fn)), Semi(EscapeValue(Given(fn)), ";;"), ';');
    SplitWhere("", EscapeValue(Given(fn)), ";;", ';');
    assert "" + EscapeValue(Family(fn)) == EscapeValue(Family(fn)) && "" + EscapeValue(Given(fn)) == EscapeValue(Given(fn));
  }

  /** A word of a text. */
  predicate Word(w: string, text: string) {
    w != "" && forall c :: c in w ==> !IsSpace(c) && c in text
  }

  predicate AllWords(ws: seq<string>, text: string) {
    forall k :: 0 <= k < |ws| ==> Word(ws[k], text)
  }

  lemma {:induction false} WordsOf(cur: string, s: string, text: string)
    requires (forall c :: c in cur ==> !IsSpace(c) && c in text) && forall c :: c in s ==> c in text
    ensures AllWords(Words(cur, s), text)
    decreases |s|
  {
    hide IsSpace;
    if s != "" {
      if IsSpace(s[0]) { WordsOf("", s[1..], text); } else { WordsOf(cur + [s[0]], s[1..], text); }
    }
  }

  lemma {:induction false} JoinedWords(ws: seq<string>, text: string)
    requires ws != [] && AllWords(ws, text)
    ensures var j := Join(ws, " ");
            j != "" && !IsSpace(j[0]) && !IsSpace(j[|j| - 1]) && forall c :: c in j ==> c == ' ' || c in text
  {
    hide IsSpace;
    var last := ws[|ws| - 1];
    assert Word(last, text) && last[0] in last && last[|last| - 1] in last;
    if |ws| > 1 {
      var front := ws[..|ws| - 1];
      assert forall k :: 0 <= k < |front| ==> front[k] == ws[k];
      JoinedWords(front, text);
    }
  }

  /** A trimmed text with a space inside has more than one word. */
  lemma {:induction false} OneWordOnly(cur: string, s: string)
    requires (forall c :: c in cur ==> !IsSpace(c)) && cur + s != "" && |Words(cur, s)| <= 1
    requires !IsSpace((cur + s)[0]) && !IsSpace((cur + s)[|cur + s| - 1])
    ensures Words(cur, s) == [cur + s]
    decreases |s|
  {
    hide IsSpace;
    if s == "" {
      assert cur + s == cur;
    } else {
      assert (cur + s)[|cur + s| - 1] == s[|s| - 1];
      assert (cur + s)[0] == if cur == "" then s[0] else cur[0];
      if IsSpace(s[0]) {
        SomeWord("", s[1..]);
      } else {
        assert cur + [s[0]] + s[1..] == cur + s;
        OneWordOnly(cur + [s[0]], s[1..]);
      }
    }
  }

  lemma {:induction false} SomeWord(cur: string, s: string)
    requires cur != "" || (s != "" && !IsSpace(s[|s| - 1])) || (exists k :: 0 <= k < |s| && !IsSpace(s[k]))
    ensures Words(cur, s) != []
    decreases |s|
  {
    hide IsSpace;
    if s != "" {
      if IsSpace(s[0]) {
        if cur == "" {
          var k :| 0 <= k < |s| && !IsSpace(s[k]);
          assert s[1..][k - 1] == s[k];
          SomeWord("", s[1..]);
        }
      } else {
        SomeWord(cur + [s[0]], s[1..]);
      }
    }
  }

  /** Parts divided by a character that is neither a backslash nor an `n` are clean together exactly if each is. */
  lemma {:induction false} CleanAround(a: string, c: char, b: string)
    requires c != '\\' && !IsN(c)
    ensures Clean(a + [c] + b) <==> Clean(a) && Clean(b)
  {
    var all, n := a + [c] + b, |a|;
    assert all[n] == c;
    assert forall k :: 0 <= k < |a| ==> all[k] == a[k];
    assert forall k :: 0 <= k < |b| ==> all[n + 1 + k] == b[k];
    if Clean(all) {
      forall k: nat | k < |a| ensures !EscapedN(a, k) { assert !EscapedN(all, k); }
      forall k: nat | k < |b| ensures !EscapedN(b, k) { assert !EscapedN(all, n + 1 + k); }
    }
    if Clean(a) && Clean(b) {
      forall k: nat | k < |all| ensures !EscapedN(all, k) {
        if k < n { assert !EscapedN(a, k); }
        if k > n { assert !EscapedN(b, k - n - 1); }
      }
    }
  }

  predicate AllClean(ws: seq<string>) {
    forall k :: 0 <= k < |ws| ==> Clean(ws[k])
  }

  lemma {:induction false} AllCleanJoined(ws: seq<string>)
    ensures AllClean(ws) <==> Clean(Join(ws, " "))
  {
    hide Clean;
    if ws == [] {
      NothingIsClean();
    } else {
      var front, last := ws[..|ws| - 1], ws[|ws| - 1];
      JoinLast(ws);
      AllCleanJoined(front);
      assert forall k :: 0 <= k < |front| ==> front[k] == ws[k];
      assert AllClean(ws) <==> AllClean(front) && Clean(last);
      SpaceDivides();
      if |ws| > 1 {
        CleanAround(Join(front, " "), ' ', last);
      }
    }
  }

  lemma {:induction false} SpaceDivides()
    ensures forall c :: IsSpace(c) ==> c != '\\' && !IsN(c)
    ensures IsSpace(' ')
  {
  }

  lemma {:induction false} AllCleanAppend(a: seq<string>, b: seq<string>)
    ensures AllClean(a + b) <==> AllClean(a) && AllClean(b)
  {
    hide Clean;
    assert forall k :: 0 <= k < |a| ==> (a + b)[k] == a[k];
    assert forall k :: 0 <= k < |b| ==> (a + b)[|a| + k] == b[k];
    if AllClean(a) && AllClean(b) {
      forall k | 0 <= k < |a + b| ensures Clean((a + b)[k]) {
        if k >= |a| { assert (a + b)[k] == b[k - |a|]; }
      }
    }
  }

  lemma {:induction false} AllCleanOne(w: string)
    ensures AllClean(OneWord(w)) <==> Clean(w)
  {
    hide Clean;
    NothingIsClean();
    assert [w][0] == w;
  }

  function OneWord(w: string): seq<string> {
    if w == "" then [] else [w]
  }

  lemma {:induction false} WordsStep(cur: string, s: string)
    ensures s == "" ==> Words(cur, s) == OneWord(cur)
    ensures s != "" && IsSpace(s[0]) ==> Words(cur, s) == OneWord(cur) + Words("", s[1..])
    ensures s != "" && !IsSpace(s[0]) ==> Words(cur, s) == Words(cur + [s[0]], s[1..])
  {
    hide IsSpace;
  }

  lemma {:induction false} WordsClean(cur: string, s: string)
    ensures AllClean(Words(cur, s)) <==> Clean(cur + s)
    decreases |s|
  {
    hide IsSpace, IsN, Clean, AllClean, Words, OneWord;
    SpaceDivides();
    AllCleanOne(cur);
    WordsStep(cur, s);
    if s == "" {
      assert cur + s == cur;
    } else if IsSpace(s[0]) {
      WordsClean("", s[1..]);
      assert "" + s[1..] == s[1..];
      assert cur + s == cur + [s[0]] + s[1..];
      CleanAround(cur, s[0], s[1..]);
      AllCleanAppend(OneWord(cur), Words("", s[1..]));
    } else {
      assert cur + [s[0]] + s[1..] == cur + s;
      WordsClean(cur + [s[0]], s[1..]);
    }
  }

  lemma {:induction false} WordsKeep(cur: string, s: string, c: char) returns (k: nat)
    requires !IsSpace(c) && (c in cur || c in s)
    ensures k < |Words(cur, s)| && c in Words(cur, s)[k]
    decreases |s|
  {
    hide IsSpace, Words;
    WordsStep(cur, s);
    if s == "" {
      k := 0;
    } else {
      assert s == [s[0]] + s[1..];
      if !IsSpace(s[0]) {
        k := WordsKeep(cur + [s[0]], s[1..], c);
      } else if c in cur {
        k := 0;
      } else {
        k := WordsKeep("", s[1..], c);
        k := |OneWord(cur)| + k;
      }
    }
  }

  lemma {:induction false} JoinKeeps(ws: seq<string>, k: nat, c: char)
    requires k < |ws| && c in ws[k]
    ensures c in Join(ws, " ")
  {
    JoinLast(ws);
    if k < |ws| - 1 {
      assert ws[..|ws| - 1][k] == ws[k];
      JoinKeeps(ws[..|ws| - 1], k, c);
    }
  }

  /** What comes back is no longer than what was printed. */
  lemma {:induction false} NoLonger(v: string)
    ensures |UnescapeText(EscapeValue(v))| <= |v|
  {
    hide EscapeValue, EscapeEach, BreaksBack, DropEscapes;
    EscapeValueIsCharacterwise(v);
    PassedEscape(v);
  }

  lemma {:induction false} SameLengthHalves(a: string, b: string, c: string, d: string)
    requires |a| <= |c| && |b| <= |d| && |a + " " + b| >= |c + " " + d|
    ensures a + " " + b == c + " " + d <==> a == c && b == d
  {
    if a + " " + b == c + " " + d {
      assert (a + " " + b)[..|a|] == a && (c + " " + d)[..|c|] == c;
      assert (a + " " + b)[|a| + 1..] == b && (c + " " + d)[|c| + 1..] == d;
    }
  }

  lemma {:induction false} TrimShortens(s: string)
    ensures |Trim(s)| <= |s| && (|Trim(s)| == |s| ==> Trim(s) == s)
  {
  }

  /** A semicolon divides the name where it was printed, so none is ever read back. */
  lemma {:induction false} NoSemicolonRead(value: string)
    ensures ';' !in TextOf(ReadName(value))
  {
    hide Trim, UnescapeText, SplitAt, IsSpace;
    var parts := SplitAt("", value, ';');
    SplitFree("", value, ';');
    forall k | 0 <= k < |parts| ensures ';' !in UnescapeText(parts[k]) {
      PassedInvents(parts[k], ';');
    }
    var p := UnescapeAll(parts);
    assert ';' !in At(p, 0) && ';' !in At(p, 1);
    TrimInvents(At(p, 1) + " " + At(p, 0), ';');
  }

  /**
   * The structured name spells the name, its runs of space closed up to one, exactly when no backslash in it
   * stands before an `n` and it holds no semicolon.
   */
  lemma {:induction false} NameSpelledExact(fn: string)
    requires Trimmed(fn) && fn != ""
    ensures ReadName(NameValue(fn)) == Some(Join(Words("", fn), " ")) <==> Separated(fn, ';')
  {
    hide SplitAt, UnescapeText, EscapeValue, NameValue, Words, IsSpace, Clean, Trim, Join;
    var ws := Words("", fn);
    if ';' in fn {
      SemicolonIsNoSpace();
      var k := WordsKeep("", fn, ';');
      JoinKeeps(ws, k, ';');
      NoSemicolonRead(NameValue(fn));
    } else {
      WordsOf("", fn, fn);
      SomeWord("", fn);
      JoinedWords(ws, fn);
      WordsClean("", fn);
      assert "" + fn == fn;
      if |ws| > 1 {
        SeveralWordsSpelled(fn);
      } else {
        OneWordSpelled(fn);
      }
    }
  }

  lemma {:induction false} OneWordSpelled(fn: string)
    requires Trimmed(fn) && fn != "" && ';' !in fn && |Words("", fn)| <= 1
    ensures ReadName(NameValue(fn)) == Some(Join(Words("", fn), " ")) <==> Clean(fn)
  {
    hide SplitAt, UnescapeText, EscapeValue, NameValue, Words, IsSpace, Clean, Trim, Join;
    assert "" + fn == fn;
    OneWordOnly("", fn);
    NamePieces(fn);
    TextRoundTripExact(fn);
    TrimIdle(fn);
    EscapeNothing();
    NothingUnescaped();
    var back := UnescapeText(EscapeValue(fn));
    UnescapedTrimmed(EscapeValue(fn));
    TrimIdleSpace(back);
    JoinLast(Words("", fn));
  }

  lemma {:induction false} UnescapedTrimmed(v: string)
    ensures Trimmed(UnescapeText(v))
  {
    hide Trim, Trimmed, Passed;
    TrimTrims(Passed(v));
  }

  lemma {:induction false} SeveralWordsSpelled(fn: string)
    requires Trimmed(fn) && fn != "" && ';' !in fn && |Words("", fn)| > 1
    ensures ReadName(NameValue(fn)) == Some(Join(Words("", fn), " ")) <==> Clean(fn)
  {
    hide SplitAt, UnescapeText, EscapeValue, NameValue, Words, IsSpace, Clean, Trim, Join;
    var ws, n := Words("", fn), |Words("", fn)|;
    var family, given := ws[n - 1], Join(ws[..n - 1], " ");
    WordsOf("", fn, fn);
    JoinedWords(ws, fn);
    JoinedWords(ws[..n - 1], fn);
    assert Word(family, fn);
    assert family[0] in family && family[|family| - 1] in family;
    SpacePlain();
    NamePieces(fn);
    JoinLast(ws);
    TrimIdle(family);
    TrimIdle(given);
    TrimIdle(Join(ws, " "));
    SpelledCleans(fn, family, given);
    HalvesBack(family, given);
  }

  /** The halves are clean exactly if the name is. */
  lemma {:induction false} SpelledCleans(fn: string, family: string, given: string)
    requires |Words("", fn)| > 1 && family == Words("", fn)[|Words("", fn)| - 1] && given == Join(Words("", fn)[..|Words("", fn)| - 1], " ")
    ensures Clean(fn) <==> Clean(family) && Clean(given)
  {
    hide Words, Clean, Join;
    var ws := Words("", fn);
    var front := ws[..|ws| - 1];
    WordsClean("", fn);
    assert "" + fn == fn;
    AllCleanJoined(front);
    assert forall k :: 0 <= k < |front| ==> front[k] == ws[k];
    assert AllClean(ws) <==> AllClean(front) && Clean(ws[|ws| - 1]);
  }

  lemma {:induction false} HalvesBack(family: string, given: string)
    requires Trimmed(family) && Trimmed(given) && family != "" && given != ""
    ensures var g, f := UnescapeText(EscapeValue(given)), UnescapeText(EscapeValue(family));
            Nullable(Trim(g + " " + f)) == Some(given + " " + family) <==> Clean(family) && Clean(given)
  {
    hide UnescapeText, EscapeValue, IsSpace, Clean, Trim;
    var g, f := UnescapeText(EscapeValue(given)), UnescapeText(EscapeValue(family));
    TextRoundTripExact(family);
    TextRoundTripExact(given);
    TrimIdle(family);
    TrimIdle(given);
    NoLonger(family);
    NoLonger(given);
    TrimShortens(g + " " + f);
    if |g + " " + f| >= |given + " " + family| {
      SameLengthHalves(g, f, given, family);
    }
    assert (given + " " + family)[0] == given[0] && (given + " " + family)[|given + " " + family| - 1] == family[|family| - 1];
    TrimIdle(given + " " + family);
  }

  lemma {:induction false} SpacePlain()
    ensures ' ' != '\\' && ' ' != ';'
  {
  }

  lemma {:induction false} JoinLast(ws: seq<string>)
    requires ws != []
    ensures Join(ws, " ") == if |ws| == 1 then ws[0] else Join(ws[..|ws| - 1], " ") + " " + ws[|ws| - 1]
  {
  }

  lemma {:induction false} TrimIdleSpace(s: string)
    requires Trimmed(s)
    ensures Trim(s + " " + "") == s
  {
    hide Trim;
    TrimSpace(s, ' ');
    assert s + " " + "" == s + [' '];
    TrimIdle(s);
  }

  lemma {:induction false} EmailsRead(cs: CaseMap, r: Reading, es: seq<string>)
    ensures ReadFrom(cs, r, Cleaned(EmailLines(es))) == r.(card := r.card.(emails := r.card.emails + EmailsRaw(es)))
    decreases |es|
  {
    hide ReadFrom, Cleaned, Line, Trim, EscapeValue, UnescapeText;
    if es == [] {
      NothingRead(cs, r);
      assert r.card.emails + [] == r.card.emails;
    } else {
      var v := Trim(es[0]);
      var lines := if v == "" then [] else [Line("EMAIL;TYPE=INTERNET", EscapeValue(v))];
      var x := if v == "" then [] else [UnescapeText(EscapeValue(v))];
      ReadCleanedAppend(cs, r, lines, EmailLines(es[1..]));
      NothingRead(cs, r);
      if v != "" { EmailRead(cs, r, es[0]); }
      assert r.card.emails + [] == r.card.emails;
      EmailsRead(cs, r.(card := r.card.(emails := r.card.emails + x)), es[1..]);
      Associate(r.card.emails, x, EmailsRaw(es[1..]));
    }
  }

  lemma {:induction false} EmailRead(cs: CaseMap, r: Reading, e: string)
    requires Trim(e) != ""
    ensures ReadFrom(cs, r, Cleaned([Line("EMAIL;TYPE=INTERNET", EscapeValue(Trim(e)))]))
            == r.(card := r.card.(emails := r.card.emails + [UnescapeText(EscapeValue(Trim(e)))]))
  {
    hide ReadFrom, Cleaned, Named, Line, TrimEnd, Trim, EscapeValue, UnescapeText, ParseLine, PlainName, IsSpace, Capitals, Small, Trimmed, LabelType;
    Names();
    Properties();
    Internet();
    ReadOne(cs, r, "EMAIL;TYPE=INTERNET", EscapeValue(Trim(e)));
    TypedHeadParsed(cs, "EMAIL", "INTERNET", TrimEnd(EscapeValue(Trim(e))));
    assert "EMAIL" + ";TYPE=" + "INTERNET" == "EMAIL;TYPE=INTERNET";
    UnescapeTrimmed(EscapeValue(Trim(e)));
    TrimTrims(e);
    NeverEmpty(Trim(e));
  }

  lemma {:induction false} Internet()
    ensures Trimmed("INTERNET") && ':' !in "INTERNET" && ';' !in "INTERNET" && ',' !in "INTERNET"
    ensures !IsSpace("EMAIL;TYPE=INTERNET"[0])
  {
  }

  lemma {:induction false} TypedRead(cs: CaseMap, r: Reading, head: string, t: Typed)
    requires (head == "TEL" || head == "URL") && Trim(t.value) != ""
    ensures ReadFrom(cs, r, Cleaned([Line(TypedHead(cs, head, t.kind), EscapeValue(Trim(t.value)))]))
            == r.(card := if head == "TEL" then r.card.(phones := r.card.phones + [OneTyped(cs, head, t)])
                          else r.card.(urls := r.card.urls + [OneTyped(cs, head, t)]))
  {
    hide ReadFrom, Cleaned, Named, Line, TrimEnd, Trim, EscapeValue, UnescapeText, ParseLine, PlainName, IsSpace, TypedHead, LabelType;
    Names();
    Properties();
    TypedHeadStarts(cs, head, t.kind);
    ReadOne(cs, r, TypedHead(cs, head, t.kind), EscapeValue(Trim(t.value)));
    TypedProp(cs, head, t.kind, TrimEnd(EscapeValue(Trim(t.value))));
    TypedNeverEmpty(cs, head, t);
  }

  lemma {:induction false} AllTypedRead(cs: CaseMap, r: Reading, head: string, ts: seq<Typed>)
    requires head == "TEL" || head == "URL"
    ensures ReadFrom(cs, r, Cleaned(TypedLines(cs, head, ts)))
            == r.(card := if head == "TEL" then r.card.(phones := r.card.phones + TypedRaw(cs, head, ts))
                          else r.card.(urls := r.card.urls + TypedRaw(cs, head, ts)))
    decreases |ts|
  {
    hide ReadFrom, Cleaned, Line, Trim, EscapeValue, TypedHead, OneTyped;
    if ts == [] {
      NothingRead(cs, r);
      assert r.card.phones + [] == r.card.phones && r.card.urls + [] == r.card.urls;
    } else {
      var t := ts[0];
      var v := Trim(t.value);
      var lines := if v == "" then [] else [Line(TypedHead(cs, head, t.kind), EscapeValue(v))];
      var x := if v == "" then [] else [OneTyped(cs, head, t)];
      var c := if head == "TEL" then r.card.(phones := r.card.phones + x) else r.card.(urls := r.card.urls + x);
      ReadCleanedAppend(cs, r, lines, TypedLines(cs, head, ts[1..]));
      if v == "" {
        NothingRead(cs, r);
        assert r.card.phones + [] == r.card.phones && r.card.urls + [] == r.card.urls;
      } else {
        TypedRead(cs, r, head, t);
      }
      AllTypedRead(cs, r.(card := c), head, ts[1..]);
      Associate(r.card.phones, x, TypedRaw(cs, head, ts[1..]));
      Associate(r.card.urls, x, TypedRaw(cs, head, ts[1..]));
    }
  }

  lemma {:induction false} AddressRead(cs: CaseMap, r: Reading, a: Address)
    ensures ReadFrom(cs, r, Cleaned([Line(TypedHead(cs, "ADR", a.kind), AddressValue(a))]))
            == if Blank(OneAddress(cs, a)) then r else r.(card := r.card.(addresses := r.card.addresses + [OneAddress(cs, a)]))
  {
    hide ReadFrom, Cleaned, Named, Line, TrimEnd, ParseLine, PlainName, IsSpace, TypedHead, AddressValue, ReadAddress, Blank;
    Names();
    Properties();
    TypedHeadStarts(cs, "ADR", a.kind);
    ReadOne(cs, r, TypedHead(cs, "ADR", a.kind), AddressValue(a));
    TypedProp(cs, "ADR", a.kind, TrimEnd(AddressValue(a)));
  }

  lemma {:induction false} AddressesRead(cs: CaseMap, r: Reading, ads: seq<Address>)
    ensures ReadFrom(cs, r, Cleaned(AddressLines(cs, ads))) == r.(card := r.card.(addresses := r.card.addresses + AddressesRaw(cs, ads)))
    decreases |ads|
  {
    hide ReadFrom, Cleaned, Line, AddressValue, TypedHead, Blank, OneAddress;
    if ads == [] {
      NothingRead(cs, r);
      assert r.card.addresses + [] == r.card.addresses;
    } else {
      var a := ads[0];
      var lines := if Blank(a) then [] else [Line(TypedHead(cs, "ADR", a.kind), AddressValue(a))];
      var x := if Blank(a) || Blank(OneAddress(cs, a)) then [] else [OneAddress(cs, a)];
      ReadCleanedAppend(cs, r, lines, AddressLines(cs, ads[1..]));
      NothingRead(cs, r);
      AddressRead(cs, r, a);
      assert r.card.addresses + [] == r.card.addresses;
      AddressesRead(cs, r.(card := r.card.(addresses := r.card.addresses + x)), ads[1..]);
      Associate(r.card.addresses, x, AddressesRaw(cs, ads[1..]));
    }
  }

  lemma {:induction false} CategoriesReadBack(cs: CaseMap, r: Reading, categories: seq<string>)
    requires r.card.categories == []
    ensures ReadFrom(cs, r, Cleaned(CategoryLines(categories))) == r.(card := r.card.(categories := CategoriesRaw(categories)))
  {
    hide ReadFrom, Cleaned, Named, Line, TrimEnd, Trim, Tidy, PlainName, SplitAt, UnescapeText, EscapeValue, Join, NonEmpty;
    var cats := NonEmpty(TrimAll(categories));
    TrimmedCategories(categories);
    NothingRead(cs, r);
    if cats != [] {
      Names();
      Properties();
      PropertyRead(cs, r, "CATEGORIES", Join(EscapeAll(cats), ","));
      JoinedIsTrimmed(cats);
    }
  }

  lemma {:induction false} JoinedIsTrimmed(cats: seq<string>)
    requires cats != [] && Tidy(cats)
    ensures TrimEnd(Join(EscapeAll(cats), ",")) == Join(EscapeAll(cats), ",")
  {
    hide EscapeValue, IsSpace;
    var es := EscapeAll(cats);
    var last := cats[|cats| - 1];
    EscapeValueIsCharacterwise(last);
    EscapedEnd(last);
    var j := Join(es, ",");
    assert j[|j| - 1] == es[|es| - 1][|es[|es| - 1]| - 1];
  }

  // ---- the whole block ----

  /** Reading the printed block into a card without any of these fields gives exactly the fields as they parse one by one. */
  lemma {:induction false} BlockRead(cs: CaseMap, r: Reading, c: Card)
    requires r.card == EmptyCard() && r.structured.None?
    ensures var x := ReadFrom(cs, r, Cleaned(Managed(cs, c)));
            x.uid == r.uid && x.card == RawCard(cs, c) && x.structured == ReadName(NameValue(Trim(TextOf(c.name))))
  {
    hide ReadFrom, Cleaned, NameLines, OptionalLine, EmailLines, TypedLines, AddressLines, CategoryLines, EmailsRaw, TypedRaw, AddressesRaw,
         FieldRaw, OrgRaw, CategoriesRaw, Trim, Named, PlainName, EscapeValue, UnescapeText, ReadName, NameValue;
    var p4 := NameLines(Trim(TextOf(c.name))) + OptionalLine("NICKNAME", c.nickname, "") + OptionalLine("ORG", c.org, ";")
              + OptionalLine("TITLE", c.title, "");
    HeadRead(cs, r, c);
    var r4 := ReadFrom(cs, r, Cleaned(p4));
    var p5 := Grown(cs, r, p4, EmailLines(c.emails));
    EmailsRead(cs, r4, c.emails);
    var r5 := ReadFrom(cs, r, Cleaned(p5));
    var p6 := Grown(cs, r, p5, TypedLines(cs, "TEL", c.phones));
    AllTypedRead(cs, r5, "TEL", c.phones);
    var r6 := ReadFrom(cs, r, Cleaned(p6));
    var p7 := Grown(cs, r, p6, TypedLines(cs, "URL", c.urls));
    AllTypedRead(cs, r6, "URL", c.urls);
    var r7 := ReadFrom(cs, r, Cleaned(p7));
    var p8 := Grown(cs, r, p7, AddressLines(cs, c.addresses));
    AddressesRead(cs, r7, c.addresses);
    TailRead(cs, r, p8, c);
  }

  lemma {:induction false} HeadRead(cs: CaseMap, r: Reading, c: Card)
    requires r.card == EmptyCard() && r.structured.None?
    ensures var fn := Trim(TextOf(c.name));
            var x := ReadFrom(cs, r, Cleaned(NameLines(fn) + OptionalLine("NICKNAME", c.nickname, "") + OptionalLine("ORG", c.org, ";")
                                         + OptionalLine("TITLE", c.title, "")));
            && x.uid == r.uid && x.structured == ReadName(NameValue(fn))
            && x.card == EmptyCard().(name := Some(UnescapeText(EscapeValue(fn))), nickname := FieldRaw(c.nickname), org := OrgRaw(c.org),
                                      title := FieldRaw(c.title))
  {
    hide ReadFrom, Cleaned, NameLines, OptionalLine, Trim, Named, PlainName, FieldRaw, OrgRaw, EscapeValue, UnescapeText, ReadName, NameValue;
    var fn := Trim(TextOf(c.name));
    NameRead(cs, r, fn);
    Names();
    Properties();
    var p1 := NameLines(fn);
    var r1 := ReadFrom(cs, r, Cleaned(p1));
    var p2 := Grown(cs, r, p1, OptionalLine("NICKNAME", c.nickname, ""));
    FieldRead(cs, r1, "NICKNAME", c.nickname);
    var r2 := ReadFrom(cs, r, Cleaned(p2));
    var p3 := Grown(cs, r, p2, OptionalLine("ORG", c.org, ";"));
    OrgRead(cs, r2, c.org);
    var r3 := ReadFrom(cs, r, Cleaned(p3));
    var p4 := Grown(cs, r, p3, OptionalLine("TITLE", c.title, ""));
    FieldRead(cs, r3, "TITLE", c.title);
  }

  lemma {:induction false} TailRead(cs: CaseMap, r: Reading, p8: seq<string>, c: Card)
    requires var x := ReadFrom(cs, r, Cleaned(p8)); x.card.birthday.None? && x.card.note.None? && x.card.categories == []
    ensures var x := ReadFrom(cs, r, Cleaned(p8));
            ReadFrom(cs, r, Cleaned(p8 + OptionalLine("BDAY", c.birthday, "") + OptionalLine("NOTE", c.note, "") + CategoryLines(c.categories)))
            == x.(card := x.card.(birthday := FieldRaw(c.birthday), note := FieldRaw(c.note), categories := CategoriesRaw(c.categories)))
  {
    hide ReadFrom, Cleaned, OptionalLine, CategoryLines, FieldRaw, CategoriesRaw, Trim, Named, PlainName;
    Names();
    Properties();
    var r8 := ReadFrom(cs, r, Cleaned(p8));
    var p9 := Grown(cs, r, p8, OptionalLine("BDAY", c.birthday, ""));
    FieldRead(cs, r8, "BDAY", c.birthday);
    var r9 := ReadFrom(cs, r, Cleaned(p9));
    var p10 := Grown(cs, r, p9, OptionalLine("NOTE", c.note, ""));
    FieldRead(cs, r9, "NOTE", c.note);
    var r10 := ReadFrom(cs, r, Cleaned(p10));
    var p11 := Grown(cs, r, p10, CategoryLines(c.categories));
    CategoriesReadBack(cs, r10, c.categories);
  }

  lemma {:induction false} Grown(cs: CaseMap, r: Reading, a: seq<string>, b: seq<string>) returns (ab: seq<string>)
    ensures ab == a + b && ReadFrom(cs, r, Cleaned(ab)) == ReadFrom(cs, ReadFrom(cs, r, Cleaned(a)), Cleaned(b))
  {
    hide *;
    ab := a + b;
    ReadCleanedAppend(cs, r, a, b);
  }

  // ---- the printed lines ----

  /** A line that an edit of the same card would rewrite, and that unfolding leaves a line. */
  predicate OwnedLine(cs: CaseMap, l: string) {
    Whole(l) && Trim(l) != "" && Rewritten(cs, Trim(l))
  }

  predicate AllOwned(cs: CaseMap, ls: seq<string>) {
    forall k :: 0 <= k < |ls| ==> OwnedLine(cs, ls[k])
  }

  lemma {:induction false} LineOwned(cs: CaseMap, name: string, params: string, value: string)
    requires PlainName(name) && Owned(Named(name)) && (params == "" || params[0] == ';') && '\n' !in params && '\n' !in value
    ensures OwnedLine(cs, Line(name + params, value))
  {
    hide ParseLine, PropOf, Named, Trim, TrimEnd, PlainName, IsSpace;
    PlainNoSpace(name);
    var head := name + params;
    TrimLine(head, value);
    var tail := params + ":" + TrimEnd(value);
    assert Line(head, TrimEnd(value)) == name + tail;
    assert tail[|params|] == ':';
    PropOfLine(cs, name, tail);
    assert Line(head, value)[0] == name[0];
    assert TrimEnd(value) <= value;
  }

  lemma {:induction false} TypedLineOwned(cs: CaseMap, name: string, kind: Option<string>, value: string)
    requires PlainName(name) && Owned(Named(name)) && '\n' !in value
    ensures OwnedLine(cs, Line(TypedHead(cs, name, kind), value))
  {
    hide OwnedLine, Line, Named, PlainName, Owned, Trim, EscapeValue;
    var t := Trim(TextOf(kind));
    if t == "" {
      assert name + "" == name;
      LineOwned(cs, name, "", value);
    } else {
      EscapedNoBreak(Capitals(cs, t));
      var params := ";TYPE=" + EscapeValue(Capitals(cs, t));
      LineOwned(cs, name, params, value);
      assert name + params == name + ";TYPE=" + EscapeValue(Capitals(cs, t));
    }
  }

  lemma {:induction false} OptionalOwned(cs: CaseMap, name: string, field: Option<string>, suffix: string)
    requires PlainName(name) && Owned(Named(name)) && '\n' !in suffix
    ensures AllOwned(cs, OptionalLine(name, field, suffix))
  {
    hide OwnedLine, Line, Named, PlainName, Owned, Trim, EscapeValue;
    var v := Trim(TextOf(field));
    EscapedNoBreak(v);
    LineOwned(cs, name, "", EscapeValue(v) + suffix);
    assert name + "" == name;
  }

  lemma {:induction false} EmailsOwned(cs: CaseMap, es: seq<string>)
    ensures AllOwned(cs, EmailLines(es))
  {
    hide OwnedLine, Line, Named, PlainName, Owned, Trim, EscapeValue;
    if es != [] {
      EmailsOwned(cs, es[1..]);
      EmailOwned(cs, Trim(es[0]));
    }
  }

  lemma {:induction false} EmailOwned(cs: CaseMap, v: string)
    ensures OwnedLine(cs, Line("EMAIL;TYPE=INTERNET", EscapeValue(v)))
  {
    hide OwnedLine, Line, Named, PlainName, Owned, EscapeValue;
    Names();
    Properties();
    EscapedNoBreak(v);
    EmailIsOwned();
    LineOwned(cs, "EMAIL", ";TYPE=INTERNET", EscapeValue(v));
    assert "EMAIL" + ";TYPE=INTERNET" == "EMAIL;TYPE=INTERNET";
  }

  lemma {:induction false} EmailIsOwned()
    ensures Owned(Email) && Owned(Phone) && Owned(Url) && Owned(Postal) && Owned(FormattedName) && Owned(StructuredName)
    ensures Owned(Nickname) && Owned(Organisation) && Owned(Title) && Owned(Birthday) && Owned(Note) && Owned(Categories)
  {
  }

  lemma {:induction false} TypedOwned(cs: CaseMap, head: string, ts: seq<Typed>)
    requires PlainName(head) && Owned(Named(head))
    ensures AllOwned(cs, TypedLines(cs, head, ts))
  {
    hide OwnedLine, Line, Named, PlainName, Owned, Trim, EscapeValue, TypedHead;
    if ts != [] {
      TypedOwned(cs, head, ts[1..]);
      EscapedNoBreak(Trim(ts[0].value));
      TypedLineOwned(cs, head, ts[0].kind, EscapeValue(Trim(ts[0].value)));
    }
  }

  lemma {:induction false} AddressesOwned(cs: CaseMap, ads: seq<Address>)
    ensures AllOwned(cs, AddressLines(cs, ads))
  {
    hide OwnedLine, Line, Named, PlainName, Owned, AddressValue, TypedHead, Blank;
    if ads != [] {
      Names();
      Properties();
      EmailIsOwned();
      AddressesOwned(cs, ads[1..]);
      AddressNoBreak(ads[0]);
      TypedLineOwned(cs, "ADR", ads[0].kind, AddressValue(ads[0]));
    }
  }

  lemma {:induction false} AddressNoBreak(a: Address)
    ensures '\n' !in AddressValue(a)
  {
    hide EscapeValue;
    EscapedNoBreak(a.street);
    EscapedNoBreak(a.locality);
    EscapedNoBreak(a.region);
    EscapedNoBreak(a.postalCode);
    EscapedNoBreak(a.country);
  }

  lemma {:induction false} JoinNoBreak(es: seq<string>)
    requires forall k :: 0 <= k < |es| ==> '\n' !in es[k]
    ensures '\n' !in Join(es, ",")
  {
    if |es| > 1 { JoinNoBreak(es[..|es| - 1]); }
  }

  lemma {:induction false} CategoriesOwned(cs: CaseMap, categories: seq<string>)
    ensures AllOwned(cs, CategoryLines(categories))
  {
    hide OwnedLine, Line, Named, PlainName, Owned, EscapeValue, Join, NonEmpty;
    var es := EscapeAll(NonEmpty(TrimAll(categories)));
    forall k | 0 <= k < |es| ensures '\n' !in es[k] { EscapedNoBreak(NonEmpty(TrimAll(categories))[k]); }
    JoinNoBreak(es);
    Names();
    Properties();
    EmailIsOwned();
    LineOwned(cs, "CATEGORIES", "", Join(es, ","));
    assert "CATEGORIES" + "" == "CATEGORIES";
  }

  lemma {:induction false} NamesOwned(cs: CaseMap, fn: string)
    ensures AllOwned(cs, NameLines(fn)) && NameLines(fn) != []
  {
    hide OwnedLine, Line, Named, PlainName, Owned, EscapeValue, Family, Given;
    Names();
    Properties();
    EmailIsOwned();
    EscapedNoBreak(fn);
    EscapedNoBreak(Family(fn));
    EscapedNoBreak(Given(fn));
    LineOwned(cs, "FN", "", EscapeValue(fn));
    LineOwned(cs, "N", "", NameValue(fn));
    assert "FN" + "" == "FN" && "N" + "" == "N";
  }

  lemma {:induction false} OwnedAppend(cs: CaseMap, a: seq<string>, b: seq<string>)
    requires AllOwned(cs, a) && AllOwned(cs, b)
    ensures AllOwned(cs, a + b)
  {
  }

  /** Whatever the card holds, its printed lines are lines of the properties an edit rewrites. */
  lemma {:induction false} ManagedOwned(cs: CaseMap, c: Card)
    ensures AllOwned(cs, Managed(cs, c)) && Managed(cs, c) != []
  {
    hide AllOwned, NameLines, OptionalLine, EmailLines, TypedLines, AddressLines, CategoryLines, Named, PlainName, Owned, Trim;
    Names();
    Properties();
    EmailIsOwned();
    var p := NameLines(Trim(TextOf(c.name)));
    NamesOwned(cs, Trim(TextOf(c.name)));
    OptionalOwned(cs, "NICKNAME", c.nickname, "");
    p := MoreOwned(cs, p, OptionalLine("NICKNAME", c.nickname, ""));
    OptionalOwned(cs, "ORG", c.org, ";");
    p := MoreOwned(cs, p, OptionalLine("ORG", c.org, ";"));
    OptionalOwned(cs, "TITLE", c.title, "");
    p := MoreOwned(cs, p, OptionalLine("TITLE", c.title, ""));
    EmailsOwned(cs, c.emails);
    p := MoreOwned(cs, p, EmailLines(c.emails));
    TypedOwned(cs, "TEL", c.phones);
    p := MoreOwned(cs, p, TypedLines(cs, "TEL", c.phones));
    TypedOwned(cs, "URL", c.urls);
    p := MoreOwned(cs, p, TypedLines(cs, "URL", c.urls));
    AddressesOwned(cs, c.addresses);
    p := MoreOwned(cs, p, AddressLines(cs, c.addresses));
    OptionalOwned(cs, "BDAY", c.birthday, "");
    p := MoreOwned(cs, p, OptionalLine("BDAY", c.birthday, ""));
    OptionalOwned(cs, "NOTE", c.note, "");
    p := MoreOwned(cs, p, OptionalLine("NOTE", c.note, ""));
    CategoriesOwned(cs, c.categories);
    p := MoreOwned(cs, p, CategoryLines(c.categories));
  }

  lemma {:induction false} MoreOwned(cs: CaseMap, a: seq<string>, b: seq<string>) returns (ab: seq<string>)
    requires a != [] && AllOwned(cs, a) && AllOwned(cs, b)
    ensures ab == a + b && ab != [] && AllOwned(cs, ab)
  {
    hide AllOwned;
    OwnedAppend(cs, a, b);
    ab := a + b;
  }

  // ---- the lines of a printed document ----

  lemma {:induction false} CleanedOwned(cs: CaseMap, ls: seq<string>)
    requires AllOwned(cs, ls)
    ensures Kept(cs, Cleaned(ls)) == [] && Before(cs, Cleaned(ls)) == []
    ensures ls != [] ==> Cleaned(ls) != [] && Rewritten(cs, Cleaned(ls)[0]) && Kept(cs, Cleaned(ls)[1..]) == []
  {
    hide Rewritten, Envelope, Trim, Whole;
    if ls != [] {
      CleanedOwned(cs, ls[1..]);
      assert OwnedLine(cs, ls[0]);
      assert Cleaned(ls) == [Trim(ls[0])] + Cleaned(ls[1..]);
      assert Cleaned(ls)[1..] == Cleaned(ls[1..]);
    }
  }

  /** A line between the envelope lines that is neither envelope nor rewritten comes back unchanged. */
  predicate Settled(cs: CaseMap, l: string) {
    l != "" && Trimmed(l) && Whole(l) && !Envelope(cs, l) && !Rewritten(cs, l)
  }

  predicate AllSettled(cs: CaseMap, ls: seq<string>) {
    forall k :: 0 <= k < |ls| ==> Settled(cs, ls[k])
  }

  lemma {:induction false} KeptSettled(cs: CaseMap, ls: seq<string>)
    requires forall k :: 0 <= k < |ls| ==> ls[k] != "" && Trimmed(ls[k]) && Whole(ls[k])
    ensures AllSettled(cs, Kept(cs, ls)) && AllSettled(cs, Before(cs, ls)) && AllSettled(cs, After(cs, ls))
  {
    hide Rewritten, Envelope, Trimmed, Whole;
    if ls != [] { KeptSettled(cs, ls[1..]); }
  }

  lemma {:induction false} SettledKept(cs: CaseMap, ls: seq<string>)
    requires AllSettled(cs, ls)
    ensures Kept(cs, ls) == ls && Before(cs, ls) == ls && After(cs, ls) == [] && Cleaned(ls) == ls
  {
    hide Rewritten, Envelope, Trimmed, Whole, Trim;
    if ls != [] {
      SettledKept(cs, ls[1..]);
      assert Settled(cs, ls[0]);
      TrimIdle(ls[0]);
      assert [ls[0]] + ls[1..] == ls;
    }
  }

  /** An envelope around settled lines and one block. */
  function Enclosed(first: string, before: seq<string>, block: seq<string>, after: seq<string>): seq<string> {
    [first] + before + block + after + ["END:VCARD"]
  }

  lemma {:induction false} EnvelopeLines(cs: CaseMap)
    ensures Envelope(cs, "BEGIN:VCARD") && Envelope(cs, "END:VCARD")
    ensures Trimmed("BEGIN:VCARD") && Trimmed("END:VCARD") && Whole("BEGIN:VCARD") && Whole("END:VCARD")
  {
    hide ParseLine, Named;
    Names();
    Properties();
    PlainHead(cs, "BEGIN", "VCARD");
    PlainHead(cs, "END", "VCARD");
    assert Line("BEGIN", "VCARD") == "BEGIN:VCARD" && Line("END", "VCARD") == "END:VCARD";
  }

  lemma {:induction false} KeptAppend(cs: CaseMap, a: seq<string>, b: seq<string>)
    ensures Kept(cs, a + b) == Kept(cs, a) + Kept(cs, b)
  {
    hide Rewritten, Envelope;
    if a == [] {
      assert a + b == b;
    } else {
      KeptAppend(cs, a[1..], b);
      assert (a + b)[1..] == a[1..] + b && (a + b)[0] == a[0];
    }
  }

  predicate NoneRewritten(cs: CaseMap, ls: seq<string>) {
    forall k :: 0 <= k < |ls| ==> !Rewritten(cs, ls[k])
  }

  lemma {:induction false} PartsAppend(cs: CaseMap, a: seq<string>, b: seq<string>)
    requires NoneRewritten(cs, a)
    ensures Before(cs, a + b) == Kept(cs, a) + Before(cs, b) && After(cs, a + b) == After(cs, b)
  {
    hide Rewritten, Envelope;
    if a == [] {
      assert a + b == b;
    } else {
      PartsAppend(cs, a[1..], b);
      assert (a + b)[1..] == a[1..] + b && (a + b)[0] == a[0];
    }
  }

  lemma {:induction false} HeadParts(cs: CaseMap, before: seq<string>)
    requires AllSettled(cs, before)
    ensures NoneRewritten(cs, ["BEGIN:VCARD"] + before) && Kept(cs, ["BEGIN:VCARD"] + before) == before
  {
    hide Rewritten, Envelope, Trimmed, Whole, Kept;
    EnvelopeLines(cs);
    Exclusive(cs, "BEGIN:VCARD");
    SettledKept(cs, before);
    KeptAppend(cs, ["BEGIN:VCARD"], before);
    EnvelopeKept(cs, "BEGIN:VCARD");
    assert [] + before == before;
  }

  lemma {:induction false} TailParts(cs: CaseMap, managed: seq<string>, after: seq<string>)
    requires AllSettled(cs, after) && AllOwned(cs, managed) && managed != []
    ensures var x := Cleaned(managed) + (after + ["END:VCARD"]); Before(cs, x) == [] && After(cs, x) == after
  {
    hide Rewritten, Envelope, Trimmed, Whole, Cleaned, OwnedLine, Kept;
    EnvelopeLines(cs);
    CleanedOwned(cs, managed);
    var block, rest := Cleaned(managed), after + ["END:VCARD"];
    SettledKept(cs, after);
    KeptAppend(cs, after, ["END:VCARD"]);
    EnvelopeKept(cs, "END:VCARD");
    KeptAppend(cs, block[1..], rest);
    assert (block + rest)[1..] == block[1..] + rest && (block + rest)[0] == block[0];
    assert [] + (after + []) == after;
  }

  /** The parts a document falls into are the ones it was made of. */
  lemma {:induction false} EnclosedParts(cs: CaseMap, before: seq<string>, managed: seq<string>, after: seq<string>)
    requires AllSettled(cs, before) && AllSettled(cs, after) && AllOwned(cs, managed) && managed != []
    ensures var ls := Enclosed("BEGIN:VCARD", before, Cleaned(managed), after);
            Before(cs, ls) == before && After(cs, ls) == after
  {
    hide Cleaned, AllSettled, AllOwned, Before, After, Kept, NoneRewritten;
    var head, x := ["BEGIN:VCARD"] + before, Cleaned(managed) + (after + ["END:VCARD"]);
    HeadParts(cs, before);
    TailParts(cs, managed, after);
    PartsAppend(cs, head, x);
    assert Enclosed("BEGIN:VCARD", before, Cleaned(managed), after) == head + x;
    assert before + [] == before;
  }

  lemma {:induction false} EnvelopeKept(cs: CaseMap, l: string)
    requires Envelope(cs, l)
    ensures Kept(cs, [l]) == []
  {
    hide Envelope;
    assert [l][1..] == [];
  }

  lemma {:induction false} CleanedEnclosed(cs: CaseMap, first: string, before: seq<string>, managed: seq<string>, after: seq<string>)
    requires first != "" && Trimmed(first) && AllSettled(cs, before) && AllSettled(cs, after)
    ensures Cleaned(Enclosed(first, before, managed, after)) == Enclosed(first, before, Cleaned(managed), after)
  {
    hide Cleaned, Rewritten, Envelope, Trimmed, Whole;
    EnvelopeLines(cs);
    var last := ["END:VCARD"];
    SettledKept(cs, before);
    SettledKept(cs, after);
    CleanedIdle([first]);
    CleanedIdle(last);
    CleanedAppend([first] + before + managed + after, last);
    CleanedAppend([first] + before + managed, after);
    CleanedAppend([first] + before, managed);
    CleanedAppend([first], before);
  }

  /** What a merged document unfolds to. */
  lemma {:induction false} MergedLines(cs: CaseMap, uid: string, raw: string, c: Card)
    requires HasBegin(raw)
    ensures var ls := Unfold(raw);
            Unfold(Merged(cs, uid, Some(raw), c)) == Enclosed("BEGIN:VCARD", Before(cs, ls), Cleaned(Managed(cs, c)), After(cs, ls))
            && AllSettled(cs, Before(cs, ls)) && AllSettled(cs, After(cs, ls))
  {
    hide Cleaned, Rewritten, Envelope, Trimmed, Whole, OwnedLine, HasBegin, Unfold, Managed, Join, Before, After;
    var ls, managed := Unfold(raw), Managed(cs, c);
    EnvelopeLines(cs);
    UnfoldedLines(raw);
    KeptSettled(cs, ls);
    ManagedOwned(cs, c);
    CleanedEnclosed(cs, "BEGIN:VCARD", Before(cs, ls), managed, After(cs, ls));
    var all := ["BEGIN:VCARD"] + Spliced(cs, ls, managed) + ["END:VCARD"];
    assert all == Enclosed("BEGIN:VCARD", Before(cs, ls), managed, After(cs, ls));
    AllWhole(cs, Before(cs, ls), managed, After(cs, ls));
    UnfoldJoined(all);
  }

  predicate WholeLines(ls: seq<string>) {
    forall k :: 0 <= k < |ls| ==> Whole(ls[k])
  }

  lemma {:induction false} WholeAppend(a: seq<string>, b: seq<string>)
    requires WholeLines(a) && WholeLines(b)
    ensures WholeLines(a + b)
  {
    hide Whole;
  }

  lemma {:induction false} AllWhole(cs: CaseMap, before: seq<string>, managed: seq<string>, after: seq<string>)
    requires AllSettled(cs, before) && AllOwned(cs, managed) && AllSettled(cs, after)
    ensures WholeLines(Enclosed("BEGIN:VCARD", before, managed, after))
  {
    hide Whole, Rewritten, Envelope, Trimmed, Trim;
    EnvelopeLines(cs);
    assert WholeLines(before) && WholeLines(managed) && WholeLines(after);
    hide WholeLines;
    WholeOne("BEGIN:VCARD");
    WholeOne("END:VCARD");
    WholeAppend(["BEGIN:VCARD"], before);
    WholeAppend(["BEGIN:VCARD"] + before, managed);
    WholeAppend(["BEGIN:VCARD"] + before + managed, after);
    WholeAppend(["BEGIN:VCARD"] + before + managed + after, ["END:VCARD"]);
  }

  lemma {:induction false} WholeOne(l: string)
    requires Whole(l)
    ensures WholeLines([l])
  {
  }

  // ---- the main results ----

  /**
   * A merge keeps every line it does not rewrite, once and in order, as the card unfolds, with one block of
   * rewritten lines between them; nothing else is in the document.
   */
  lemma {:induction false} MergeKeepsLines(cs: CaseMap, uid: string, raw: string, c: Card)
    requires HasBegin(raw)
    ensures var ls, out := Unfold(raw), Unfold(Merged(cs, uid, Some(raw), c));
            && out == ["BEGIN:VCARD"] + Before(cs, ls) + Cleaned(Managed(cs, c)) + After(cs, ls) + ["END:VCARD"]
            && Kept(cs, ls) == Before(cs, ls) + After(cs, ls) && Kept(cs, out) == Kept(cs, ls)
            && Before(cs, out) == Before(cs, ls) && After(cs, out) == After(cs, ls)
  {
    hide Cleaned, Unfold, Merged, Managed, HasBegin, Before, After, Kept, AllOwned, AllSettled;
    var ls, out := Unfold(raw), Unfold(Merged(cs, uid, Some(raw), c));
    MergedLines(cs, uid, raw, c);
    ManagedOwned(cs, c);
    EnclosedParts(cs, Before(cs, ls), Managed(cs, c), After(cs, ls));
    KeptAround(cs, ls);
    KeptAround(cs, out);
  }

  lemma {:induction false} JoinStarts(ls: seq<string>, sep: string)
    requires ls != []
    ensures ls[0] <= Join(ls, sep)
  {
    if |ls| > 1 { JoinStarts(ls[..|ls| - 1], sep); }
  }

  lemma {:induction false} MergedBegins(cs: CaseMap, uid: string, raw: string, c: Card)
    requires HasBegin(raw)
    ensures HasBegin(Merged(cs, uid, Some(raw), c))
  {
    hide Unfold, Managed, Spliced, Join;
    var all := ["BEGIN:VCARD"] + Spliced(cs, Unfold(raw), Managed(cs, c)) + ["END:VCARD"];
    var merged := Merged(cs, uid, Some(raw), c);
    JoinStarts(all, CRLF);
    assert merged[0..0 + 11] == "BEGIN:VCARD";
    assert Upper("BEGIN:VCARD") == "BEGIN:VCARD";
    assert BeginsAt(merged, 0);
  }

  /** Of two merges into one card the last decides: the first leaves no trace, and repeating a merge changes nothing. */
  lemma {:induction false} LastMergeWins(cs: CaseMap, uid: string, raw: string, c: Card, d: Card)
    requires HasBegin(raw)
    ensures Merged(cs, uid, Some(Merged(cs, uid, Some(raw), c)), d) == Merged(cs, uid, Some(raw), d)
  {
    hide Unfold, Managed, Join, HasBegin, Before, After, Kept, Cleaned;
    MergeKeepsLines(cs, uid, raw, c);
    MergedBegins(cs, uid, raw, c);
  }

  /** The identity the kept lines spell. */
  function UidAfter(cs: CaseMap, u: Option<string>, ls: seq<string>): Option<string>
    decreases |ls|
  {
    if ls == [] then u
    else UidAfter(cs, match ParseLine(cs, ls[0]) case Some(l) => (if l.prop.Uid? then Some(UnescapeText(l.value)) else u) case None => u, ls[1..])
  }

  lemma {:induction false} EnvelopeRead(cs: CaseMap, r: Reading, l: string)
    requires Envelope(cs, l)
    ensures ReadLine(cs, r, l) == r
  {
    hide ParseLine, Named, SplitAt, Capitals, UnescapeText;
  }

  lemma {:induction false} SettledRead(cs: CaseMap, r: Reading, ls: seq<string>)
    requires NoneRewritten(cs, ls) && AllSettled(cs, ls)
    ensures ReadFrom(cs, r, ls) == r.(uid := UidAfter(cs, r.uid, ls))
    decreases |ls|
  {
    hide ParseLine, Trimmed, Whole, UnescapeText, LineProp;
    if ls != [] {
      SettledLineRead(cs, r, ls[0]);
      SettledRead(cs, ReadLine(cs, r, ls[0]), ls[1..]);
    }
  }

  lemma {:induction false} SettledLineRead(cs: CaseMap, r: Reading, l: string)
    requires Settled(cs, l)
    ensures ReadLine(cs, r, l).card == r.card && ReadLine(cs, r, l).structured == r.structured
  {
    hide ParseLine, Trimmed, Whole, UnescapeText, Named;
  }

  /** Lines that are dropped or rewritten say nothing about the identity. */
  lemma {:induction false} UidOfKept(cs: CaseMap, r: Reading, ls: seq<string>)
    ensures ReadFrom(cs, r, ls).uid == UidAfter(cs, r.uid, Kept(cs, ls))
    decreases |ls|
  {
    hide ParseLine, UnescapeText, ReadLine, Envelope, Rewritten;
    if ls != [] {
      UidOfKept(cs, ReadLine(cs, r, ls[0]), ls[1..]);
      UidStep(cs, r, ls[0]);
      var kept := Kept(cs, ls);
      if Envelope(cs, ls[0]) || Rewritten(cs, ls[0]) {
        assert kept == Kept(cs, ls[1..]);
      } else {
        assert kept[0] == ls[0] && kept[1..] == Kept(cs, ls[1..]);
      }
    }
  }

  lemma {:induction false} UidStep(cs: CaseMap, r: Reading, l: string)
    ensures ReadLine(cs, r, l).uid
            == match ParseLine(cs, l) case Some(v) => (if v.prop.Uid? then Some(UnescapeText(v.value)) else r.uid) case None => r.uid
    ensures Envelope(cs, l) || Rewritten(cs, l) ==> ReadLine(cs, r, l).uid == r.uid
  {
    hide ParseLine, UnescapeText, ReadCard, ReadName, Named, SplitAt, Capitals;
  }

  lemma {:induction false} UidAfterAppend(cs: CaseMap, u: Option<string>, a: seq<string>, b: seq<string>)
    ensures UidAfter(cs, u, a + b) == UidAfter(cs, UidAfter(cs, u, a), b)
    decreases |a|
  {
    hide ParseLine, UnescapeText;
    if a == [] {
      assert a + b == b;
    } else {
      assert (a + b)[1..] == a[1..] + b && (a + b)[0] == a[0];
      UidAfterAppend(cs, match ParseLine(cs, a[0]) case Some(l) => (if l.prop.Uid? then Some(UnescapeText(l.value)) else u) case None => u, a[1..], b);
    }
  }

  /** A document read: the kept lines decide the identity, the block decides the rest. */
  lemma {:induction false} EnclosedRead(cs: CaseMap, before: seq<string>, c: Card, after: seq<string>)
    requires AllSettled(cs, before) && AllSettled(cs, after)
    ensures Finished(ReadFrom(cs, Start(), Enclosed("BEGIN:VCARD", before, Cleaned(Managed(cs, c)), after)))
            == Detail(UidAfter(cs, None, before + after), NamedRaw(cs, c))
  {
    hide Cleaned, Managed, Rewritten, Envelope, Trimmed, Whole, UidAfter, ReadFrom, Trim, RawCard, ReadLine, ReadName, NameValue;
    var head := ["BEGIN:VCARD"] + before;
    var block := Cleaned(Managed(cs, c));
    EnvelopeLines(cs);
    ReadAppend(cs, Start(), ["BEGIN:VCARD"], before);
    SingleRead(cs, Start(), "BEGIN:VCARD");
    EnvelopeRead(cs, Start(), "BEGIN:VCARD");
    SettledRead(cs, Start(), before);
    var r1 := Start().(uid := UidAfter(cs, None, before));
    assert ReadFrom(cs, Start(), head) == r1;
    ReadAppend(cs, Start(), head, block);
    BlockRead(cs, r1, c);
    var r2 := ReadFrom(cs, r1, block);
    ReadAppend(cs, Start(), head + block, after);
    SettledRead(cs, r2, after);
    var r3 := ReadFrom(cs, r2, after);
    ReadAppend(cs, Start(), head + block + after, ["END:VCARD"]);
    SingleRead(cs, r3, "END:VCARD");
    EnvelopeRead(cs, r3, "END:VCARD");
    UidAfterAppend(cs, None, before, after);
  }

  lemma {:induction false} SingleRead(cs: CaseMap, r: Reading, l: string)
    ensures ReadFrom(cs, r, [l]) == ReadLine(cs, r, l)
  {
    hide ReadLine;
    assert [l][1..] == [];
  }

  /**
   * A merged card keeps the identity it had, and parses to the edited fields if the card fits - and only then,
   * an address of nothing but space apart, which is printed but need not be read.
   */
  lemma {:induction false} MergeSurvivesExact(cs: CaseMap, uid: string, raw: string, c: Card)
    requires HasBegin(raw)
    ensures Parsed(cs, Merged(cs, uid, Some(raw), c)).uid == Parsed(cs, raw).uid
    ensures Fits(cs, c) ==> Parsed(cs, Merged(cs, uid, Some(raw), c)).card == Back(cs, c)
    ensures NoSpacesOnly(c.addresses) && Parsed(cs, Merged(cs, uid, Some(raw), c)).card == Back(cs, c) ==> Fits(cs, c)
  {
    hide Cleaned, Unfold, Merged, Managed, HasBegin, Before, After, Kept, Fits, AllSettled, ReadFrom, UidAfter, Back, Enclosed, NamedRaw,
         NoSpacesOnly;
    var ls := Unfold(raw);
    MergedLines(cs, uid, raw, c);
    EnclosedRead(cs, Before(cs, ls), c, After(cs, ls));
    KeptAround(cs, ls);
    UidOfKept(cs, Start(), ls);
    CardExact(cs, c);
  }

  lemma {:induction false} UidLineSettled(cs: CaseMap, uid: string)
    ensures var l := Line("UID", TrimEnd(EscapeValue(uid)));
            Settled(cs, l) && Whole(Line("UID", EscapeValue(uid))) && Cleaned([Line("UID", EscapeValue(uid))]) == [l]
    ensures UidAfter(cs, None, ["VERSION:3.0"] + [Line("UID", TrimEnd(EscapeValue(uid)))]) == Some(UnescapeText(EscapeValue(uid)))
    ensures Settled(cs, "VERSION:3.0")
  {
    hide ParseLine, Named, PlainName, EscapeValue, UnescapeText, Trim, TrimStart, TrimEnd, IsSpace;
    Names();
    Properties();
    var value := TrimEnd(EscapeValue(uid));
    EscapedNoBreak(uid);
    assert value <= EscapeValue(uid);
    PlainNoSpace("UID");
    TrimLine("UID", EscapeValue(uid));
    TrimTrims(Line("UID", EscapeValue(uid)));
    PlainHead(cs, "UID", value);
    PlainHead(cs, "VERSION", "3.0");
    assert Line("VERSION", "3.0") == "VERSION:3.0";
    UnescapeTrimmed(EscapeValue(uid));
    VersionTrimmed();
    assert [Line("UID", EscapeValue(uid))][1..] == [];
    var last := [Line("UID", value)];
    var ls := ["VERSION:3.0"] + last;
    assert ls[1..] == last && last[1..] == [];
    assert UidAfter(cs, None, last) == UidAfter(cs, Some(UnescapeText(value)), []) == Some(UnescapeText(value));
  }

  lemma {:induction false} VersionTrimmed()
    ensures Trimmed("VERSION:3.0") && Whole("VERSION:3.0")
  {
  }

  /** The same for a card printed from scratch; its identity survives exactly when no backslash in it stands before an `n`. */
  lemma {:induction false} BuildSurvivesExact(cs: CaseMap, uid: string, c: Card)
    ensures Fits(cs, c) ==> Parsed(cs, Built(cs, uid, c)).card == Back(cs, c)
    ensures NoSpacesOnly(c.addresses) && Parsed(cs, Built(cs, uid, c)).card == Back(cs, c) ==> Fits(cs, c)
    ensures Parsed(cs, Built(cs, uid, c)).uid == Some(Trim(uid)) <==> Clean(uid)
  {
    hide Cleaned, Unfold, Managed, Join, AllOwned, Fits, ReadFrom, UidAfter, Back, Rewritten, Envelope, Trimmed, Whole, EscapeValue, UnescapeText,
         Trim, TrimEnd, Clean, Line, NamedRaw, NoSpacesOnly;
    var managed, version, uidLine := Managed(cs, c), ["VERSION:3.0"], Line("UID", EscapeValue(uid));
    var all := ["BEGIN:VCARD"] + version + [uidLine] + managed + ["END:VCARD"];
    var trimmed := Line("UID", TrimEnd(EscapeValue(uid)));
    EnvelopeLines(cs);
    ManagedOwned(cs, c);
    UidLineSettled(cs, uid);
    BuiltWhole(cs, all, uidLine, managed);
    UnfoldJoined(all);
    CleanedIdle(["BEGIN:VCARD"]);
    CleanedIdle(version);
    CleanedIdle(["END:VCARD"]);
    CleanedAppend(["BEGIN:VCARD"] + version + [uidLine] + managed, ["END:VCARD"]);
    CleanedAppend(["BEGIN:VCARD"] + version + [uidLine], managed);
    CleanedAppend(["BEGIN:VCARD"] + version, [uidLine]);
    CleanedAppend(["BEGIN:VCARD"], version);
    var before, after: seq<string> := version + [trimmed], [];
    assert Cleaned(all) == Enclosed("BEGIN:VCARD", before, Cleaned(managed), after);
    EnclosedRead(cs, before, c, after);
    assert before + after == before;
    TextRoundTripExact(uid);
    CardExact(cs, c);
  }

  lemma {:induction false} BuiltWhole(cs: CaseMap, all: seq<string>, uidLine: string, managed: seq<string>)
    requires Whole(uidLine) && AllOwned(cs, managed)
    requires all == ["BEGIN:VCARD"] + ["VERSION:3.0"] + [uidLine] + managed + ["END:VCARD"]
    ensures WholeLines(all)
  {
    hide Whole, Rewritten, Trim;
    assert WholeLines(managed);
    hide WholeLines;
    EnvelopeLines(cs);
    VersionTrimmed();
    WholeOne("BEGIN:VCARD");
    WholeOne("VERSION:3.0");
    WholeOne(uidLine);
    WholeOne("END:VCARD");
    WholeAppend(["BEGIN:VCARD"], ["VERSION:3.0"]);
    WholeAppend(["BEGIN:VCARD"] + ["VERSION:3.0"], [uidLine]);
    WholeAppend(["BEGIN:VCARD"] + ["VERSION:3.0"] + [uidLine], managed);
    WholeAppend(["BEGIN:VCARD"] + ["VERSION:3.0"] + [uidLine] + managed, ["END:VCARD"]);
  }

  /** Where there is no card to merge into, a merge prints one from scratch. */
  lemma {:induction false} MergedIntoNothing(cs: CaseMap, uid: string, raw: Option<string>, c: Card)
    requires raw.None? || !HasBegin(raw.value)
    ensures Fits(cs, c) ==> Parsed(cs, Merged(cs, uid, raw, c)).card == Back(cs, c)
    ensures Clean(uid) ==> Parsed(cs, Merged(cs, uid, raw, c)).uid == Some(Trim(uid))
  {
    hide Built, Parsed, Fits, Back, Clean, Trim, HasBegin;
    BuildSurvivesExact(cs, uid, c);
  }

  /** A name of two words is printed family name first. */
  lemma {:induction false} NamePrinted(given: string, family: string)
    requires given != "" && family != "" && (forall k :: 0 <= k < |given| ==> !IsSpace(given[k])) && forall k :: 0 <= k < |family| ==> !IsSpace(family[k])
    ensures NameValue(given + " " + family) == EscapeValue(family) + ";" + EscapeValue(given) + ";;;"
  {
    hide EscapeValue, IsSpace;
    SpaceDivides();
    WordsOfTwo("", given, family);
    assert "" + given == given;
    var ws := Words("", given + " " + family);
    assert ws[..1] == [given] && Join([given], " ") == given;
    assert Semi(EscapeValue(family), Semi(EscapeValue(given), ";;")) == EscapeValue(family) + ";" + EscapeValue(given) + ";;;";
  }

  lemma {:induction false} WordsOfTwo(cur: string, a: string, b: string)
    requires cur + a != "" && b != "" && (forall k :: 0 <= k < |a| ==> !IsSpace(a[k])) && forall k :: 0 <= k < |b| ==> !IsSpace(b[k])
    ensures Words(cur, a + " " + b) == [cur + a, b]
    decreases |a|
  {
    hide IsSpace;
    SpaceDivides();
    var s := a + " " + b;
    if a == "" {
      assert s[0] == ' ' && s[1..] == b && cur + a == cur && cur != "";
      OneWordOf("", b);
      assert "" + b == b;
    } else {
      assert s[0] == a[0] && s[1..] == a[1..] + " " + b;
      assert cur + [a[0]] + a[1..] == cur + a;
      WordsOfTwo(cur + [a[0]], a[1..], b);
    }
  }

  lemma {:induction false} OneWordOf(cur: string, s: string)
    requires cur + s != "" && forall k :: 0 <= k < |s| ==> !IsSpace(s[k])
    ensures Words(cur, s) == [cur + s]
    decreases |s|
  {
    hide IsSpace;
    if s == "" {
      assert cur + s == cur;
    } else {
      assert cur + [s[0]] + s[1..] == cur + s;
      OneWordOf(cur + [s[0]], s[1..]);
    }
  }

  /** Text that is read as it stands. */
  predicate AsIs(v: string) {
    Trimmed(v) && '\\' !in v && ';' !in v && ',' !in v && '\n' !in v
  }

  lemma {:induction false} ReadAsIs(v: string)
    requires AsIs(v)
    ensures UnescapeText(v) == v
  {
    hide UnescapeText, Trim, Trimmed;
    EscapePlain(v);
    NoBackslash(v);
    TextBack(v);
    TrimIdle(v);
  }

  lemma {:induction false} NoBackslash(v: string)
    requires '\\' !in v
    ensures Clean(v)
  {
  }

  /** A structured name is read given name first, from the second component and the first. */
  lemma {:induction false} NameComponents(family: string, given: string, rest: string)
    requires AsIs(family) && AsIs(given) && family != "" && given != ""
    ensures ReadName(family + ";" + (given + ";" + rest)) == Some(given + " " + family)
  {
    hide UnescapeText, Trim, SplitAt, IsSpace;
    SplitCons("", family, given + ";" + rest, ';');
    SplitCons("", given, rest, ';');
    assert "" + family == family && "" + given == given;
    ReadAsIs(family);
    ReadAsIs(given);
    var name := given + " " + family;
    assert name[0] == given[0] && name[|name| - 1] == family[|family| - 1];
    TrimIdle(name);
  }

  /** An address is read from its third component on: street, town, region, postal code, country. */
  lemma {:induction false} AddressComponents(cs: CaseMap, kinds: seq<string>, box: string, extended: string, street: string, town: string, region: string,
                            code: string, country: string)
    requires AsIs(box) && AsIs(extended) && AsIs(street) && AsIs(town) && AsIs(region) && AsIs(code) && AsIs(country)
    ensures var v := box + ";" + (extended + ";" + (street + ";" + (town + ";" + (region + ";" + (code + ";" + country)))));
            ReadAddress(cs, kinds, v) == Address(LabelType(cs, kinds), street, town, region, code, country)
  {
    hide UnescapeText, SplitAt, LabelType, AsIs;
    SevenPieces(box, extended, street, town, region, code, country);
    ReadAsIs(street);
    ReadAsIs(town);
    ReadAsIs(region);
    ReadAsIs(code);
    ReadAsIs(country);
  }

  lemma {:induction false} SevenPieces(a: string, b: string, c: string, d: string, e: string, f: string, g: string)
    requires AsIs(a) && AsIs(b) && AsIs(c) && AsIs(d) && AsIs(e) && AsIs(f) && AsIs(g)
    ensures SplitAt("", a + ";" + (b + ";" + (c + ";" + (d + ";" + (e + ";" + (f + ";" + g))))), ';') == [a, b, c, d, e, f, g]
  {
    hide SplitAt, Trimmed;
    SplitNone("", g, ';');
    SplitCons("", f, g, ';');
    SplitCons("", e, f + ";" + g, ';');
    SplitCons("", d, e + ";" + (f + ";" + g), ';');
    SplitCons("", c, d + ";" + (e + ";" + (f + ";" + g)), ';');
    SplitCons("", b, c + ";" + (d + ";" + (e + ";" + (f + ";" + g))), ';');
    SplitCons("", a, b + ";" + (c + ";" + (d + ";" + (e + ";" + (f + ";" + g)))), ';');
    assert forall s: string :: "" + s == s;
  }
}
