/**
 * What the card codec promises: a card survives its own printer, and a merge changes nothing but the
 * properties it rewrites.
 */
module CardRoundTrip {
  import opened Wrappers
  import opened Text
  import opened Casing
  import opened Folding
  import opened CardText
  import opened Cards

  // ---- splitting and lines ----

  lemma {:induction false} SplitNone(cur: string, s: string, sep: char)
    requires sep !in s
    ensures SplitAt(cur, s, sep) == [cur + s]
    decreases |s|
  {
    if s == "" {
      assert cur + s == cur;
    } else {
      SplitNone(cur + [s[0]], s[1..], sep);
      assert cur + [s[0]] + s[1..] == cur + s;
    }
  }

  lemma {:induction false} SplitWhere(cur: string, a: string, b: string, sep: char)
    requires sep !in a
    ensures SplitAt(cur, a + ([sep] + b), sep) == [cur + a] + SplitAt("", b, sep)
    decreases |a|
  {
    var s := a + ([sep] + b);
    if a == "" {
      assert s == [sep] + b && s[1..] == b && cur + a == cur;
    } else {
      SplitWhere(cur + [a[0]], a[1..], b, sep);
      assert s[0] == a[0] && s[1..] == a[1..] + ([sep] + b);
      assert cur + [a[0]] + a[1..] == cur + a;
    }
  }

  /** The pieces of a split hold no separator. */
  lemma {:induction false} SplitFree(cur: string, s: string, sep: char)
    requires sep !in cur
    ensures forall k :: 0 <= k < |SplitAt(cur, s, sep)| ==> sep !in SplitAt(cur, s, sep)[k]
    decreases |s|
  {
    if s != "" {
      if s[0] == sep { SplitFree("", s[1..], sep); } else { SplitFree(cur + [s[0]], s[1..], sep); }
    }
  }

  /** Trimming a line trims its value's end only. */
  lemma {:induction false} TrimLine(head: string, value: string)
    requires head != "" && !IsSpace(head[0])
    ensures Trim(Line(head, value)) == Line(head, TrimEnd(value))
  {
    hide IsSpace, TrimEnd;
    assert Line(head, value)[0] == head[0];
    assert TrimStart(Line(head, value)) == Line(head, value);
    TrimLineEnd(head, value);
  }

  lemma {:induction false} TrimLineEnd(head: string, value: string)
    ensures TrimEnd(Line(head, value)) == Line(head, TrimEnd(value))
  {
    var l := Line(head, value);
    if value == "" {
      assert l[|l| - 1] == ':';
    } else {
      assert l[|l| - 1] == value[|value| - 1];
      assert l[..|l| - 1] == Line(head, value[..|value| - 1]);
      if IsSpace(value[|value| - 1]) { TrimLineEnd(head, value[..|value| - 1]); }
    }
  }

  lemma {:induction false} PlainNoSpace(name: string)
    requires PlainName(name)
    ensures name != "" && !IsSpace(name[0]) && ':' !in name && ';' !in name && '.' !in name && '\n' !in name && !Continues(name)
  {
  }

  lemma {:induction false} HeadAndValue(cs: CaseMap, head: string, value: string)
    requires ':' !in head
    ensures ParseLine(cs, Line(head, value))
            == Some(VLine(PropOf(cs, SplitAt("", head, ';')[0]), AllKinds(cs, SplitAt("", head, ';')[1..]), value))
  {
    hide SplitAt, PropOf, AllKinds, IndexOf;
    var l := Line(head, value);
    assert l[|head|] == ':' && IndexOf(l, ':') == |head|;
    assert l[..|head|] == head && l[|head| + 1..] == value;
  }

  lemma {:induction false} PlainCapitals(cs: CaseMap, name: string)
    requires PlainName(name)
    ensures Capitals(cs, name) == name
  {
    AsciiCases(cs, name);
    NameIdle(name);
  }

  lemma {:induction false} PropNamed(cs: CaseMap, name: string)
    requires PlainName(name)
    ensures PropOf(cs, name) == Named(name)
  {
    hide Named;
    PlainNoSpace(name);
    SplitNone("", name, '.');
    PlainCapitals(cs, name);
    assert "" + name == name;
  }

  lemma {:induction false} PlainHead(cs: CaseMap, name: string, value: string)
    requires PlainName(name)
    ensures ParseLine(cs, Line(name, value)) == Some(VLine(Named(name), [], value))
  {
    hide ParseLine, Line, PropOf, Named, SplitAt;
    PlainNoSpace(name);
    HeadAndValue(cs, name, value);
    SplitNone("", name, ';');
    PropNamed(cs, name);
    assert "" + name == name;
  }

  lemma {:induction false} TypedHeadParsed(cs: CaseMap, name: string, t: string, value: string)
    requires PlainName(name) && Trimmed(t) && ':' !in t && ';' !in t && ',' !in t
    ensures ParseLine(cs, Line(name + ";TYPE=" + t, value)) == Some(VLine(Named(name), [Small(cs, t)], value))
  {
    hide ParseLine, Line, PropOf, Named, SplitAt, KindsOf, Trimmed;
    var head, param := name + ";TYPE=" + t, "TYPE=" + t;
    PlainNoSpace(name);
    assert ':' !in head;
    HeadAndValue(cs, head, value);
    assert head == name + ([';'] + param);
    SplitWhere("", name, param, ';');
    SplitNone("", param, ';');
    assert "" + name == name && "" + param == param;
    PropNamed(cs, name);
    TypeParam(cs, t);
    assert ([name] + [param])[1..] == [param] && [param][1..] == [];
    assert [Small(cs, t)] + [] == [Small(cs, t)];
  }

  lemma {:induction false} TypeParam(cs: CaseMap, t: string)
    requires Trimmed(t) && ',' !in t
    ensures KindsOf(cs, "TYPE=" + t) == [Small(cs, t)]
  {
    hide Trim, TrimStart, TrimEnd, Trimmed, IndexOf, SplitAt, Capitals, Small;
    var seg := "TYPE=" + t;
    assert seg[4] == '=' && IndexOf(seg, '=') == 4;
    assert seg[..4] == "TYPE" && seg[5..] == t;
    PlainCapitals(cs, "TYPE");
    SplitNone("", t, ',');
    assert "" + t == t;
    TrimIdle(t);
  }

  /** Reading one written line, trimmed as unfolding leaves it. */
  lemma {:induction false} ReadOne(cs: CaseMap, r: Reading, head: string, value: string)
    requires head != "" && !IsSpace(head[0])
    ensures ReadFrom(cs, r, Cleaned([Line(head, value)])) == ReadLine(cs, r, Line(head, TrimEnd(value)))
  {
    hide ReadLine, Trim, TrimEnd, IsSpace;
    TrimLine(head, value);
    var l := Line(head, TrimEnd(value));
    assert l != "";
    assert [Line(head, value)][1..] == [];
    assert Cleaned([Line(head, value)]) == [l];
    assert [l][1..] == [];
  }

  lemma {:induction false} ReadCleanedAppend(cs: CaseMap, r: Reading, a: seq<string>, b: seq<string>)
    ensures ReadFrom(cs, r, Cleaned(a + b)) == ReadFrom(cs, ReadFrom(cs, r, Cleaned(a)), Cleaned(b))
  {
    hide ReadFrom, Cleaned;
    CleanedAppend(a, b);
    ReadAppend(cs, r, Cleaned(a), Cleaned(b));
  }

  // ---- values ----

  lemma {:induction false} CleanPrefix(v: string, p: string)
    requires Clean(v) && p <= v
    ensures Clean(p)
  {
    forall k: nat | k < |p| ensures !EscapedN(p, k) {
      assert !EscapedN(v, k);
    }
  }

  lemma {:induction false} CleanTrim(v: string)
    ensures Clean(Trim(v)) <==> Clean(v)
  {
    hide TrimStart, TrimEnd, IsSpace;
    CleanAfterTrimStart(v);
    var t := TrimStart(v);
    if Clean(t) {
      CleanPrefix(t, TrimEnd(t));
    } else {
      var k: nat :| k < |t| && EscapedN(t, k);
      NIsNoSpace(t[k + 1]);
      TrimEndKeeps(t, k + 1);
      assert EscapedN(TrimEnd(t), k);
    }
  }

  /** A clean value read from its line, whether or not it was trimmed before printing. */
  lemma {:induction false} TextBack(v: string)
    requires Clean(v)
    ensures UnescapeText(TrimEnd(EscapeValue(Trim(v)))) == Trim(v)
    ensures UnescapeText(TrimEnd(EscapeValue(v))) == Trim(v)
    ensures UnescapeText(EscapeValue(v)) == Trim(v)
  {
    hide Trim, TrimEnd, EscapeValue, UnescapeText, Clean;
    CleanTrim(v);
    TrimTrims(v);
    TrimIdle(Trim(v));
    TextRoundTripExact(Trim(v));
    TextRoundTripExact(v);
    UnescapeTrimmed(EscapeValue(Trim(v)));
    UnescapeTrimmed(EscapeValue(v));
  }

  /** Escaping a value without a separator leaves none in it, and one with a separator leaves one. */
  lemma {:induction false} EscapedSeparator(v: string, sep: char)
    requires sep == ';' || sep == ','
    ensures sep in EscapeValue(v) <==> sep in v
  {
    hide EscapeValue;
    EscapeValueIsCharacterwise(v);
    EscapeEachSeparator(v, sep);
  }

  lemma {:induction false} EscapeEachSeparator(v: string, sep: char)
    requires sep == ';' || sep == ','
    ensures sep in EscapeEach(v) <==> sep in v
  {
    if v != "" {
      EscapeEachSeparator(v[1..], sep);
      assert v == [v[0]] + v[1..];
      assert sep in EscapeOne(v[0]) <==> sep == v[0];
    }
  }

  lemma {:induction false} EscapedNoBreak(v: string)
    ensures '\n' !in EscapeValue(v)
  {
    hide EscapeValue;
    EscapeValueIsCharacterwise(v);
    EscapeEachNoBreak(v);
  }

  lemma {:induction false} EscapeEachNoBreak(v: string)
    ensures '\n' !in EscapeEach(v)
  {
    if v != "" {
      EscapeEachNoBreak(v[1..]);
      assert '\n' !in EscapeOne(v[0]);
    }
  }

  /** Unescaping invents no separator. */
  lemma {:induction false} PassedInvents(s: string, c: char)
    requires c != '\n' && c !in s
    ensures c !in UnescapeText(s)
  {
    hide Trim, BreaksBack, DropEscapes;
    BreaksBackInvents(s, c);
    DropEscapesInvents(BreaksBack(s), c);
    TrimInvents(Passed(s), c);
  }

  lemma {:induction false} BreaksBackInvents(s: string, c: char)
    requires c != '\n' && c !in s
    ensures c !in BreaksBack(s)
  {
    if s != "" {
      if s[0] == '\\' && |s| > 1 && IsN(s[1]) { BreaksBackInvents(s[2..], c); } else { BreaksBackInvents(s[1..], c); }
    }
  }

  lemma {:induction false} DropEscapesInvents(s: string, c: char)
    requires c !in s
    ensures c !in DropEscapes(s)
  {
    if s != "" {
      if s[0] == '\\' && |s| > 1 && (s[1] == ',' || s[1] == ';' || s[1] == '\\') {
        DropEscapesInvents(s[2..], c);
      } else {
        DropEscapesInvents(s[1..], c);
      }
    }
  }

  lemma {:induction false} TrimInvents(s: string, c: char)
    requires c !in s
    ensures c !in Trim(s)
  {
    var t := TrimStart(s);
    assert forall x :: x in t ==> x in s;
  }

  lemma {:induction false} TrimLosesNone(s: string, c: char)
    requires c in s && !IsSpace(c)
    ensures c in Trim(s)
  {
    hide TrimEnd, IsSpace;
    TrimStartLosesNone(s, c);
    var t := TrimStart(s);
    var k: nat :| k < |t| && t[k] == c;
    TrimEndKeeps(t, k);
    assert TrimEnd(t)[k] == c;
  }

  lemma {:induction false} TrimStartLosesNone(s: string, c: char)
    requires c in s && !IsSpace(c)
    ensures c in TrimStart(s)
  {
    if IsSpace(s[0]) { TrimStartLosesNone(s[1..], c); }
  }

  // ---- the split fields, exactly ----

  /** The company survives exactly when it is clean and holds no semicolon: the reader splits before it unescapes. */
  lemma {:induction false} OrgRoundTripExact(v: string)
    ensures UnescapeText(SplitAt("", EscapeValue(v) + ";", ';')[0]) == Trim(v) <==> Clean(v) && ';' !in v
  {
    hide EscapeValue, UnescapeText, Trim, SplitAt, Clean, IsSpace;
    EscapedSeparator(v, ';');
    SemicolonIsNoSpace();
    if ';' in v {
      var value := EscapeValue(v) + ";";
      SplitFree("", value, ';');
      PassedInvents(SplitAt("", value, ';')[0], ';');
      TrimLosesNone(v, ';');
    } else {
      SplitWhere("", EscapeValue(v), "", ';');
      assert EscapeValue(v) + ([';'] + "") == EscapeValue(v) + ";" && "" + EscapeValue(v) == EscapeValue(v);
      TextRoundTripExact(v);
    }
  }

  lemma {:induction false} SemicolonIsNoSpace()
    ensures !IsSpace(';') && !IsSpace(',')
  {
  }

  lemma {:induction false} EscapedParts(vs: seq<string>)
    requires vs != [] && forall k :: 0 <= k < |vs| ==> ',' !in vs[k]
    ensures SplitAt("", Join(EscapeAll(vs), ","), ',') == EscapeAll(vs)
  {
    hide EscapeValue, SplitAt;
    var es := EscapeAll(vs);
    forall k | 0 <= k < |es| ensures ',' !in es[k] { EscapedSeparator(vs[k], ','); }
    SplitJoined(es);
  }

  lemma {:induction false} SplitJoined(es: seq<string>)
    requires es != [] && forall k :: 0 <= k < |es| ==> ',' !in es[k]
    ensures SplitAt("", Join(es, ","), ',') == es
  {
    hide SplitAt;
    var front, last := es[..|es| - 1], es[|es| - 1];
    if front == [] {
      SplitNone("", last, ',');
      assert "" + last == last && es == [last];
    } else {
      SplitJoined(front);
      SplitMore("", Join(front, ","), last);
      assert Join(es, ",") == Join(front, ",") + ([','] + last);
      SplitNone("", last, ',');
      assert "" + last == last && es == front + [last];
    }
  }

  lemma {:induction false} SplitMore(cur: string, a: string, b: string)
    ensures SplitAt(cur, a + ([','] + b), ',') == SplitAt(cur, a, ',') + SplitAt("", b, ',')
    decreases |a|
  {
    var s := a + ([','] + b);
    if a == "" {
      assert s == [','] + b && s[1..] == b;
    } else {
      assert s[0] == a[0] && s[1..] == a[1..] + ([','] + b);
      if a[0] == ',' { SplitMore("", a[1..], b); } else { SplitMore(cur + [a[0]], a[1..], b); }
    }
  }

  lemma {:induction false} NonEmptyIdle(vs: seq<string>)
    requires forall k :: 0 <= k < |vs| ==> vs[k] != ""
    ensures NonEmpty(vs) == vs
  {
    if vs != [] {
      NonEmptyIdle(vs[1..]);
      assert [vs[0]] + vs[1..] == vs;
    }
  }

  lemma {:induction false} NonEmptySub(vs: seq<string>)
    ensures forall k :: 0 <= k < |NonEmpty(vs)| ==> NonEmpty(vs)[k] != "" && NonEmpty(vs)[k] in vs
  {
    if vs != [] { NonEmptySub(vs[1..]); }
  }

  /** An unclean value changes but does not disappear. */
  lemma {:induction false} NeverEmpty(v: string)
    requires v != "" && Trimmed(v)
    ensures UnescapeText(EscapeValue(v)) != ""
  {
    hide EscapeValue, EscapeEach, Passed, TrimEnd, Garbled, IsSpace;
    EscapeValueIsCharacterwise(v);
    PassedEscape(v);
    var g := Garbled(v);
    assert g[0] == v[0] && TrimStart(g) == g;
    TrimEndKeeps(g, 0);
  }

  /** Trimmed and not empty, as the printer leaves the categories. */
  predicate Tidy(vs: seq<string>) {
    forall k :: 0 <= k < |vs| ==> vs[k] != "" && Trimmed(vs[k])
  }

  function CategoriesRead(cats: seq<string>): seq<string> {
    NonEmpty(UnescapeAll(SplitAt("", Join(EscapeAll(cats), ","), ',')))
  }

  /** Printed categories read back exactly when each is clean and none holds a comma. */
  lemma {:induction false} CategoriesExact(cats: seq<string>)
    requires cats != [] && Tidy(cats)
    ensures CategoriesRead(cats) == cats <==> forall k :: 0 <= k < |cats| ==> Clean(cats[k]) && ',' !in cats[k]
  {
    hide EscapeValue, UnescapeText, SplitAt, Join, Clean, Trimmed, NonEmpty;
    if i :| 0 <= i < |cats| && ',' in cats[i] {
      var pieces := SplitAt("", Join(EscapeAll(cats), ","), ',');
      SplitFree("", Join(EscapeAll(cats), ","), ',');
      forall k | 0 <= k < |pieces| ensures ',' !in UnescapeAll(pieces)[k] { PassedInvents(pieces[k], ','); }
      NonEmptySub(UnescapeAll(pieces));
      assert forall k :: 0 <= k < |CategoriesRead(cats)| ==> ',' !in CategoriesRead(cats)[k];
    } else {
      EscapedParts(cats);
      var back := UnescapeAll(EscapeAll(cats));
      forall k | 0 <= k < |cats| ensures back[k] != "" && (back[k] == cats[k] <==> Clean(cats[k])) {
        NeverEmpty(cats[k]);
        TextRoundTripExact(cats[k]);
        TrimIdle(cats[k]);
      }
      NonEmptyIdle(back);
      if CategoriesRead(cats) == cats {
        forall k | 0 <= k < |cats| ensures Clean(cats[k]) { assert back[k] == cats[k]; }
      }
    }
  }

  // ---- what reads back ----

  predicate Separated(v: string, sep: char) {
    Clean(v) && sep !in v
  }

  predicate AddressFits(a: Address) {
    Separated(a.street, ';') && Separated(a.locality, ';') && Separated(a.region, ';') && Separated(a.postalCode, ';')
    && Separated(a.country, ';')
  }

  function TrimmedAddress(a: Address): Address {
    Address(a.kind, Trim(a.street), Trim(a.locality), Trim(a.region), Trim(a.postalCode), Trim(a.country))
  }

  /** A written address reads back, field by field trimmed, exactly when every field is clean and holds no semicolon. */
  lemma {:induction false} AddressExact(cs: CaseMap, a: Address)
    ensures ReadAddress(cs, [], TrimEnd(AddressValue(a))) == TrimmedAddress(a).(kind := None) <==> AddressFits(a)
  {
    hide EscapeValue, UnescapeText, Trim, TrimEnd, Clean, SplitAt, IsSpace;
    var fields := [a.street, a.locality, a.region, a.postalCode, a.country];
    var value := TrimEnd(AddressValue(a));
    if f :| f in fields && ';' in f {
      var pieces := SplitAt("", value, ';');
      SplitFree("", value, ';');
      forall k | 0 <= k < |pieces| ensures ';' !in UnescapeAll(pieces)[k] { PassedInvents(pieces[k], ';'); }
      SemicolonIsNoSpace();
      TrimLosesNone(f, ';');
      assert forall k: nat :: ';' !in At(UnescapeAll(pieces), k);
    } else {
      assert forall k :: 0 <= k < 5 ==> fields[k] in fields;
      assert ';' !in fields[0] && ';' !in fields[1] && ';' !in fields[2] && ';' !in fields[3] && ';' !in fields[4];
      AddressPieces(a);
      FieldExact(a.street);
      FieldExact(a.locality);
      FieldExact(a.region);
      FieldExact(a.postalCode);
      FieldExact(a.country);
    }
  }

  lemma {:induction false} FieldExact(v: string)
    ensures UnescapeText(EscapeValue(v)) == Trim(v) <==> Clean(v)
    ensures UnescapeText(TrimEnd(EscapeValue(v))) == Trim(v) <==> Clean(v)
  {
    hide *;
    TextRoundTripExact(v);
    UnescapeTrimmed(EscapeValue(v));
  }

  lemma {:induction false} AddressPieces(a: Address)
    requires ';' !in a.street && ';' !in a.locality && ';' !in a.region && ';' !in a.postalCode && ';' !in a.country
    ensures SplitAt("", TrimEnd(AddressValue(a)), ';')
            == ["", "", EscapeValue(a.street), EscapeValue(a.locality), EscapeValue(a.region), EscapeValue(a.postalCode),
                TrimEnd(EscapeValue(a.country))]
  {
    hide EscapeValue, TrimEnd, SplitAt, Semi;
    var s, l, g, p, c := EscapeValue(a.street), EscapeValue(a.locality), EscapeValue(a.region), EscapeValue(a.postalCode), EscapeValue(a.country);
    EscapedSeparator(a.street, ';');
    EscapedSeparator(a.locality, ';');
    EscapedSeparator(a.region, ';');
    EscapedSeparator(a.postalCode, ';');
    EscapedSeparator(a.country, ';');
    var e := TrimEnd(c);
    assert e <= c;
    OnePiece(e);
    FirstPiece(p, c);
    FirstPiece(g, Semi(p, c));
    FirstPiece(l, Semi(g, Semi(p, c)));
    FirstPiece(s, Semi(l, Semi(g, Semi(p, c))));
    FirstPiece("", Semi(s, Semi(l, Semi(g, Semi(p, c)))));
    FirstPiece("", Semi("", Semi(s, Semi(l, Semi(g, Semi(p, c))))));
  }

  lemma {:induction false} OnePiece(e: string)
    requires ';' !in e
    ensures SplitAt("", e, ';') == [e]
  {
    SplitNone("", e, ';');
    assert "" + e == e;
  }

  lemma {:induction false} FirstPiece(first: string, rest: string)
    requires ';' !in first
    ensures SplitAt("", TrimEnd(Semi(first, rest)), ';') == [first] + SplitAt("", TrimEnd(rest), ';')
  {
    hide SplitAt, TrimEnd;
    TrimEndAfter(first, rest);
    SplitWhere("", first, TrimEnd(rest), ';');
    assert "" + first == first;
  }

  lemma {:induction false} TrimEndAfter(head: string, c: string)
    ensures TrimEnd(Semi(head, c)) == Semi(head, TrimEnd(c))
  {
    hide IsSpace;
    var l := Semi(head, c);
    SemicolonIsNoSpace();
    if c == "" {
      assert l[|l| - 1] == ';';
    } else {
      assert l[|l| - 1] == c[|c| - 1];
      assert l[..|l| - 1] == Semi(head, c[..|c| - 1]);
      if IsSpace(c[|c| - 1]) { TrimEndAfter(head, c[..|c| - 1]); }
    }
  }

  // ---- lines other writers print ----

  lemma {:induction false} SplitCons(cur: string, a: string, b: string, sep: char)
    requires sep !in a
    ensures SplitAt(cur, a + [sep] + b, sep) == [cur + a] + SplitAt("", b, sep)
  {
    SplitWhere(cur, a, b, sep);
    assert a + [sep] + b == a + ([sep] + b);
  }

  /** A group in front of the property changes nothing: the line is read as the line without it. */
  lemma {:induction false} GroupDropped(cs: CaseMap, group: string, line: string)
    requires '.' !in group && ':' !in group && ';' !in group
    ensures ParseLine(cs, group + "." + line) == ParseLine(cs, line)
  {
    hide AllKinds, Named, Capitals, SplitAt, IndexOf;
    var whole := group + "." + line;
    var pre := |group| + 1;
    assert whole[pre..] == line && forall k :: 0 <= k < pre ==> whole[k] != ':';
    var colon := IndexOf(line, ':');
    if colon < 0 {
      assert forall k :: 0 <= k < |line| ==> line[k] in line;
      assert forall k :: pre <= k < |whole| ==> whole[k] == line[k - pre];
      assert IndexOf(whole, ':') < 0;
    } else {
      assert whole[pre + colon] == ':' && forall k :: 0 <= k < pre + colon ==> whole[k] != ':' by {
        forall k | pre <= k < pre + colon ensures whole[k] != ':' {
          assert whole[k] == line[k - pre];
        }
      }
      assert IndexOf(whole, ':') == pre + colon;
      var head := line[..colon];
      assert whole[..pre + colon] == group + "." + head && whole[pre + colon + 1..] == line[colon + 1..];
      GroupedHead(cs, group, head);
    }
  }

  lemma {:induction false} GroupedHead(cs: CaseMap, group: string, head: string)
    requires '.' !in group && ';' !in group
    ensures var a, b := SplitAt("", group + "." + head, ';'), SplitAt("", head, ';');
            a[1..] == b[1..] && PropOf(cs, a[0]) == PropOf(cs, b[0])
  {
    hide Named, Capitals;
    var b := SplitAt("", head, ';');
    SplitPrefix(group + ".", head, ';');
    SplitCons("", group, b[0], '.');
    assert "" + group == group;
    var dotted := SplitAt("", b[0], '.');
    assert ([group] + dotted)[|dotted|] == dotted[|dotted| - 1];
  }

  /** Text without the separator in front belongs to the first piece. */
  lemma {:induction false} SplitPrefix(pre: string, s: string, sep: char)
    requires sep !in pre
    ensures var a, b := SplitAt("", pre + s, sep), SplitAt("", s, sep); a == [pre + b[0]] + b[1..]
  {
    SplitBuffer("", pre, s, sep);
    SplitLead(pre, s, sep);
    assert "" + pre == pre;
  }

  lemma {:induction false} SplitBuffer(cur: string, pre: string, s: string, sep: char)
    requires sep !in pre
    ensures SplitAt(cur, pre + s, sep) == SplitAt(cur + pre, s, sep)
    decreases |pre|
  {
    if pre == "" {
      assert pre + s == s && cur + pre == cur;
    } else {
      SplitBuffer(cur + [pre[0]], pre[1..], s, sep);
      assert (pre + s)[0] == pre[0] && (pre + s)[1..] == pre[1..] + s;
      assert cur + [pre[0]] + pre[1..] == cur + pre;
    }
  }

  lemma {:induction false} SplitLead(cur: string, s: string, sep: char)
    ensures var a, b := SplitAt(cur, s, sep), SplitAt("", s, sep); a == [cur + b[0]] + b[1..]
    decreases |s|
  {
    if s == "" {
      assert cur + "" == cur;
    } else if s[0] == sep {
      assert cur + "" == cur;
    } else {
      SplitLead(cur + [s[0]], s[1..], sep);
      SplitLead([s[0]], s[1..], sep);
      assert "" + [s[0]] == [s[0]];
      var c := SplitAt("", s[1..], sep);
      assert cur + [s[0]] + c[0] == cur + ([s[0]] + c[0]);
    }
  }

  /** The types of a parameter: a bare one is its text, TYPE in any case lists some, any other parameter gives none. */
  lemma {:induction false} ParameterKinds(cs: CaseMap, key: string, a: string, b: string)
    requires '=' !in key && ',' !in a
    ensures KindsOf(cs, key) == [Small(cs, Trim(key))]
    ensures Ascii(key) && Upper(key) == "TYPE" ==> KindsOf(cs, key + "=" + a) == [Small(cs, Trim(a))]
    ensures Ascii(key) && Upper(key) == "TYPE" ==> KindsOf(cs, key + "=" + (a + "," + b)) == [Small(cs, Trim(a))] + KindsOf(cs, key + "=" + b)
    ensures Ascii(key) && Upper(key) != "TYPE" ==> KindsOf(cs, key + "=" + a) == []
  {
    hide Trim, SplitAt, IndexOf, Capitals, Small, Upper;
    NoIndex(key, '=');
    KeyAndValue(key, a);
    KeyAndValue(key, b);
    KeyAndValue(key, a + "," + b);
    if Ascii(key) { AsciiCases(cs, key); }
    SplitNone("", a, ',');
    SplitCons("", a, b, ',');
    assert "" + a == a;
    var rest := SplitAt("", b, ',');
    assert LowerTrimmed(cs, [a] + rest) == [Small(cs, Trim(a))] + LowerTrimmed(cs, rest);
    assert LowerTrimmed(cs, [a]) == [Small(cs, Trim(a))];
  }

  lemma {:induction false} NoIndex(s: string, c: char)
    requires c !in s
    ensures IndexOf(s, c) < 0
  {
  }

  lemma {:induction false} KeyAndValue(key: string, v: string)
    requires '=' !in key
    ensures var seg := key + "=" + v; IndexOf(seg, '=') == |key| && seg[..|key|] == key && seg[|key| + 1..] == v
  {
    hide IndexOf;
    var seg := key + "=" + v;
    assert seg[|key|] == '=' && forall k :: 0 <= k < |key| ==> seg[k] == key[k] && key[k] in key;
  }

  /** The label is the first type that is neither empty nor noise; without one there is none. */
  lemma {:induction false} LabelIsFirst(cs: CaseMap, before: seq<string>, k: string, after: seq<string>)
    requires forall j :: 0 <= j < |before| ==> before[j] == "" || before[j] in {"internet", "voice", "pref", "x-pref"}
    ensures LabelType(cs, before) == None
    ensures k != "" && k !in {"internet", "voice", "pref", "x-pref"} ==> LabelType(cs, before + [k] + after) == Some(Capitalised(cs, k))
  {
    hide Capitalised;
    if before == [] {
      assert before + [k] + after == [k] + after && ([k] + after)[0] == k;
    } else {
      LabelIsFirst(cs, before[1..], k, after);
      assert (before + [k] + after)[0] == before[0] && (before + [k] + after)[1..] == before[1..] + [k] + after;
    }
  }

  /** Of several names the last formatted one counts and the first structured one; of several identities the last. */
  lemma {:induction false} RepeatedProperties(cs: CaseMap, r: Reading, value: string)
    ensures Read(cs, r, VLine(FormattedName, [], value)).card.name == Some(UnescapeText(value))
    ensures Read(cs, r, VLine(Uid, [], value)).uid == Some(UnescapeText(value))
    ensures Read(cs, r, VLine(StructuredName, [], value)).structured == if r.structured.Some? then r.structured else ReadName(value)
    ensures UnescapeText(value) != "" ==> Read(cs, r, VLine(Email, [], value)).card.emails == r.card.emails + [UnescapeText(value)]
    ensures UnescapeText(value) == "" ==> Read(cs, r, VLine(Email, [], value)).card.emails == r.card.emails
  {
    hide UnescapeText, ReadName, SplitAt, LabelType, ReadAddress, UnescapeAll;
  }
}
