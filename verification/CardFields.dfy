/**
 * The edited fields of a contact card one by one (contacts/vcard.ts): what each parses to after printing, what it
 * should be, and exactly when the two agree.
 */
module CardFields {
  import opened Wrappers
  import opened Text
  import opened Casing
  import opened Folding
  import opened CardText
  import opened Cards
  import opened CardRoundTrip

  // ---- what an edited card reads back as ----

  /** A label the reader tokenises as one type. */
  predicate OneType(kind: Option<string>) {
    var t := Trim(TextOf(kind));
    ':' !in t && ';' !in t && ',' !in t && '\\' !in t && '\n' !in t
  }

  /** And whose capitals the reader turns back into the same label, not into one of its noise types: voice, pref, x-pref, internet. */
  predicate KindFits(cs: CaseMap, kind: Option<string>) {
    var t := Trim(TextOf(kind));
    var back := Small(cs, Capitals(cs, t));
    OneType(kind) && !Noise(back) && Capitalised(cs, back) == Capitalised(cs, Small(cs, t))
  }

  /** The label trimmed, in small letters with a capital. */
  function KindBack(cs: CaseMap, kind: Option<string>): Option<string> {
    Nullable(Capitalised(cs, Small(cs, Trim(TextOf(kind)))))
  }

  /** The label the reader makes of the one type `t`. */
  function KindRead(cs: CaseMap, t: string): Option<string> {
    var back := Small(cs, Capitals(cs, t));
    if Noise(back) then None else Nullable(Capitalised(cs, back))
  }

  /** Blank values are dropped, whatever their label. */
  predicate TypedFit(cs: CaseMap, ts: seq<Typed>) {
    forall k :: 0 <= k < |ts| && Trim(ts[k].value) != "" ==> Clean(ts[k].value) && KindFits(cs, ts[k].kind)
  }

  function TypedBack(cs: CaseMap, ts: seq<Typed>): seq<Typed> {
    if ts == [] then []
    else (if Trim(ts[0].value) == "" then [] else [Typed(KindBack(cs, ts[0].kind), Trim(ts[0].value))]) + TypedBack(cs, ts[1..])
  }

  function AddressesBack(cs: CaseMap, ads: seq<Address>): seq<Address> {
    if ads == [] then []
    else
      var a := TrimmedAddress(ads[0]);
      (if Blank(a) then [] else [a.(kind := KindBack(cs, a.kind))]) + AddressesBack(cs, ads[1..])
  }

  predicate Fits(cs: CaseMap, c: Card) {
    && Clean(TextOf(c.name)) && Clean(TextOf(c.nickname)) && Separated(TextOf(c.org), ';') && Clean(TextOf(c.title))
    && (forall k :: 0 <= k < |c.emails| ==> Clean(c.emails[k]))
    && TypedFit(cs, c.phones) && TypedFit(cs, c.urls)
    && (forall k :: 0 <= k < |c.addresses| && !Blank(c.addresses[k]) ==> AddressFits(c.addresses[k]) && KindFits(cs, c.addresses[k].kind))
    && Clean(TextOf(c.birthday)) && Clean(TextOf(c.note))
    && (forall k :: 0 <= k < |c.categories| ==> Separated(c.categories[k], ','))
  }

  function FieldBack(o: Option<string>): Option<string> {
    Nullable(Trim(TextOf(o)))
  }

  /** The card trimmed, blank values dropped, labels capitalised. */
  function Back(cs: CaseMap, c: Card): Card {
    Card(FieldBack(c.name), FieldBack(c.nickname), FieldBack(c.org), FieldBack(c.title),
         NonEmpty(TrimAll(c.emails)), TypedBack(cs, c.phones), TypedBack(cs, c.urls), AddressesBack(cs, c.addresses),
         FieldBack(c.birthday), FieldBack(c.note), NonEmpty(TrimAll(c.categories)))
  }

  lemma {:induction false} Names()
    ensures PlainName("FN") && PlainName("N") && PlainName("NICKNAME") && PlainName("ORG") && PlainName("TITLE") && PlainName("EMAIL")
    ensures PlainName("TEL") && PlainName("URL") && PlainName("ADR") && PlainName("BDAY") && PlainName("NOTE") && PlainName("CATEGORIES")
    ensures PlainName("UID") && PlainName("BEGIN") && PlainName("END") && PlainName("VERSION")
  {
  }

  lemma {:induction false} Properties()
    ensures Named("FN").FormattedName? && Named("N").StructuredName? && Named("NICKNAME").Nickname? && Named("ORG").Organisation?
    ensures Named("TITLE").Title? && Named("EMAIL").Email? && Named("TEL").Phone? && Named("URL").Url? && Named("ADR").Postal?
    ensures Named("BDAY").Birthday? && Named("NOTE").Note? && Named("CATEGORIES").Categories?
    ensures Named("UID").Uid? && Named("BEGIN").Begin? && Named("END").End? && Named("VERSION").Other?
  {
    hide Named;
    ShortProperties();
    LongProperties();
  }

  lemma {:induction false} ShortProperties()
    ensures Named("FN").FormattedName? && Named("N").StructuredName? && Named("ORG").Organisation? && Named("TEL").Phone?
    ensures Named("URL").Url? && Named("ADR").Postal? && Named("BDAY").Birthday? && Named("NOTE").Note? && Named("UID").Uid?
  {
  }

  lemma {:induction false} LongProperties()
    ensures Named("NICKNAME").Nickname? && Named("TITLE").Title? && Named("EMAIL").Email? && Named("CATEGORIES").Categories?
    ensures Named("BEGIN").Begin? && Named("END").End? && Named("VERSION").Other?
  {
  }

  // ---- labels ----

  lemma {:induction false} EscapePlain(v: string)
    requires ';' !in v && ',' !in v && '\\' !in v && '\n' !in v
    ensures EscapeValue(v) == v
  {
    hide EscapeValue;
    EscapeValueIsCharacterwise(v);
    EscapeEachPlain(v);
  }

  lemma {:induction false} EscapeEachPlain(v: string)
    requires ';' !in v && ',' !in v && '\\' !in v && '\n' !in v
    ensures EscapeEach(v) == v
  {
    if v != "" {
      EscapeEachPlain(v[1..]);
      assert v[0] in v && EscapeOne(v[0]) == [v[0]];
      assert [v[0]] + v[1..] == v;
    }
  }

  /** Only a mark of the text is one of its capitals. */
  lemma {:induction false} CapitalsFree(cs: CaseMap, t: string, c: char)
    requires Mark(c) && c !in t
    ensures c !in Capitals(cs, t)
  {
    MarksKept(cs, t, c);
  }

  lemma {:induction false} TypedParsed(cs: CaseMap, name: string, kind: Option<string>, value: string)
    requires PlainName(name) && OneType(kind)
    ensures var l := ParseLine(cs, Line(TypedHead(cs, name, kind), value));
            l.Some? && l.value.prop == Named(name) && l.value.value == value && LabelType(cs, l.value.kinds) == KindRead(cs, Trim(TextOf(kind)))
  {
    hide ParseLine, Line, Named, Trim, Trimmed, EscapeValue, IsSpace, Capitals, Small, Capitalised;
    var t := Trim(TextOf(kind));
    NothingVanishes(cs, t);
    NothingVanishes(cs, Capitals(cs, t));
    NothingVanishes(cs, Small(cs, Capitals(cs, t)));
    if t == "" {
      PlainHead(cs, name, value);
    } else {
      TrimTrims(TextOf(kind));
      CapitalsTrimmed(cs, t);
      CapitalsFree(cs, t, ':');
      CapitalsFree(cs, t, ';');
      CapitalsFree(cs, t, ',');
      CapitalsFree(cs, t, '\\');
      CapitalsFree(cs, t, '\n');
      EscapePlain(Capitals(cs, t));
      TypedHeadParsed(cs, name, Capitals(cs, t), value);
      OneKind(cs, Small(cs, Capitals(cs, t)));
    }
  }

  lemma {:induction false} OneKind(cs: CaseMap, k: string)
    ensures LabelType(cs, [k]) == if k == "" || Noise(k) then None else Some(Capitalised(cs, k))
  {
    assert [k][1..] == [];
  }

  lemma {:induction false} TypedHeadStarts(cs: CaseMap, name: string, kind: Option<string>)
    requires PlainName(name)
    ensures TypedHead(cs, name, kind) != "" && !IsSpace(TypedHead(cs, name, kind)[0])
  {
    hide IsSpace, Trim, EscapeValue;
    PlainNoSpace(name);
  }

  /** Whatever follows the name, a line with a colon after it is a line of that property. */
  lemma {:induction false} PropOfLine(cs: CaseMap, name: string, tail: string)
    requires PlainName(name) && (tail == "" || tail[0] == ';' || tail[0] == ':') && ':' in tail
    ensures ParseLine(cs, name + tail).Some? && ParseLine(cs, name + tail).value.prop == Named(name)
  {
    hide Named, SplitAt, PropOf, AllKinds, IndexOf, PlainName;
    var l := name + tail;
    PlainNoSpace(name);
    assert ':' in l;
    var colon := IndexOf(l, ':');
    assert forall k :: 0 <= k < |name| ==> l[k] == name[k] && name[k] in name;
    var rest := tail[..colon - |name|];
    assert l[..colon] == name + rest;
    if rest == "" {
      assert name + rest == name;
      SplitNone("", name, ';');
    } else {
      assert rest[0] == tail[0] == l[|name|] == ';';
      assert name + rest == name + ([';'] + rest[1..]);
      SplitWhere("", name, rest[1..], ';');
    }
    assert "" + name == name;
    PropNamed(cs, name);
  }

  lemma {:induction false} EscapedEnd(v: string)
    requires v != "" && !IsSpace(v[|v| - 1])
    ensures EscapeEach(v) != "" && !IsSpace(EscapeEach(v)[|EscapeEach(v)| - 1])
  {
    if |v| > 1 {
      EscapedEnd(v[1..]);
    } else {
      assert EscapeEach(v[1..]) == "" && EscapeEach(v) == EscapeOne(v[0]);
    }
  }

  lemma {:induction false} Associate<T>(a: seq<T>, b: seq<T>, c: seq<T>)
    ensures a + b + c == a + (b + c)
  {
  }

  // ---- what the reader makes of each printed field ----

  function FieldRaw(o: Option<string>): Option<string> {
    var v := Trim(TextOf(o));
    if v == "" then None else Some(UnescapeText(EscapeValue(v)))
  }

  function OrgRaw(o: Option<string>): Option<string> {
    var v := Trim(TextOf(o));
    if v == "" then None else Nullable(UnescapeText(SplitAt("", EscapeValue(v) + ";", ';')[0]))
  }

  function EmailsRaw(es: seq<string>): seq<string> {
    if es == [] then []
    else
      var v := Trim(es[0]);
      (if v == "" then [] else [UnescapeText(EscapeValue(v))]) + EmailsRaw(es[1..])
  }

  /** A line with a colon, tokenised. */
  function LineOf(cs: CaseMap, line: string): VLine {
    match ParseLine(cs, line) case Some(l) => l case None => VLine(Other, [], "")
  }

  function OneTyped(cs: CaseMap, head: string, t: Typed): Typed {
    var l := LineOf(cs, Line(TypedHead(cs, head, t.kind), TrimEnd(EscapeValue(Trim(t.value)))));
    Typed(LabelType(cs, l.kinds), UnescapeText(l.value))
  }

  function TypedRaw(cs: CaseMap, head: string, ts: seq<Typed>): seq<Typed> {
    if ts == [] then [] else (if Trim(ts[0].value) == "" then [] else [OneTyped(cs, head, ts[0])]) + TypedRaw(cs, head, ts[1..])
  }

  function OneAddress(cs: CaseMap, a: Address): Address {
    var l := LineOf(cs, Line(TypedHead(cs, "ADR", a.kind), TrimEnd(AddressValue(a))));
    ReadAddress(cs, l.kinds, l.value)
  }

  function AddressesRaw(cs: CaseMap, ads: seq<Address>): seq<Address> {
    if ads == [] then []
    else (if Blank(ads[0]) || Blank(OneAddress(cs, ads[0])) then [] else [OneAddress(cs, ads[0])]) + AddressesRaw(cs, ads[1..])
  }

  function CategoriesRaw(categories: seq<string>): seq<string> {
    var cats := NonEmpty(TrimAll(categories));
    if cats == [] then [] else CategoriesRead(cats)
  }

  function RawCard(cs: CaseMap, c: Card): Card {
    Card(Some(UnescapeText(EscapeValue(Trim(TextOf(c.name))))), FieldRaw(c.nickname), OrgRaw(c.org), FieldRaw(c.title),
         EmailsRaw(c.emails), TypedRaw(cs, "TEL", c.phones), TypedRaw(cs, "URL", c.urls), AddressesRaw(cs, c.addresses),
         FieldRaw(c.birthday), FieldRaw(c.note), CategoriesRaw(c.categories))
  }

  /** With the structured name where there is no other. */
  function NamedRaw(cs: CaseMap, c: Card): Card {
    if TextOf(RawCard(cs, c).name) == "" then RawCard(cs, c).(name := ReadName(NameValue(Trim(TextOf(c.name))))) else RawCard(cs, c)
  }

  /** No address consists of spaces alone. */
  predicate NoSpacesOnly(ads: seq<Address>) {
    forall k :: 0 <= k < |ads| ==> Blank(ads[k]) || !Blank(TrimmedAddress(ads[k]))
  }

  // ---- the text fields ----

  lemma {:induction false} ValueExact(v: string)
    ensures UnescapeText(EscapeValue(Trim(v))) == Trim(v) <==> Clean(v)
  {
    hide *;
    TextRoundTripExact(Trim(v));
    TrimTrims(v);
    TrimIdle(Trim(v));
    CleanTrim(v);
  }

  lemma {:induction false} BlankIsClean(v: string)
    requires Trim(v) == ""
    ensures Clean(v) && ';' !in v && ',' !in v
  {
    hide Trim, IsSpace, Clean;
    CleanTrim(v);
    assert Clean("") by { NothingIsClean(); }
    SemicolonIsNoSpace();
    if ';' in v { TrimLosesNone(v, ';'); }
    if ',' in v { TrimLosesNone(v, ','); }
  }

  lemma {:induction false} NothingIsClean()
    ensures Clean("")
  {
  }

  lemma {:induction false} FieldExact(o: Option<string>)
    ensures FieldRaw(o) == FieldBack(o) <==> Clean(TextOf(o))
  {
    hide Trim, Clean, EscapeValue, UnescapeText;
    ValueExact(TextOf(o));
    if Trim(TextOf(o)) == "" { BlankIsClean(TextOf(o)); }
  }

  lemma {:induction false} OrgExact(o: Option<string>)
    ensures OrgRaw(o) == FieldBack(o) <==> Separated(TextOf(o), ';')
  {
    hide Trim, Clean, EscapeValue, UnescapeText, SplitAt, IsSpace;
    var text := TextOf(o);
    var v := Trim(text);
    OrgRoundTripExact(v);
    TrimTrims(text);
    TrimIdle(v);
    CleanTrim(text);
    SemicolonIsNoSpace();
    if v == "" { BlankIsClean(text); }
    if ';' in text { TrimLosesNone(text, ';'); } else { TrimInvents(text, ';'); }
  }

  lemma {:induction false} EmailsExact(es: seq<string>)
    ensures EmailsRaw(es) == NonEmpty(TrimAll(es)) <==> forall k :: 0 <= k < |es| ==> Clean(es[k])
  {
    hide Trim, Clean, EscapeValue, UnescapeText;
    if es != [] {
      var v := Trim(es[0]);
      EmailsExact(es[1..]);
      ValueExact(es[0]);
      assert TrimAll(es)[1..] == TrimAll(es[1..]);
      assert forall k :: 0 < k < |es| ==> es[k] == es[1..][k - 1];
      assert forall k :: 0 <= k < |es[1..]| ==> es[1..][k] == es[k + 1];
      assert (forall k :: 0 <= k < |es| ==> Clean(es[k])) <==> Clean(es[0]) && forall k :: 0 <= k < |es[1..]| ==> Clean(es[1..][k]);
      if v == "" {
        BlankIsClean(es[0]);
        assert EmailsRaw(es) == EmailsRaw(es[1..]) && NonEmpty(TrimAll(es)) == NonEmpty(TrimAll(es[1..]));
      } else {
        assert NonEmpty(TrimAll(es)) == [v] + NonEmpty(TrimAll(es[1..]));
        HeadAndTail(UnescapeText(EscapeValue(v)), EmailsRaw(es[1..]), v, NonEmpty(TrimAll(es[1..])));
      }
    }
  }

  lemma {:induction false} HeadAndTail<T>(a: T, s: seq<T>, b: T, t: seq<T>)
    ensures [a] + s == [b] + t <==> a == b && s == t
  {
    if [a] + s == [b] + t {
      assert ([a] + s)[0] == a && ([b] + t)[0] == b;
      assert ([a] + s)[1..] == s && ([b] + t)[1..] == t;
    }
  }

  // ---- labels ----

  lemma {:induction false} SplitInvents(cur: string, s: string, sep: char, c: char)
    requires c !in cur && c !in s
    ensures forall k :: 0 <= k < |SplitAt(cur, s, sep)| ==> c !in SplitAt(cur, s, sep)[k]
    decreases |s|
  {
    if s != "" {
      if s[0] == sep { SplitInvents("", s[1..], sep, c); } else { SplitInvents(cur + [s[0]], s[1..], sep, c); }
    }
  }

  predicate AllFree(ss: seq<string>, c: char) {
    forall k :: 0 <= k < |ss| ==> c !in ss[k]
  }

  lemma {:induction false} LowerTrimmedFree(cs: CaseMap, ss: seq<string>, c: char)
    requires AllFree(ss, c) && Mark(c)
    ensures AllFree(LowerTrimmed(cs, ss), c)
  {
    hide Trim, Small;
    forall k | 0 <= k < |ss| ensures c !in LowerTrimmed(cs, ss)[k] {
      TrimInvents(ss[k], c);
      MarksKept(cs, Trim(ss[k]), c);
    }
  }

  lemma {:induction false} KindsOfFree(cs: CaseMap, seg: string, c: char)
    requires c !in seg && Mark(c)
    ensures AllFree(KindsOf(cs, seg), c)
  {
    hide Trim, Small, Capitals, LowerTrimmed, SplitAt, IndexOf;
    TrimInvents(seg, c);
    MarksKept(cs, Trim(seg), c);
    var eq := IndexOf(seg, '=');
    if eq >= 0 {
      SplitInvents("", seg[eq + 1..], ',', c);
      LowerTrimmedFree(cs, SplitAt("", seg[eq + 1..], ','), c);
    }
  }

  lemma {:induction false} AllKindsFree(cs: CaseMap, segs: seq<string>, c: char)
    requires AllFree(segs, c) && Mark(c)
    ensures AllFree(AllKinds(cs, segs), c)
  {
    hide KindsOf;
    if segs != [] {
      KindsOfFree(cs, segs[0], c);
      AllKindsFree(cs, segs[1..], c);
    }
  }

  lemma {:induction false} LabelFree(cs: CaseMap, kinds: seq<string>, c: char)
    requires AllFree(kinds, c) && Mark(c)
    ensures LabelType(cs, kinds).Some? ==> c !in LabelType(cs, kinds).value
  {
    hide Capitalised;
    if kinds != [] { MarksKept(cs, kinds[0], c); }
    if kinds != [] { LabelFree(cs, kinds[1..], c); }
  }

  /** No label read from a line holds a colon or a semicolon: they end the head and the parameter. */
  lemma {:induction false} LabelOfLineFree(cs: CaseMap, line: string)
    ensures var lab := LabelType(cs, LineOf(cs, line).kinds); lab.Some? ==> ':' !in lab.value && ';' !in lab.value
  {
    hide SplitAt, AllKinds, LabelType, PropOf, IndexOf;
    var colon := IndexOf(line, ':');
    if colon >= 0 {
      var head := line[..colon];
      var segs := SplitAt("", head, ';');
      SplitFree("", head, ';');
      SplitInvents("", head, ';', ':');
      AllKindsFree(cs, segs[1..], ';');
      AllKindsFree(cs, segs[1..], ':');
      LabelFree(cs, AllKinds(cs, segs[1..]), ';');
      LabelFree(cs, AllKinds(cs, segs[1..]), ':');
    } else {
      NoLabel(cs);
    }
  }

  lemma {:induction false} NoLabel(cs: CaseMap)
    ensures LabelType(cs, []) == None
  {
  }

  /** A label with a mark should keep it. */
  lemma {:induction false} LabelKeeps(cs: CaseMap, kind: Option<string>, c: char)
    requires c in Trim(TextOf(kind)) && Mark(c)
    ensures KindBack(cs, kind).Some? && c in KindBack(cs, kind).value && Count(KindBack(cs, kind).value, c) == Count(Trim(TextOf(kind)), c)
  {
    hide Trim, Small, Capitalised;
    var t := Trim(TextOf(kind));
    MarksKept(cs, t, c);
    MarksKept(cs, Small(cs, t), c);
  }

  /** Escaping adds a backslash for every mark but a colon. */
  lemma {:induction false} EscapeAdds(v: string)
    ensures Count(EscapeEach(v), '\\') >= Count(v, '\\')
    ensures '\\' in v || '\n' in v ==> Count(EscapeEach(v), '\\') > Count(v, '\\')
  {
    if v != "" {
      EscapeAdds(v[1..]);
      CountAppend(EscapeOne(v[0]), EscapeEach(v[1..]), '\\');
      EscapeOneAdds(v[0]);
      assert forall c :: c in v <==> c == v[0] || c in v[1..];
    }
  }

  lemma {:induction false} EscapeOneAdds(c: char)
    ensures Count(EscapeOne(c), '\\') >= Count([c], '\\')
    ensures c == '\\' || c == '\n' ==> Count(EscapeOne(c), '\\') > Count([c], '\\')
    ensures Count([c], '\\') == if c == '\\' then 1 else 0
  {
    var e := EscapeOne(c);
    assert [c][1..] == "";
    assert |e| == 2 ==> e[1..] == [e[1]] && e[1..][1..] == "";
    assert |e| == 1 ==> e[1..] == "";
  }

  lemma {:induction false} EscapeTrimmed(v: string)
    requires Trimmed(v)
    ensures Trimmed(EscapeValue(v))
  {
    hide EscapeValue, IsSpace;
    EscapeValueIsCharacterwise(v);
    if v != "" {
      EscapedEnd(v);
      FirstEscaped(v);
    }
  }

  lemma {:induction false} FirstEscaped(v: string)
    requires v != "" && !IsSpace(v[0])
    ensures EscapeEach(v) != "" && !IsSpace(EscapeEach(v)[0])
  {
    assert EscapeEach(v)[0] == EscapeOne(v[0])[0];
  }

  lemma {:induction false} TypeKinds(cs: CaseMap, k: string)
    ensures KindsOf(cs, "TYPE=" + k) == LowerTrimmed(cs, SplitAt("", k, ','))
  {
    hide Trim, IndexOf, SplitAt, Capitals, LowerTrimmed;
    var seg := "TYPE=" + k;
    assert seg[4] == '=' && IndexOf(seg, '=') == 4;
    assert seg[..4] == "TYPE" && seg[5..] == k;
    PlainCapitals(cs, "TYPE");
  }

  /** The label in a printed head without colon or semicolon. */
  lemma {:induction false} PlainLabel(cs: CaseMap, name: string, t: string, value: string)
    requires PlainName(name) && ':' !in t && ';' !in t
    ensures LineOf(cs, Line(name + ";TYPE=" + EscapeValue(Capitals(cs, t)), value)).kinds == LowerTrimmed(cs, SplitAt("", EscapeValue(Capitals(cs, t)), ','))
  {
    hide ParseLine, Line, PropOf, Named, SplitAt, LowerTrimmed, KindsOf, EscapeValue, Capitals, PlainName;
    var k := EscapeValue(Capitals(cs, t));
    var param := "TYPE=" + k;
    var head := name + ";TYPE=" + k;
    MarksKept(cs, t, ':');
    MarksKept(cs, t, ';');
    EscapedSeparator(Capitals(cs, t), ';');
    EscapedColon(Capitals(cs, t));
    PlainNoSpace(name);
    assert ':' !in head && ';' !in param;
    HeadAndValue(cs, head, value);
    assert head == name + ([';'] + param);
    SplitWhere("", name, param, ';');
    SplitNone("", param, ';');
    assert "" + name == name && "" + param == param;
    TypeKinds(cs, k);
    assert ([name] + [param])[1..] == [param] && [param][1..] == [];
    assert KindsOf(cs, param) + [] == KindsOf(cs, param);
    assert AllKinds(cs, [param]) == KindsOf(cs, param) + AllKinds(cs, []);
  }

  lemma {:induction false} EscapedColon(v: string)
    ensures ':' in EscapeValue(v) <==> ':' in v
  {
    hide EscapeValue;
    EscapeValueIsCharacterwise(v);
    EscapeEachColon(v);
  }

  lemma {:induction false} EscapeEachColon(v: string)
    ensures ':' in EscapeEach(v) <==> ':' in v
  {
    if v != "" {
      EscapeEachColon(v[1..]);
      assert v == [v[0]] + v[1..];
      assert ':' in EscapeOne(v[0]) <==> ':' == v[0];
    }
  }

  /** A label with a comma loses it; one with a backslash or a line feed gains a backslash. */
  lemma {:induction false} SpecialLabel(cs: CaseMap, name: string, kind: Option<string>, value: string)
    requires PlainName(name)
    requires var t := Trim(TextOf(kind)); ':' !in t && ';' !in t && (',' in t || '\\' in t || '\n' in t)
    ensures LabelType(cs, LineOf(cs, Line(TypedHead(cs, name, kind), value)).kinds) != KindBack(cs, kind)
  {
    hide Trim, LineOf, Line, EscapeValue, Capitals, Small, SplitAt, LowerTrimmed, LabelType, KindBack, Trimmed;
    var t := Trim(TextOf(kind));
    var k := EscapeValue(Capitals(cs, t));
    var kinds := LowerTrimmed(cs, SplitAt("", k, ','));
    TrimTrims(TextOf(kind));
    PlainLabel(cs, name, t, value);
    if ',' in t {
      LabelKeeps(cs, kind, ',');
      SplitFree("", k, ',');
      LowerTrimmedFree(cs, SplitAt("", k, ','), ',');
      LabelFree(cs, kinds, ',');
    } else {
      MarksKept(cs, t, ',');
      EscapedSeparator(Capitals(cs, t), ',');
      SplitNone("", k, ',');
      assert "" + k == k;
      CapitalsTrimmed(cs, t);
      EscapeTrimmed(Capitals(cs, t));
      OneLabel(cs, k);
      MoreBackslashes(cs, kind);
    }
  }

  /** The printed label has more backslashes than the label, and keeps them. */
  lemma {:induction false} MoreBackslashes(cs: CaseMap, kind: Option<string>)
    requires var t := Trim(TextOf(kind)); '\\' in t || '\n' in t
    ensures KindBack(cs, kind) != Some(Capitalised(cs, Small(cs, EscapeValue(Capitals(cs, Trim(TextOf(kind))))))) && KindBack(cs, kind) != None
  {
    hide Trim, EscapeValue, Capitals, Small, Capitalised, KindBack;
    var t := Trim(TextOf(kind));
    var u := Capitals(cs, t);
    var k := EscapeValue(u);
    LabelKeeps(cs, kind, if '\\' in t then '\\' else '\n');
    KindBackCount(cs, kind, '\\');
    MarksKept(cs, t, '\\');
    MarksKept(cs, t, '\n');
    EscapeValueIsCharacterwise(u);
    EscapeAdds(u);
    MarksKept(cs, k, '\\');
    MarksKept(cs, Small(cs, k), '\\');
  }

  lemma {:induction false} KindBackCount(cs: CaseMap, kind: Option<string>, c: char)
    requires Mark(c)
    ensures KindBack(cs, kind).Some? ==> Count(KindBack(cs, kind).value, c) == Count(Trim(TextOf(kind)), c)
  {
    hide Trim, Small, Capitalised;
    var t := Trim(TextOf(kind));
    MarksKept(cs, t, c);
    MarksKept(cs, Small(cs, t), c);
  }

  /** A single label is its text in small letters with a capital, if it is read at all. */
  lemma {:induction false} OneLabel(cs: CaseMap, k: string)
    requires Trimmed(k)
    ensures var lab := LabelType(cs, LowerTrimmed(cs, [k])); lab.Some? ==> lab.value == Capitalised(cs, Small(cs, k))
  {
    hide Trim, Small, Capitalised;
    TrimIdle(k);
    assert LowerTrimmed(cs, [k]) == [Small(cs, k)];
    OneKind(cs, Small(cs, k));
  }

  /**
   * A printed label reads back capitalised exactly when it holds no colon, semicolon, comma, backslash or line
   * feed, its capitals in small letters are the label again up to the first letter's case, and those are none
   * of the types that the reader takes for noise.
   */
  lemma {:induction false} KindExact(cs: CaseMap, name: string, kind: Option<string>, value: string)
    requires PlainName(name)
    ensures LabelType(cs, LineOf(cs, Line(TypedHead(cs, name, kind), value)).kinds) == KindBack(cs, kind) <==> KindFits(cs, kind)
  {
    hide Trim, ParseLine, Line, LabelType, TypedHead, Capitals, Small, Capitalised;
    var t := Trim(TextOf(kind));
    LabelOfLineFree(cs, Line(TypedHead(cs, name, kind), value));
    if OneType(kind) {
      TypedParsed(cs, name, kind, value);
      NothingVanishes(cs, t);
      NothingVanishes(cs, Small(cs, t));
      NothingVanishes(cs, Capitals(cs, t));
      NothingVanishes(cs, Small(cs, Capitals(cs, t)));
      NothingIsNoise();
    } else if ':' in t {
      LabelKeeps(cs, kind, ':');
    } else if ';' in t {
      LabelKeeps(cs, kind, ';');
    } else {
      SpecialLabel(cs, name, kind, value);
    }
  }

  lemma {:induction false} NothingIsNoise()
    ensures !Noise("")
  {
  }

  lemma {:induction false} NoiseIsPlain(l: string, c: char)
    requires c in l && Mark(c)
    ensures !Noise(l)
  {
  }

  lemma {:induction false} NoiseIsOneType(cs: CaseMap, kind: Option<string>)
    requires Noise(Small(cs, Capitals(cs, Trim(TextOf(kind)))))
    ensures OneType(kind)
  {
    hide Trim, Noise, Small, Capitals;
    var t := Trim(TextOf(kind));
    forall c | Mark(c) ensures c !in t {
      MarksKept(cs, t, c);
      MarksKept(cs, Capitals(cs, t), c);
      if c in t { NoiseIsPlain(Small(cs, Capitals(cs, t)), c); }
    }
  }

  /** A label whose printed form is one of the noise types, as with Voice or Pref, comes back as no label. */
  lemma {:induction false} NoiseLabelIsLost(cs: CaseMap, name: string, kind: Option<string>, value: string)
    requires PlainName(name) && Noise(Small(cs, Capitals(cs, Trim(TextOf(kind)))))
    ensures LabelType(cs, LineOf(cs, Line(TypedHead(cs, name, kind), value)).kinds) == None && KindBack(cs, kind).Some?
  {
    hide ParseLine, Line, LabelType, TypedHead, Trim, Small, Capitals, Capitalised, Noise;
    var t := Trim(TextOf(kind));
    NoiseIsOneType(cs, kind);
    TypedParsed(cs, name, kind, value);
    NothingVanishes(cs, t);
    NothingVanishes(cs, Small(cs, t));
    NothingVanishes(cs, Capitals(cs, t));
    NothingIsNoise();
  }

  /** A label with a sharp s inside, as in the German for "street", comes back with two plain ones. */
  lemma {:induction false} SharpSIsLost(name: string, a: string, b: string, value: string)
    requires PlainName(name) && a != "" && Ascii(a) && Ascii(b) && OneType(Some(a + [SHARP_S] + b)) && Trimmed(a + [SHARP_S] + b)
    requires !Noise(Lower(a) + "ss" + Lower(b))
    ensures var kind := Some(a + [SHARP_S] + b);
            && !KindFits(German(), kind)
            && LabelType(German(), LineOf(German(), Line(TypedHead(German(), name, kind), value)).kinds)
               == Some(Capitalised(German(), Lower(a) + "ss" + Lower(b))) != KindBack(German(), kind)
  {
    hide ParseLine, Line, LabelType, TypedHead, PlainName, Trim, Noise;
    var t := a + [SHARP_S] + b;
    TrimIdle(t);
    SharpSBecomesTwo(a, b);
    TypedParsed(German(), name, Some(t), value);
    KindExact(German(), name, Some(t), value);
    var read := Lower(a) + "ss" + Lower(b);
    assert read[0] == Lower(a)[0] == (Lower(a) + [SHARP_S] + Lower(b))[0];
    assert |read| == |Lower(a) + [SHARP_S] + Lower(b)| + 1;
  }

  lemma {:induction false} FitsOneType(cs: CaseMap, kind: Option<string>)
    ensures KindFits(cs, kind) ==> OneType(kind)
  {
  }

  // ---- lines with a label ----

  /** A line under a printed head is one of its property. */
  lemma {:induction false} TypedProp(cs: CaseMap, name: string, kind: Option<string>, value: string)
    requires PlainName(name)
    ensures var l := ParseLine(cs, Line(TypedHead(cs, name, kind), value)); l.Some? && l.value.prop == Named(name)
  {
    hide ParseLine, Named, Trim, EscapeValue, PlainName;
    var t := Trim(TextOf(kind));
    var tail := (if t == "" then "" else ";TYPE=" + EscapeValue(Capitals(cs, t))) + ":" + value;
    assert Line(TypedHead(cs, name, kind), value) == name + tail;
    assert tail[|tail| - |value| - 1] == ':';
    PropOfLine(cs, name, tail);
  }

  lemma {:induction false} PassedKeepsColon(s: string)
    requires ':' in s
    ensures ':' in Passed(s)
  {
    hide BreaksBack, DropEscapes;
    BreaksBackKeeps(s);
    DropEscapesKeeps(BreaksBack(s));
  }

  lemma {:induction false} BreaksBackKeeps(s: string)
    requires ':' in s
    ensures ':' in BreaksBack(s)
  {
    if s[0] == '\\' && |s| > 1 && IsN(s[1]) {
      assert ':' in s[2..];
      BreaksBackKeeps(s[2..]);
    } else if s[0] != ':' {
      BreaksBackKeeps(s[1..]);
    }
  }

  lemma {:induction false} DropEscapesKeeps(s: string)
    requires ':' in s
    ensures ':' in DropEscapes(s)
  {
    if s[0] == '\\' && |s| > 1 && (s[1] == ',' || s[1] == ';' || s[1] == '\\') {
      assert ':' in s[2..];
      DropEscapesKeeps(s[2..]);
    } else if s[0] != ':' {
      DropEscapesKeeps(s[1..]);
    }
  }

  /** What stands after the first colon: the value, or more. */
  lemma {:induction false} ValueOfLine(cs: CaseMap, head: string, value: string)
    ensures var l := LineOf(cs, Line(head, value)); l.value == value || ':' in l.value
  {
    hide SplitAt, PropOf, AllKinds, IndexOf;
    var line := Line(head, value);
    assert line[|head|] == ':';
    var colon := IndexOf(line, ':');
    if colon == |head| {
      assert line[colon + 1..] == value;
    } else {
      assert line[colon + 1..][|head| - colon - 1] == ':';
    }
  }

  /** A value that is printed is read, whatever becomes of it. */
  lemma {:induction false} TypedNeverEmpty(cs: CaseMap, head: string, t: Typed)
    requires Trim(t.value) != ""
    ensures OneTyped(cs, head, t).value != ""
  {
    hide Trim, TrimEnd, EscapeValue, Line, LineOf, LabelType, Passed, TypedHead, IsSpace;
    var v := Trim(t.value);
    var value := TrimEnd(EscapeValue(v));
    ValueOfLine(cs, TypedHead(cs, head, t.kind), value);
    var l := LineOf(cs, Line(TypedHead(cs, head, t.kind), value));
    TrimTrims(t.value);
    NeverEmpty(v);
    UnescapeTrimmed(EscapeValue(v));
    if ':' in l.value {
      PassedKeepsColon(l.value);
      ColonIsNoSpace();
      TrimLosesNone(Passed(l.value), ':');
    }
  }

  lemma {:induction false} ColonIsNoSpace()
    ensures !IsSpace(':')
  {
  }

  lemma {:induction false} OneTypedExact(cs: CaseMap, head: string, t: Typed)
    requires PlainName(head) && Trim(t.value) != ""
    ensures OneTyped(cs, head, t) == Typed(KindBack(cs, t.kind), Trim(t.value)) <==> Clean(t.value) && KindFits(cs, t.kind)
  {
    hide Trim, TrimEnd, EscapeValue, Line, ParseLine, LabelType, UnescapeText, TypedHead, KindBack, KindFits, Clean, PlainName, Named;
    var value := TrimEnd(EscapeValue(Trim(t.value)));
    KindExact(cs, head, t.kind, value);
    ValueExact(t.value);
    UnescapeTrimmed(EscapeValue(Trim(t.value)));
    FitsOneType(cs, t.kind);
    if KindFits(cs, t.kind) { TypedParsed(cs, head, t.kind, value); }
  }

  lemma {:induction false} NothingFits(cs: CaseMap)
    ensures TypedFit(cs, [])
  {
  }

  lemma {:induction false} TypedFitStep(cs: CaseMap, ts: seq<Typed>)
    requires ts != []
    ensures TypedFit(cs, ts) <==> (Trim(ts[0].value) == "" || (Clean(ts[0].value) && KindFits(cs, ts[0].kind))) && TypedFit(cs, ts[1..])
  {
    hide Trim, Clean, KindFits;
    assert forall k :: 0 < k < |ts| ==> ts[k] == ts[1..][k - 1];
    assert forall k :: 0 <= k < |ts[1..]| ==> ts[1..][k] == ts[k + 1];
  }

  lemma {:induction false} TypedExact(cs: CaseMap, head: string, ts: seq<Typed>)
    requires PlainName(head)
    ensures TypedRaw(cs, head, ts) == TypedBack(cs, ts) <==> TypedFit(cs, ts)
  {
    hide Trim, Clean, KindFits, KindBack, OneTyped, PlainName, TypedFit;
    if ts == [] {
      NothingFits(cs);
    } else {
      TypedExact(cs, head, ts[1..]);
      TypedFitStep(cs, ts);
      var rest := ts[1..];
      if Trim(ts[0].value) == "" {
        assert TypedRaw(cs, head, ts) == TypedRaw(cs, head, rest) && TypedBack(cs, ts) == TypedBack(cs, rest);
      } else {
        assert TypedRaw(cs, head, ts) == [OneTyped(cs, head, ts[0])] + TypedRaw(cs, head, rest);
        assert TypedBack(cs, ts) == [Typed(KindBack(cs, ts[0].kind), Trim(ts[0].value))] + TypedBack(cs, rest);
        OneTypedExact(cs, head, ts[0]);
        HeadAndTail(OneTyped(cs, head, ts[0]), TypedRaw(cs, head, ts[1..]), Typed(KindBack(cs, ts[0].kind), Trim(ts[0].value)), TypedBack(cs, ts[1..]));
      }
    }
  }

  // ---- addresses ----

  lemma {:induction false} OneAddressExact(cs: CaseMap, a: Address)
    ensures OneAddress(cs, a) == TrimmedAddress(a).(kind := KindBack(cs, a.kind)) <==> AddressFits(a) && KindFits(cs, a.kind)
  {
    hide Trim, TrimEnd, AddressValue, Line, ParseLine, LabelType, UnescapeText, TypedHead, KindBack, KindFits, AddressFits, PlainName, Named, SplitAt;
    Names();
    var value := TrimEnd(AddressValue(a));
    KindExact(cs, "ADR", a.kind, value);
    AddressExact(cs, a);
    var l := LineOf(cs, Line(TypedHead(cs, "ADR", a.kind), value));
    AddressLabel(cs, l.kinds, l.value);
    FitsOneType(cs, a.kind);
    if KindFits(cs, a.kind) { TypedParsed(cs, "ADR", a.kind, value); }
  }

  lemma {:induction false} AddressLabel(cs: CaseMap, kinds: seq<string>, value: string)
    ensures ReadAddress(cs, kinds, value) == ReadAddress(cs, [], value).(kind := LabelType(cs, kinds)) && ReadAddress(cs, [], value).kind == None
  {
  }

  predicate AddressesFit(cs: CaseMap, ads: seq<Address>) {
    forall k :: 0 <= k < |ads| && !Blank(ads[k]) ==> AddressFits(ads[k]) && KindFits(cs, ads[k].kind)
  }

  lemma {:induction false} BlankTrimmed(a: Address, kind: Option<string>)
    ensures Blank(a) ==> Blank(TrimmedAddress(a))
    ensures Blank(a.(kind := kind)) <==> Blank(a)
    ensures TrimmedAddress(a).kind == a.kind
  {
  }

  lemma {:induction false} AddressesFitStep(cs: CaseMap, ads: seq<Address>)
    requires ads != []
    ensures AddressesFit(cs, ads) <==> (Blank(ads[0]) || (AddressFits(ads[0]) && KindFits(cs, ads[0].kind))) && AddressesFit(cs, ads[1..])
  {
    hide AddressFits, KindFits, Blank;
    assert forall k :: 0 < k < |ads| ==> ads[k] == ads[1..][k - 1];
    assert forall k :: 0 <= k < |ads[1..]| ==> ads[1..][k] == ads[k + 1];
  }

  /** Addresses that fit read back, also where one of spaces alone is printed. */
  lemma {:induction false} FittingAddressesBack(cs: CaseMap, ads: seq<Address>)
    ensures AddressesFit(cs, ads) ==> AddressesRaw(cs, ads) == AddressesBack(cs, ads)
  {
    hide AddressFits, KindFits, KindBack, OneAddress, TrimmedAddress, Blank, AddressesFit;
    if ads != [] {
      var a := ads[0];
      FittingAddressesBack(cs, ads[1..]);
      AddressesFitStep(cs, ads);
      OneAddressExact(cs, a);
      BlankTrimmed(a, None);
      BlankTrimmed(TrimmedAddress(a), KindBack(cs, a.kind));
    }
  }

  /** Where no address is spaces alone, each one printed is read once or not at all, so agreement decides address by address. */
  lemma {:induction false} AddressesExact(cs: CaseMap, ads: seq<Address>)
    ensures AddressesFit(cs, ads) ==> AddressesRaw(cs, ads) == AddressesBack(cs, ads)
    ensures NoSpacesOnly(ads) ==> |AddressesRaw(cs, ads)| <= |AddressesBack(cs, ads)|
    ensures NoSpacesOnly(ads) && AddressesRaw(cs, ads) == AddressesBack(cs, ads) ==> AddressesFit(cs, ads)
  {
    hide AddressFits, KindFits, KindBack, OneAddress, TrimmedAddress, Blank, AddressesFit;
    FittingAddressesBack(cs, ads);
    if ads == [] {
      NoAddressFits(cs);
    } else {
      var a, rest := ads[0], ads[1..];
      var back := TrimmedAddress(a).(kind := KindBack(cs, a.kind));
      assert NoSpacesOnly(ads) ==> NoSpacesOnly(rest) by {
        assert forall k :: 0 <= k < |rest| ==> rest[k] == ads[k + 1];
      }
      AddressesExact(cs, rest);
      AddressesFitStep(cs, ads);
      OneAddressExact(cs, a);
      BlankTrimmed(a, None);
      BlankTrimmed(TrimmedAddress(a), KindBack(cs, a.kind));
      HeadAndTail(OneAddress(cs, a), AddressesRaw(cs, rest), back, AddressesBack(cs, rest));
      if Blank(a) {
        assert AddressesRaw(cs, ads) == AddressesRaw(cs, rest) && AddressesBack(cs, ads) == AddressesBack(cs, rest);
      } else if NoSpacesOnly(ads) {
        assert !Blank(TrimmedAddress(ads[0]));
        assert AddressesBack(cs, ads) == [back] + AddressesBack(cs, rest);
        assert AddressesRaw(cs, ads) == (if Blank(OneAddress(cs, a)) then [] else [OneAddress(cs, a)]) + AddressesRaw(cs, rest);
      }
    }
  }

  lemma {:induction false} NoAddressFits(cs: CaseMap)
    ensures AddressesFit(cs, [])
  {
  }

  // ---- categories ----

  lemma {:induction false} TrimmedCategories(categories: seq<string>)
    ensures Tidy(NonEmpty(TrimAll(categories)))
  {
    hide Trim, Trimmed, NonEmpty;
    NonEmptySub(TrimAll(categories));
    var cats := NonEmpty(TrimAll(categories));
    forall k | 0 <= k < |cats| ensures cats[k] != "" && Trimmed(cats[k]) {
      var j :| 0 <= j < |categories| && TrimAll(categories)[j] == cats[k];
      TrimTrims(categories[j]);
    }
  }

  predicate AllSeparated(vs: seq<string>) {
    forall k :: 0 <= k < |vs| ==> Separated(vs[k], ',')
  }

  lemma {:induction false} SeparatedTrimmed(categories: seq<string>)
    ensures AllSeparated(NonEmpty(TrimAll(categories))) <==> AllSeparated(categories)
  {
    hide Trim, Separated;
    if categories != [] {
      var c := categories[0];
      SeparatedTrimmed(categories[1..]);
      SeparatedTrim(c);
      assert TrimAll(categories)[1..] == TrimAll(categories[1..]);
      assert categories == [c] + categories[1..];
      SeparatedCons(c, categories[1..]);
      var rest, all := NonEmpty(TrimAll(categories[1..])), NonEmpty(TrimAll(categories));
      if Trim(c) == "" {
        assert all == rest;
      } else {
        assert all == [Trim(c)] + rest;
        SeparatedCons(Trim(c), rest);
      }
    }
  }

  lemma {:induction false} SeparatedCons(v: string, vs: seq<string>)
    ensures AllSeparated([v] + vs) <==> Separated(v, ',') && AllSeparated(vs)
  {
    hide Separated;
    var all := [v] + vs;
    assert all[0] == v && forall k :: 0 <= k < |vs| ==> all[k + 1] == vs[k];
    assert forall k :: 0 < k < |all| ==> all[k] == vs[k - 1];
  }

  lemma {:induction false} SeparatedTrim(v: string)
    ensures Separated(Trim(v), ',') <==> Separated(v, ',')
    ensures Trim(v) == "" ==> Separated(v, ',')
  {
    hide Trim, Clean, IsSpace;
    CleanTrim(v);
    SemicolonIsNoSpace();
    if ',' in v { TrimLosesNone(v, ','); } else { TrimInvents(v, ','); }
    if Trim(v) == "" { BlankIsClean(v); }
  }

  lemma {:induction false} CategoryFieldExact(categories: seq<string>)
    ensures CategoriesRaw(categories) == NonEmpty(TrimAll(categories)) <==> AllSeparated(categories)
  {
    hide Trim, Clean, NonEmpty, CategoriesRead, Trimmed;
    TrimmedCategories(categories);
    SeparatedTrimmed(categories);
    var cats := NonEmpty(TrimAll(categories));
    if cats != [] { CategoriesExact(cats); }
  }

  // ---- the whole card ----

  /** A card that fits reads back as edited field by field; if no address is spaces alone, only such a card does. */
  lemma {:induction false} CardExact(cs: CaseMap, c: Card)
    ensures Fits(cs, c) ==> NamedRaw(cs, c) == Back(cs, c)
    ensures NoSpacesOnly(c.addresses) && NamedRaw(cs, c) == Back(cs, c) ==> Fits(cs, c)
  {
    hide Trim, Clean, Separated, EscapeValue, UnescapeText, FieldRaw, OrgRaw, EmailsRaw, TypedRaw, AddressesRaw, CategoriesRaw, TypedBack, AddressesBack,
         NonEmpty, TrimAll, TypedFit, AddressFits, KindFits, Blank, NoSpacesOnly, ReadName, NameValue, PlainName, FieldBack, Trimmed;
    Names();
    NameExact(cs, c);
    FieldExact(c.nickname);
    OrgExact(c.org);
    FieldExact(c.title);
    EmailsExact(c.emails);
    TypedExact(cs, "TEL", c.phones);
    TypedExact(cs, "URL", c.urls);
    AddressesExact(cs, c.addresses);
    FieldExact(c.birthday);
    FieldExact(c.note);
    CategoryFieldExact(c.categories);
  }

  lemma {:induction false} NameExact(cs: CaseMap, c: Card)
    ensures NamedRaw(cs, c).name == FieldBack(c.name) <==> Clean(TextOf(c.name))
  {
    hide Trim, Clean, EscapeValue, UnescapeText, ReadName, NameValue, Trimmed;
    var fn := Trim(TextOf(c.name));
    ValueExact(TextOf(c.name));
    TrimTrims(TextOf(c.name));
    if fn == "" {
      BlankIsClean(TextOf(c.name));
      NoNameSpelled();
    } else {
      NeverEmpty(fn);
    }
  }

  lemma {:induction false} NoNameSpelled()
    ensures ReadName(NameValue("")) == None && UnescapeText(EscapeValue("")) == ""
  {
    hide SplitAt, UnescapeText, EscapeValue;
    EscapeNothing();
    NothingUnescaped();
    SplitWhere("", "", Semi("", ";;"), ';');
    SplitWhere("", "", ";;", ';');
    assert Words("", "") == [];
    assert NameValue("") == "" + ([';'] + Semi("", ";;"));
    assert "" + "" == "";
    var p := SplitAt("", NameValue(""), ';');
    assert p[0] == "" && p[1] == "";
    assert "" + " " + "" == " ";
  }

  lemma {:induction false} NothingUnescaped()
    ensures UnescapeText("") == "" && Trim(" ") == ""
  {
    assert " "[1..] == "";
  }
}
