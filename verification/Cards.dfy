/**
 * Reading and writing contact cards (contacts/vcard.ts): the parser, the printer, and the merge that rewrites
 * only the properties the mailbox edits.
 */
module Cards {
  import opened Wrappers
  import opened Text
  import opened Casing
  import opened Folding
  import opened CardText

  /** A value with an optional label. */
  datatype Typed = Typed(kind: Option<string>, value: string)

  datatype Address = Address(kind: Option<string>, street: string, locality: string, region: string, postalCode: string, country: string)

  /** The editable fields of a card; the photo is left as it is. */
  datatype Card = Card(name: Option<string>, nickname: Option<string>, org: Option<string>, title: Option<string>,
                       emails: seq<string>, phones: seq<Typed>, urls: seq<Typed>, addresses: seq<Address>,
                       birthday: Option<string>, note: Option<string>, categories: seq<string>)

  datatype Detail = Detail(uid: Option<string>, card: Card)

  function EmptyCard(): Card {
    Card(None, None, None, None, [], [], [], [], None, None, [])
  }

  datatype Property =
    | FormattedName | StructuredName | Nickname | Organisation | Title | Email | Phone | Url | Postal | Birthday | Note | Categories
    | Uid | Begin | End | Other

  function Named(s: string): Property {
    if s == "FN" then FormattedName else if s == "N" then StructuredName else if s == "NICKNAME" then Nickname
    else if s == "ORG" then Organisation else if s == "TITLE" then Title else if s == "EMAIL" then Email
    else if s == "TEL" then Phone else if s == "URL" then Url else if s == "ADR" then Postal
    else if s == "BDAY" then Birthday else if s == "NOTE" then Note else if s == "CATEGORIES" then Categories
    else if s == "UID" then Uid else if s == "BEGIN" then Begin else if s == "END" then End else Other
  }

  /** The properties an edit rewrites. */
  predicate Owned(p: Property) {
    !p.Uid? && !p.Begin? && !p.End? && !p.Other?
  }

  function Nullable(s: string): Option<string> {
    if s == "" then None else Some(s)
  }

  function TextOf(o: Option<string>): string {
    match o case Some(s) => s case None => ""
  }

  function Line(head: string, value: string): string {
    head + ":" + value
  }

  // ---- tokenising ----

  function SplitAt(cur: string, s: string, sep: char): (r: seq<string>)
    ensures r != []
    decreases |s|
  {
    if s == "" then [cur]
    else if s[0] == sep then [cur] + SplitAt("", s[1..], sep)
    else SplitAt(cur + [s[0]], s[1..], sep)
  }

  function LowerTrimmed(cs: CaseMap, ss: seq<string>): (r: seq<string>)
    ensures |r| == |ss|
  {
    seq(|ss|, k requires 0 <= k < |ss| => Small(cs, Trim(ss[k])))
  }

  /** The type labels one parameter contributes: a bare one, or the values of TYPE. */
  function KindsOf(cs: CaseMap, seg: string): seq<string> {
    var eq := IndexOf(seg, '=');
    if eq < 0 then [Small(cs, Trim(seg))]
    else if Capitals(cs, seg[..eq]) == "TYPE" then LowerTrimmed(cs, SplitAt("", seg[eq + 1..], ','))
    else []
  }

  function AllKinds(cs: CaseMap, segs: seq<string>): seq<string> {
    if segs == [] then [] else KindsOf(cs, segs[0]) + AllKinds(cs, segs[1..])
  }

  datatype VLine = VLine(prop: Property, kinds: seq<string>, value: string)

  /** The property a head names, its group prefix dropped. */
  function PropOf(cs: CaseMap, first: string): Property {
    var dotted := SplitAt("", first, '.');
    Named(Capitals(cs, dotted[|dotted| - 1]))
  }

  function ParseLine(cs: CaseMap, line: string): Option<VLine> {
    var colon := IndexOf(line, ':');
    if colon < 0 then None
    else
      var segs := SplitAt("", line[..colon], ';');
      Some(VLine(PropOf(cs, segs[0]), AllKinds(cs, segs[1..]), line[colon + 1..]))
  }

  predicate Noise(kind: string) {
    kind == "internet" || kind == "voice" || kind == "pref" || kind == "x-pref"
  }

  /** The first meaningful label, capitalised. */
  function LabelType(cs: CaseMap, kinds: seq<string>): Option<string> {
    if kinds == [] then None
    else if kinds[0] != "" && !Noise(kinds[0]) then Some(Capitalised(cs, kinds[0]))
    else LabelType(cs, kinds[1..])
  }

  // ---- parsing ----

  /** The card read so far, and the name its N property spells. */
  datatype Reading = Reading(uid: Option<string>, card: Card, structured: Option<string>)

  function UnescapeAll(vs: seq<string>): (r: seq<string>)
    ensures |r| == |vs| && forall k :: 0 <= k < |vs| ==> r[k] == UnescapeText(vs[k])
  {
    seq(|vs|, k requires 0 <= k < |vs| => UnescapeText(vs[k]))
  }

  function At(vs: seq<string>, k: nat): string {
    if k < |vs| then vs[k] else ""
  }

  function NonEmpty(vs: seq<string>): seq<string> {
    if vs == [] then [] else (if vs[0] == "" then [] else [vs[0]]) + NonEmpty(vs[1..])
  }

  predicate Blank(a: Address) {
    a.street == "" && a.locality == "" && a.region == "" && a.postalCode == "" && a.country == ""
  }

  function ReadAddress(cs: CaseMap, kinds: seq<string>, value: string): Address {
    var p := UnescapeAll(SplitAt("", value, ';'));
    Address(LabelType(cs, kinds), At(p, 2), At(p, 3), At(p, 4), At(p, 5), At(p, 6))
  }

  function ReadName(value: string): Option<string> {
    var p := UnescapeAll(SplitAt("", value, ';'));
    Nullable(Trim(At(p, 1) + " " + At(p, 0)))
  }

  function ReadCard(cs: CaseMap, c: Card, l: VLine): Card {
    var text := UnescapeText(l.value);
    match l.prop
    case FormattedName => c.(name := Some(text))
    case Nickname => c.(nickname := Nullable(text))
    case Organisation => c.(org := Nullable(UnescapeText(SplitAt("", l.value, ';')[0])))
    case Title => c.(title := Nullable(text))
    case Email => if text == "" then c else c.(emails := c.emails + [text])
    case Phone => if text == "" then c else c.(phones := c.phones + [Typed(LabelType(cs, l.kinds), text)])
    case Url => if text == "" then c else c.(urls := c.urls + [Typed(LabelType(cs, l.kinds), text)])
    case Postal => var a := ReadAddress(cs, l.kinds, l.value); if Blank(a) then c else c.(addresses := c.addresses + [a])
    case Birthday => c.(birthday := Nullable(text))
    case Note => c.(note := Nullable(text))
    case Categories => c.(categories := NonEmpty(UnescapeAll(SplitAt("", l.value, ','))))
    case _ => c
  }

  function Read(cs: CaseMap, r: Reading, l: VLine): Reading {
    if l.prop.Uid? then r.(uid := Some(UnescapeText(l.value)))
    else if l.prop.StructuredName? then if r.structured.None? then r.(structured := ReadName(l.value)) else r
    else r.(card := ReadCard(cs, r.card, l))
  }

  function ReadLine(cs: CaseMap, r: Reading, line: string): Reading {
    match ParseLine(cs, line) case Some(l) => Read(cs, r, l) case None => r
  }

  function ReadFrom(cs: CaseMap, r: Reading, lines: seq<string>): Reading
    decreases |lines|
  {
    if lines == [] then r else ReadFrom(cs, ReadLine(cs, r, lines[0]), lines[1..])
  }

  /** A card without a formatted name takes the structured one. */
  function Finished(r: Reading): Detail {
    Detail(r.uid, if TextOf(r.card.name) == "" then r.card.(name := r.structured) else r.card)
  }

  function Start(): Reading {
    Reading(None, EmptyCard(), None)
  }

  function Parsed(cs: CaseMap, raw: string): Detail {
    Finished(ReadFrom(cs, Start(), Unfold(raw)))
  }

  method ParseCardDetail(cs: CaseMap, raw: string) returns (d: Detail)
    ensures d == Parsed(cs, raw)
  {
    var lines := Unfold(raw);
    var r := Start();
    for i := 0 to |lines|
      invariant ReadFrom(cs, r, lines[i..]) == ReadFrom(cs, Start(), lines)
    {
      assert lines[i..][1..] == lines[i + 1..];
      r := ReadLine(cs, r, lines[i]);
    }
    d := Finished(r);
  }

  lemma {:induction false} ReadAppend(cs: CaseMap, r: Reading, a: seq<string>, b: seq<string>)
    ensures ReadFrom(cs, r, a + b) == ReadFrom(cs, ReadFrom(cs, r, a), b)
    decreases |a|
  {
    hide ReadLine;
    if a == [] {
      assert a + b == b;
    } else {
      ReadAppend(cs, ReadLine(cs, r, a[0]), a[1..], b);
      assert (a + b)[1..] == a[1..] + b;
    }
  }

  // ---- printing ----

  /** The words of a text, split at runs of space. */
  function Words(cur: string, s: string): seq<string>
    decreases |s|
  {
    if s == "" then if cur == "" then [] else [cur]
    else if IsSpace(s[0]) then (if cur == "" then [] else [cur]) + Words("", s[1..])
    else Words(cur + [s[0]], s[1..])
  }

  /** One component before the others. */
  function Semi(first: string, rest: string): string {
    first + ([';'] + rest)
  }

  /** The last word is the family name, if there is another one. */
  function Family(fn: string): string {
    var parts := Words("", fn);
    if |parts| > 1 then parts[|parts| - 1] else ""
  }

  function Given(fn: string): string {
    var parts := Words("", fn);
    if |parts| > 1 then Join(parts[..|parts| - 1], " ") else fn
  }

  function NameValue(fn: string): string {
    Semi(EscapeValue(Family(fn)), Semi(EscapeValue(Given(fn)), ";;"))
  }

  function NameLines(fn: string): seq<string> {
    [Line("FN", EscapeValue(fn))] + [Line("N", NameValue(fn))]
  }

  function OptionalLine(head: string, field: Option<string>, suffix: string): seq<string> {
    var v := Trim(TextOf(field));
    if v == "" then [] else [Line(head, EscapeValue(v) + suffix)]
  }

  function EmailLines(emails: seq<string>): seq<string> {
    if emails == [] then []
    else
      var v := Trim(emails[0]);
      (if v == "" then [] else [Line("EMAIL;TYPE=INTERNET", EscapeValue(v))]) + EmailLines(emails[1..])
  }

  function TypedHead(cs: CaseMap, head: string, kind: Option<string>): string {
    var t := Trim(TextOf(kind));
    if t == "" then head else head + ";TYPE=" + EscapeValue(Capitals(cs, t))
  }

  function TypedLines(cs: CaseMap, head: string, ts: seq<Typed>): seq<string> {
    if ts == [] then []
    else
      var v := Trim(ts[0].value);
      (if v == "" then [] else [Line(TypedHead(cs, head, ts[0].kind), EscapeValue(v))]) + TypedLines(cs, head, ts[1..])
  }

  function AddressValue(a: Address): string {
    Semi("", Semi("", Semi(EscapeValue(a.street), Semi(EscapeValue(a.locality), Semi(EscapeValue(a.region),
      Semi(EscapeValue(a.postalCode), EscapeValue(a.country)))))))
  }

  function AddressLines(cs: CaseMap, ads: seq<Address>): seq<string> {
    if ads == [] then []
    else (if Blank(ads[0]) then [] else [Line(TypedHead(cs, "ADR", ads[0].kind), AddressValue(ads[0]))]) + AddressLines(cs, ads[1..])
  }

  function TrimAll(vs: seq<string>): (r: seq<string>)
    ensures |r| == |vs| && forall k :: 0 <= k < |vs| ==> r[k] == Trim(vs[k])
  {
    seq(|vs|, k requires 0 <= k < |vs| => Trim(vs[k]))
  }

  function EscapeAll(vs: seq<string>): (r: seq<string>)
    ensures |r| == |vs| && forall k :: 0 <= k < |vs| ==> r[k] == EscapeValue(vs[k])
  {
    seq(|vs|, k requires 0 <= k < |vs| => EscapeValue(vs[k]))
  }

  function CategoryLines(categories: seq<string>): seq<string> {
    var cats := NonEmpty(TrimAll(categories));
    if cats == [] then [] else [Line("CATEGORIES", Join(EscapeAll(cats), ","))]
  }

  /** The lines of the properties an edit rewrites. */
  function Managed(cs: CaseMap, c: Card): seq<string> {
    NameLines(Trim(TextOf(c.name)))
    + OptionalLine("NICKNAME", c.nickname, "") + OptionalLine("ORG", c.org, ";") + OptionalLine("TITLE", c.title, "")
    + EmailLines(c.emails) + TypedLines(cs, "TEL", c.phones) + TypedLines(cs, "URL", c.urls) + AddressLines(cs, c.addresses)
    + OptionalLine("BDAY", c.birthday, "") + OptionalLine("NOTE", c.note, "") + CategoryLines(c.categories)
  }

  method ManagedLines(cs: CaseMap, c: Card) returns (lines: seq<string>)
    ensures lines == Managed(cs, c)
  {
    hide EscapeValue, Trim, Line, Capitals, Join, Words, NameLines, OptionalLine, TypedHead, AddressValue, CategoryLines, Blank;
    lines := NameLines(Trim(TextOf(c.name)));
    lines := lines + OptionalLine("NICKNAME", c.nickname, "") + OptionalLine("ORG", c.org, ";") + OptionalLine("TITLE", c.title, "");
    lines := AddEmails(lines, c.emails);
    lines := AddTyped(cs, lines, "TEL", c.phones);
    lines := AddTyped(cs, lines, "URL", c.urls);
    lines := AddAddresses(cs, lines, c.addresses);
    lines := lines + OptionalLine("BDAY", c.birthday, "") + OptionalLine("NOTE", c.note, "") + CategoryLines(c.categories);
  }

  method AddEmails(was: seq<string>, emails: seq<string>) returns (lines: seq<string>)
    ensures lines == was + EmailLines(emails)
  {
    hide EscapeValue, Trim, Line;
    lines := was;
    for i := 0 to |emails|
      invariant lines + EmailLines(emails[i..]) == was + EmailLines(emails)
    {
      assert emails[i..][1..] == emails[i + 1..];
      var v := Trim(emails[i]);
      if v != "" {
        lines := lines + [Line("EMAIL;TYPE=INTERNET", EscapeValue(v))];
      }
    }
    assert lines + [] == lines;
  }

  method AddAddresses(cs: CaseMap, was: seq<string>, ads: seq<Address>) returns (lines: seq<string>)
    ensures lines == was + AddressLines(cs, ads)
  {
    hide Line, TypedHead, AddressValue, Blank;
    lines := was;
    for i := 0 to |ads|
      invariant lines + AddressLines(cs, ads[i..]) == was + AddressLines(cs, ads)
    {
      assert ads[i..][1..] == ads[i + 1..];
      if !Blank(ads[i]) {
        lines := lines + [Line(TypedHead(cs, "ADR", ads[i].kind), AddressValue(ads[i]))];
      }
    }
    assert lines + [] == lines;
  }

  method AddTyped(cs: CaseMap, was: seq<string>, head: string, ts: seq<Typed>) returns (lines: seq<string>)
    ensures lines == was + TypedLines(cs, head, ts)
  {
    hide EscapeValue, Trim, Line, TypedHead;
    lines := was;
    for i := 0 to |ts|
      invariant lines + TypedLines(cs, head, ts[i..]) == was + TypedLines(cs, head, ts)
    {
      assert ts[i..][1..] == ts[i + 1..];
      var v := Trim(ts[i].value);
      if v != "" {
        lines := lines + [Line(TypedHead(cs, head, ts[i].kind), EscapeValue(v))];
      }
    }
    assert lines + [] == lines;
  }

  function Built(cs: CaseMap, uid: string, c: Card): string {
    Join(["BEGIN:VCARD"] + ["VERSION:3.0"] + [Line("UID", EscapeValue(uid))] + Managed(cs, c) + ["END:VCARD"], CRLF) + CRLF
  }

  method BuildVCard(cs: CaseMap, uid: string, c: Card) returns (card: string)
    ensures card == Built(cs, uid, c)
  {
    hide Managed, Join, EscapeValue, Line;
    var managed := ManagedLines(cs, c);
    card := Join(["BEGIN:VCARD"] + ["VERSION:3.0"] + [Line("UID", EscapeValue(uid))] + managed + ["END:VCARD"], CRLF) + CRLF;
  }

  // ---- merging ----

  predicate BeginsAt(raw: string, k: nat) {
    k + 11 <= |raw| && Upper(raw[k..k + 11]) == "BEGIN:VCARD"
  }

  predicate HasBegin(raw: string) {
    exists k: nat :: k <= |raw| && BeginsAt(raw, k)
  }

  /** What an unfolded line is a line of; one without a colon is named by what stands before its first semicolon. */
  function LineProp(cs: CaseMap, physical: string): Property {
    match ParseLine(cs, physical)
    case Some(l) => l.prop
    case None => Named(Capitals(cs, SplitAt("", physical, ';')[0]))
  }

  predicate Envelope(cs: CaseMap, physical: string) {
    LineProp(cs, physical).Begin? || LineProp(cs, physical).End?
  }

  predicate Rewritten(cs: CaseMap, physical: string) {
    ParseLine(cs, physical).Some? && Owned(LineProp(cs, physical))
  }

  /** The lines a merge leaves alone. */
  function Kept(cs: CaseMap, lines: seq<string>): seq<string> {
    if lines == [] then []
    else (if Envelope(cs, lines[0]) || Rewritten(cs, lines[0]) then [] else [lines[0]]) + Kept(cs, lines[1..])
  }

  /** The kept lines before the first rewritten one. */
  function Before(cs: CaseMap, lines: seq<string>): seq<string> {
    if lines == [] || Rewritten(cs, lines[0]) then []
    else (if Envelope(cs, lines[0]) then [] else [lines[0]]) + Before(cs, lines[1..])
  }

  /** The kept lines after it. */
  function After(cs: CaseMap, lines: seq<string>): seq<string> {
    if lines == [] then [] else if Rewritten(cs, lines[0]) then Kept(cs, lines[1..]) else After(cs, lines[1..])
  }

  /** Every kept line is on one side of the block, in its order. */
  lemma {:induction false} KeptAround(cs: CaseMap, lines: seq<string>)
    ensures Kept(cs, lines) == Before(cs, lines) + After(cs, lines)
  {
    hide Envelope, Rewritten;
    if lines != [] {
      KeptAround(cs, lines[1..]);
    }
  }

  /** The kept lines with the rewritten block in its place. */
  function Spliced(cs: CaseMap, lines: seq<string>, managed: seq<string>): seq<string> {
    Before(cs, lines) + (managed + After(cs, lines))
  }

  function Merged(cs: CaseMap, uid: string, raw: Option<string>, c: Card): string {
    if raw.None? || !HasBegin(raw.value) then Built(cs, uid, c)
    else Join(["BEGIN:VCARD"] + Spliced(cs, Unfold(raw.value), Managed(cs, c)) + ["END:VCARD"], CRLF) + CRLF
  }

  /** The merge as its loop runs: the block goes in at the first rewritten line, or at the end. */
  function MergeLines(cs: CaseMap, lines: seq<string>, managed: seq<string>, inserted: bool): seq<string> {
    if lines == [] then if inserted then [] else managed
    else if Envelope(cs, lines[0]) then MergeLines(cs, lines[1..], managed, inserted)
    else if Rewritten(cs, lines[0]) then (if inserted then [] else managed) + MergeLines(cs, lines[1..], managed, true)
    else [lines[0]] + MergeLines(cs, lines[1..], managed, inserted)
  }

  lemma {:induction false} MergeSplices(cs: CaseMap, lines: seq<string>, managed: seq<string>)
    ensures MergeLines(cs, lines, managed, true) == Kept(cs, lines)
    ensures MergeLines(cs, lines, managed, false) == Spliced(cs, lines, managed)
  {
    hide Envelope, Rewritten;
    if lines == [] {
      assert Spliced(cs, lines, managed) == managed;
    } else {
      MergeSplices(cs, lines[1..], managed);
      Exclusive(cs, lines[0]);
    }
  }

  lemma {:induction false} Exclusive(cs: CaseMap, l: string)
    ensures !(Envelope(cs, l) && Rewritten(cs, l))
  {
  }

  lemma {:induction false} MergeStep(cs: CaseMap, lines: seq<string>, i: nat, managed: seq<string>, inserted: bool)
    requires i < |lines|
    ensures MergeLines(cs, lines[i..], managed, inserted)
            == if Envelope(cs, lines[i]) then MergeLines(cs, lines[i + 1..], managed, inserted)
               else if Rewritten(cs, lines[i]) then (if inserted then [] else managed) + MergeLines(cs, lines[i + 1..], managed, true)
               else [lines[i]] + MergeLines(cs, lines[i + 1..], managed, inserted)
  {
    hide Envelope, Rewritten;
    assert lines[i..][1..] == lines[i + 1..];
  }

  lemma {:induction false} MergeEnd(cs: CaseMap, managed: seq<string>, inserted: bool)
    ensures MergeLines(cs, [], managed, inserted) == if inserted then [] else managed
  {
  }

  method MergeVCard(cs: CaseMap, uid: string, raw: Option<string>, c: Card) returns (merged: string)
    ensures merged == Merged(cs, uid, raw, c)
  {
    hide Managed, Envelope, Rewritten, Join, Unfold, HasBegin, Spliced, EscapeValue, Line, Built, MergeLines, Proper;
    if raw.None? || !HasBegin(raw.value) {
      merged := BuildVCard(cs, uid, c);
      return;
    }
    var kept: seq<string> := [];
    var inserted := false;
    var managed := ManagedLines(cs, c);
    var lines := Unfold(raw.value);
    assert lines[0..] == lines;
    for i := 0 to |lines|
      invariant kept + MergeLines(cs, lines[i..], managed, inserted) == MergeLines(cs, lines, managed, false)
    {
      var l := lines[i];
      MergeStep(cs, lines, i, managed, inserted);
      if Envelope(cs, l) {
      } else if Rewritten(cs, l) {
        if !inserted {
          kept := kept + managed;
          inserted := true;
        }
      } else {
        kept := kept + [l];
      }
    }
    assert lines[|lines|..] == [];
    MergeEnd(cs, managed, inserted);
    if !inserted {
      kept := kept + managed;
    }
    MergeSplices(cs, lines, managed);
    assert kept == Spliced(cs, lines, managed);
    merged := Join(["BEGIN:VCARD"] + kept + ["END:VCARD"], CRLF) + CRLF;
  }

  /**
   * A card folded anywhere, with a space or a tab, parses as the card, and merges as the card as long as the fold
   * does not split the words the merge looks for.
   */
  lemma {:induction false} FoldedIsTheCard(cs: CaseMap, x: string, eol: string, c: char, y: string, uid: string, edit: Card)
    requires LineBreak(eol) && (c == ' ' || c == '\t') && MayFold(x, eol, y)
    ensures var folded, plain := x + (eol + ([c] + y)), x + y;
            && Parsed(cs, folded) == Parsed(cs, plain)
            && (HasBegin(folded) && HasBegin(plain) ==> Merged(cs, uid, Some(folded), edit) == Merged(cs, uid, Some(plain), edit))
  {
    hide Unfold, HasBegin, Spliced, Managed, Built, Join, Finished, ReadFrom;
    FoldIsJoined(x, eol, c, y);
  }

  /** The words BEGIN:VCARD are found anywhere and in any case of their letters. */
  lemma {:induction false} BeginFound(x: string, word: string, y: string)
    requires Upper(word) == "BEGIN:VCARD"
    ensures HasBegin(x + word + y)
  {
    var raw := x + word + y;
    assert |Upper(word)| == 11;
    assert raw[|x|..|x| + 11] == word;
    assert BeginsAt(raw, |x|);
  }
}
