/**
 * Writing an approved event as a calendar document (calendar/vevent.ts) and reading it back with the reader
 * that parses invitations (pipeline/enrichers/ics.ts): the two share one representation of an event.
 */
module Calendar {
  import opened Wrappers
  import opened Text
  import opened Folding

  // ---- dates ----

  type TwoDigits = n: nat | n < 100

  /** An instant in UTC. */
  datatype Instant = Instant(year: int, month: TwoDigits, day: TwoDigits, hour: TwoDigits, minute: TwoDigits, second: TwoDigits)

  function Digit(n: nat): char
    requires n < 10
  {
    ('0' as int + n) as char
  }

  predicate AllDigits(s: string) {
    forall k :: 0 <= k < |s| ==> '0' <= s[k] <= '9'
  }

  function Pad(n: TwoDigits): (r: string)
    ensures |r| == 2 && AllDigits(r)
  {
    [Digit(n / 10), Digit(n % 10)]
  }

  function Decimal(n: nat): (r: string)
    ensures r != "" && AllDigits(r)
  {
    if n < 10 then [Digit(n)] else Decimal(n / 10) + [Digit(n % 10)]
  }

  function Year(n: int): (r: string)
    ensures r != "" && forall k :: 0 <= k < |r| ==> r[k] == '-' || '0' <= r[k] <= '9'
  {
    if n < 0 then "-" + Decimal(-n) else Decimal(n)
  }

  lemma {:induction false} DecimalLength(n: nat)
    ensures |Decimal(n)| == if n < 10 then 1 else if n < 100 then 2 else if n < 1000 then 3 else if n < 10000 then 4 else |Decimal(n)|
    ensures n >= 10000 ==> |Decimal(n)| > 4
  {
    if n >= 10 { DecimalLength(n / 10); }
  }

  /** A year reads back only when it takes exactly four digits. */
  lemma {:induction false} FourDigitYears(n: int)
    ensures |Year(n)| == 4 && AllDigits(Year(n)) <==> 1000 <= n <= 9999
  {
    if n < 0 {
      assert Year(n)[0] == '-';
    } else {
      DecimalLength(n);
    }
  }

  function UtcStamp(d: Instant): string {
    Year(d.year) + Pad(d.month) + Pad(d.day) + "T" + Pad(d.hour) + Pad(d.minute) + Pad(d.second) + "Z"
  }

  predicate IsDate(s: string) {
    |s| == 10 && AllDigits(s[..4]) && s[4] == '-' && AllDigits(s[5..7]) && s[7] == '-' && AllDigits(s[8..10])
  }

  predicate IsFloating(s: string) {
    && (|s| == 16 || |s| == 19) && IsDate(s[..10]) && s[10] == 'T'
    && AllDigits(s[11..13]) && s[13] == ':' && AllDigits(s[14..16])
    && (|s| == 19 ==> s[16] == ':' && AllDigits(s[17..19]))
  }

  datatype DateValue = DateValue(params: string, value: string)

  /** Render one ISO date; `zoned` is how a string that carries a zone reads as an instant. */
  function IcalDate(iso: string, zoned: string -> Option<Instant>): Option<DateValue> {
    var s := Trim(iso);
    if s == "" then None
    else if IsDate(s) then Some(DateValue(";VALUE=DATE", s[..4] + s[5..7] + s[8..10]))
    else if IsFloating(s) then
      Some(DateValue("", s[..4] + s[5..7] + s[8..10] + "T" + s[11..13] + s[14..16] + if |s| == 19 then s[17..19] else "00"))
    else match zoned(s) case Some(d) => Some(DateValue("", UtcStamp(d))) case None => None
  }

  predicate IsDateValue(value: string, params: map<string, string>) {
    ("VALUE" in params && params["VALUE"] == "DATE") || (|Trim(value)| == 8 && AllDigits(Trim(value)))
  }

  function ToIso(value: string, params: map<string, string>): Option<string> {
    var v := Trim(value);
    if v == "" then None
    else if IsDateValue(v, params) then
      if |v| == 8 && AllDigits(v) then Some(v[..4] + "-" + v[4..6] + "-" + v[6..8]) else None
    else if (|v| == 15 || (|v| == 16 && v[15] == 'Z')) && AllDigits(v[..8]) && v[8] == 'T' && AllDigits(v[9..15]) then
      Some(v[..4] + "-" + v[4..6] + "-" + v[6..8] + "T" + v[9..11] + ":" + v[11..13] + ":" + v[13..15] + v[15..])
    else None
  }

  /** The ISO form an instant is read back in. */
  function UtcIso(d: Instant): string {
    Year(d.year) + "-" + Pad(d.month) + "-" + Pad(d.day) + "T" + Pad(d.hour) + ":" + Pad(d.minute) + ":" + Pad(d.second) + "Z"
  }

  /** What a written date reads back as: dates and full floating times as they were, zoned times in UTC. */
  function Canonical(iso: string, zoned: string -> Option<Instant>): Option<string> {
    var s := Trim(iso);
    if IsDate(s) then Some(s)
    else if IsFloating(s) then Some(if |s| == 19 then s else s + ":00")
    else match zoned(s)
      case Some(d) => if 1000 <= d.year <= 9999 then Some(UtcIso(d)) else None
      case None => None
  }

  function ParamsOf(params: string): map<string, string> {
    if params == "" then map[] else map["VALUE" := "DATE"]
  }

  predicate WrittenDate(d: DateValue) {
    Unbroken(d.value) && (d.params == "" || d.params == ";VALUE=DATE")
  }

  function ReadDate(d: DateValue): Option<string> {
    ToIso(d.value, ParamsOf(d.params))
  }

  predicate ReadsAllDay(d: DateValue) {
    IsDateValue(d.value, ParamsOf(d.params))
  }

  /** What the reader makes of every date that can be written. */
  lemma {:induction false} DateReadsBack(iso: string, zoned: string -> Option<Instant>)
    ensures match IcalDate(iso, zoned)
            case None => true
            case Some(d) =>
              WrittenDate(d) && ReadDate(d) == Canonical(iso, zoned) && (ReadsAllDay(d) <==> IsDate(Trim(iso)))
  {
    hide Trim, TrimStart, TrimEnd, IsFloating, IsDate, IsDateValue, ToIso, UtcStamp, UtcIso;
    var s := Trim(iso);
    if IsDate(s) {
      DateOnlyReadsBack(s);
    } else if IsFloating(s) {
      FloatingReadsBack(s);
    } else if zoned(s).Some? {
      ZonedReadsBack(zoned(s).value);
    }
  }

  lemma {:induction false} DateOnlyReadsBack(s: string)
    requires IsDate(s)
    ensures var v := s[..4] + s[5..7] + s[8..10];
            Unbroken(v) && ToIso(v, map["VALUE" := "DATE"]) == Some(s) && IsDateValue(v, map["VALUE" := "DATE"])
  {
    hide Trim, TrimStart, TrimEnd;
    var v := s[..4] + s[5..7] + s[8..10];
    assert AllDigits(v);
    TrimIdle(v);
    assert v[..4] == s[..4] && v[4..6] == s[5..7] && v[6..8] == s[8..10];
    assert s == s[..4] + "-" + s[5..7] + "-" + s[8..10];
  }

  /** The reader takes a compact date-time apart where the writer put it together. */
  lemma {:induction false} CompactReadsBack(y: string, mo: string, d: string, h: string, mi: string, se: string, z: string)
    requires |y| == 4 && |mo| == |d| == |h| == |mi| == |se| == 2 && (z == "" || z == "Z")
    requires AllDigits(y) && AllDigits(mo) && AllDigits(d) && AllDigits(h) && AllDigits(mi) && AllDigits(se)
    ensures var v := y + mo + d + "T" + h + mi + se + z;
            && Unbroken(v) && !IsDateValue(v, map[])
            && ToIso(v, map[]) == Some(y + "-" + mo + "-" + d + "T" + h + ":" + mi + ":" + se + z)
  {
    hide Trim, TrimStart, TrimEnd;
    var v := y + mo + d + "T" + h + mi + se + z;
    assert v[8] == 'T' && forall k :: 0 <= k < 15 && k != 8 ==> '0' <= v[k] <= '9';
    assert |v| == 15 || v[15] == 'Z';
    TrimIdle(v);
    assert AllDigits(v[..8]) && AllDigits(v[9..15]);
    assert v[..4] == y && v[4..6] == mo && v[6..8] == d;
    assert v[9..11] == h && v[11..13] == mi && v[13..15] == se && v[15..] == z;
  }

  lemma {:induction false} FloatingReadsBack(s: string)
    requires IsFloating(s)
    ensures var v := s[..4] + s[5..7] + s[8..10] + "T" + s[11..13] + s[14..16] + if |s| == 19 then s[17..19] else "00";
            && Unbroken(v) && ToIso(v, map[]) == Some(if |s| == 19 then s else s + ":00") && !IsDateValue(v, map[])
  {
    hide ToIso, IsDateValue, Unbroken;
    var seconds := if |s| == 19 then s[17..19] else "00";
    var v := s[..4] + s[5..7] + s[8..10] + "T" + s[11..13] + s[14..16] + seconds;
    var day := s[..10];
    assert s[..4] == day[..4] && s[5..7] == day[5..7] && s[8..10] == day[8..10];
    CompactReadsBack(s[..4], s[5..7], s[8..10], s[11..13], s[14..16], seconds, "");
    assert v + "" == v;
    var minutes := s[..4] + "-" + s[5..7] + "-" + s[8..10] + "T" + s[11..13] + ":" + s[14..16];
    assert s[..16] == minutes && minutes + ":" + seconds + "" == minutes + ":" + seconds;
    assert |s| == 19 ==> s == s[..16] + ":" + s[17..19];
    assert |s| == 16 ==> s == s[..16] && s + ":00" == s + ":" + "00";
  }

  lemma {:induction false} ZonedReadsBack(d: Instant)
    ensures var v := UtcStamp(d);
            && Unbroken(v) && !IsDateValue(v, map[])
            && ToIso(v, map[]) == if 1000 <= d.year <= 9999 then Some(UtcIso(d)) else None
  {
    hide Trim, TrimStart, TrimEnd, Decimal, Year, Pad;
    FourDigitYears(d.year);
    if 1000 <= d.year <= 9999 {
      CompactReadsBack(Year(d.year), Pad(d.month), Pad(d.day), Pad(d.hour), Pad(d.minute), Pad(d.second), "Z");
    } else {
      var y, v := Year(d.year), UtcStamp(d);
      var n := |y|;
      assert v[..n] == y && v[0] == y[0] && v[n + 4] == 'T' && |v| == n + 12 && v[|v| - 1] == 'Z';
      assert forall k :: 0 <= k < |v| ==> v[k] == '-' || v[k] == 'T' || v[k] == 'Z' || '0' <= v[k] <= '9';
      TrimIdle(v);
      assert n == 4 ==> forall k :: 0 <= k < 4 ==> v[..8][k] == y[k];
      assert n == 3 ==> v[..8][7] == 'T';
    }
  }

  // ---- writing ----

  /** An event to write; an absent field is empty. */
  datatype Draft = Draft(summary: string, start: string, end: string, location: string, description: string)

  datatype Input = Input(uid: string, draft: Draft, sourceLink: string, now: Instant)

  predicate IsAbsoluteHttp(link: string) {
    var l := Lower(link);
    (|l| >= 7 && l[..7] == "http://") || (|l| >= 8 && l[..8] == "https://")
  }

  function Description(i: Input): string {
    if i.sourceLink == "" then i.draft.description
    else if i.draft.description == "" then "Source: " + i.sourceLink
    else i.draft.description + "\n" + "Source: " + i.sourceLink
  }

  function Summary(i: Input): string {
    if i.draft.summary == "" then "Event" else i.draft.summary
  }

  function Line(head: string, value: string): string {
    head + ":" + value
  }

  function DateLines(i: Input, start: DateValue, end: Option<DateValue>): seq<string> {
    Preamble() + [Line("UID", EscapeText(i.uid))] + [Line("DTSTAMP", UtcStamp(i.now))] + [Line("DTSTART" + start.params, start.value)]
    + (match end case Some(e) => [Line("DTEND" + e.params, e.value)] case None => [])
  }

  function TextLines(i: Input, before: seq<string>): seq<string> {
    before
    + [Line("SUMMARY", EscapeText(Summary(i)))]
    + (if i.draft.location != "" then [Line("LOCATION", EscapeText(i.draft.location))] else [])
    + (if Description(i) != "" then [Line("DESCRIPTION", EscapeText(Description(i)))] else [])
    + (if i.sourceLink != "" && IsAbsoluteHttp(i.sourceLink) then [Line("URL", EscapeText(i.sourceLink))] else [])
  }

  /** The property lines of the document, in order. */
  function CalendarLines(i: Input, start: DateValue, end: Option<DateValue>): seq<string> {
    TextLines(i, DateLines(i, start, end)) + [Line("END", "VEVENT")] + [Line("END", "VCALENDAR")]
  }

  function Preamble(): seq<string> {
    [Line("BEGIN", "VCALENDAR")] + [Line("VERSION", "2.0")] + [Line("PRODID", "-//maily//calendar//EN")]
    + [Line("CALSCALE", "GREGORIAN")] + [Line("BEGIN", "VEVENT")]
  }

  datatype Built = Built(calendar: string) | NoStart | BadStart(start: string)

  // ---- reading ----

  datatype ContentLine = ContentLine(name: string, params: map<string, string>, value: string)

  /** The position of the first colon outside double quotes, or -1. */
  function Colon(s: string, inQuote: bool): (r: int)
    ensures -1 <= r < |s|
  {
    if s == "" then -1
    else if s[0] == ':' && !inQuote then 0
    else
      var r := Colon(s[1..], if s[0] == '"' then !inQuote else inQuote);
      if r < 0 then -1 else r + 1
  }

  /** Split on `sep` outside double quotes. */
  function SplitUnquoted(buf: string, s: string, sep: char, inQuote: bool): (r: seq<string>)
    ensures r != []
    decreases |s|
  {
    if s == "" then [buf]
    else
      var q := if s[0] == '"' then !inQuote else inQuote;
      if s[0] == sep && !q then [buf] + SplitUnquoted("", s[1..], sep, q)
      else SplitUnquoted(buf + [s[0]], s[1..], sep, q)
  }

  function StripQuotes(s: string): string {
    var t := if s != "" && s[0] == '"' then s[1..] else s;
    if t != "" && t[|t| - 1] == '"' then t[..|t| - 1] else t
  }

  function Params(segs: seq<string>): map<string, string> {
    if segs == [] then map[]
    else
      var before, seg := Params(segs[..|segs| - 1]), segs[|segs| - 1];
      var eq := IndexOf(seg, '=');
      if eq < 0 then before else before[Upper(Trim(seg[..eq])) := StripQuotes(Trim(seg[eq + 1..]))]
  }

  function ParseLine(line: string): Option<ContentLine> {
    var colon := Colon(line, false);
    if colon < 0 then None
    else
      var segs := SplitUnquoted("", line[..colon], ';', false);
      var name := Upper(Trim(segs[0]));
      if name == "" then None else Some(ContentLine(name, Params(segs[1..]), line[colon + 1..]))
  }

  datatype Invite = Invite(uid: Option<string>, summary: string, start: Option<string>, end: Option<string>,
                           location: Option<string>, description: Option<string>, allDay: bool)

  /** The open components, the event being read, the events finished. */
  datatype Reader = Reader(stack: seq<string>, cur: Option<Invite>, events: seq<Invite>)

  function Nullable(s: string): Option<string> {
    if s == "" then None else Some(s)
  }

  function Finalize(e: Invite): Invite {
    var t := Trim(e.summary);
    e.(summary := if t == "" then "Event" else t)
  }

  function ReadProperty(e: Invite, l: ContentLine): Invite {
    if l.name == "UID" then e.(uid := Nullable(Trim(l.value)))
    else if l.name == "SUMMARY" then e.(summary := Trim(Unescape(l.value)))
    else if l.name == "LOCATION" then e.(location := Nullable(Trim(Unescape(l.value))))
    else if l.name == "DESCRIPTION" then e.(description := Nullable(Trim(Unescape(l.value))))
    else if l.name == "DTSTART" then e.(start := ToIso(l.value, l.params), allDay := IsDateValue(l.value, l.params))
    else if l.name == "DTEND" then e.(end := ToIso(l.value, l.params))
    else e
  }

  function ReadLine(r: Reader, line: string): Reader {
    match ParseLine(line)
    case None => r
    case Some(l) =>
      if l.name == "BEGIN" then
        var comp := Upper(Trim(l.value));
        Reader(r.stack + [comp], if comp == "VEVENT" then Some(Invite(None, "", None, None, None, None, false)) else r.cur, r.events)
      else if l.name == "END" then
        if r.stack == [] then r
        else
          var stack := r.stack[..|r.stack| - 1];
          if r.stack[|r.stack| - 1] == "VEVENT" && r.cur.Some? then Reader(stack, None, r.events + [Finalize(r.cur.value)])
          else Reader(stack, r.cur, r.events)
      else if r.cur.Some? && r.stack != [] && r.stack[|r.stack| - 1] == "VEVENT" then
        r.(cur := Some(ReadProperty(r.cur.value, l)))
      else r
  }

  function ReadAll(lines: seq<string>): Reader {
    if lines == [] then Reader([], None, []) else ReadLine(ReadAll(lines[..|lines| - 1]), lines[|lines| - 1])
  }

  function Parsed(raw: string): seq<Invite> {
    ReadAll(Glue([], PhysicalLines(raw))).events
  }

  method ParseCalendar(raw: string) returns (events: seq<Invite>)
    ensures events == Parsed(raw)
  {
    var lines := UnfoldDocument(raw);
    var r := Reader([], None, []);
    for i := 0 to |lines|
      invariant r == ReadAll(lines[..i])
    {
      r := ReadLine(r, lines[i]);
      assert lines[..i + 1][..i] == lines[..i];
    }
    assert lines[..|lines|] == lines;
    events := r.events;
  }

  // ---- what a plain head parses to ----

  lemma {:induction false} Names()
    ensures PlainName("BEGIN") && PlainName("END") && PlainName("VCALENDAR") && PlainName("VEVENT")
    ensures PlainName("VERSION") && PlainName("PRODID") && PlainName("CALSCALE")
    ensures PlainName("UID") && PlainName("DTSTAMP") && PlainName("DTSTART") && PlainName("DTEND")
    ensures PlainName("SUMMARY") && PlainName("LOCATION") && PlainName("DESCRIPTION") && PlainName("URL")
  {
  }

  lemma {:induction false} ColonAfter(head: string, value: string)
    requires '"' !in head && ':' !in head
    ensures Colon(Line(head, value), false) == |head|
  {
    var s := Line(head, value);
    if head != "" {
      ColonAfter(head[1..], value);
      assert s[0] == head[0] && s[1..] == Line(head[1..], value);
    }
  }

  lemma {:induction false} NoSeparator(buf: string, s: string, rest: string)
    requires '"' !in s && ';' !in s
    ensures SplitUnquoted(buf, s, ';', false) == [buf + s]
    ensures SplitUnquoted(buf, s + ";" + rest, ';', false) == [buf + s] + SplitUnquoted("", rest, ';', false)
    decreases |s|
  {
    var t := s + ";" + rest;
    if s == "" {
      assert buf + s == buf && t[1..] == rest;
    } else {
      NoSeparator(buf + [s[0]], s[1..], rest);
      assert buf + [s[0]] + s[1..] == buf + s;
      assert t[0] == s[0] && t[1..] == s[1..] + ";" + rest;
    }
  }

  lemma {:induction false} PlainLine(name: string, value: string)
    requires PlainName(name)
    ensures ParseLine(Line(name, value)) == Some(ContentLine(name, map[], value))
  {
    hide Colon, SplitUnquoted, Upper, Trim, TrimStart, TrimEnd;
    var line := Line(name, value);
    ColonAfter(name, value);
    NoSeparator("", name, "");
    NameIdle(name);
    assert line[..|name|] == name && "" + name == name && line[|name| + 1..] == value;
  }

  lemma {:induction false} OneParam(key: string, val: string)
    requires PlainName(key) && Trimmed(val) && '"' !in val && '=' !in val
    ensures Params([key + "=" + val]) == map[key := val]
  {
    hide Upper, Trim, TrimStart, TrimEnd, IndexOf;
    var param := key + "=" + val;
    NameIdle(key);
    TrimIdle(val);
    assert param[|key|] == '=' && IndexOf(param, '=') == |key|;
    assert param[..|key|] == key && param[|key| + 1..] == val;
    var segs := [param];
    assert segs[..0] == [];
  }

  lemma {:induction false} DateParam()
    ensures Params(["VALUE=DATE"]) == map["VALUE" := "DATE"]
  {
    hide Params;
    OneParam("VALUE", "DATE");
    assert "VALUE" + "=" + "DATE" == "VALUE=DATE";
  }

  lemma {:induction false} DateLine(name: string, value: string)
    requires PlainName(name)
    ensures ParseLine(Line(name + ";VALUE=DATE", value)) == Some(ContentLine(name, map["VALUE" := "DATE"], value))
  {
    hide Colon, SplitUnquoted, Params, Upper, Trim, TrimStart, TrimEnd;
    var param := "VALUE=DATE";
    var head := name + ";VALUE=DATE";
    var line := Line(head, value);
    assert '"' !in name && ':' !in name && ';' !in name;
    assert head == name + ";" + param;
    ColonAfter(head, value);
    assert line[..|head|] == head && line[|head| + 1..] == value;
    NoSeparator("", name, param);
    NoSeparator("", param, "");
    assert "" + name == name && "" + param == param;
    NameIdle(name);
    DateParam();
    assert ([name] + [param])[1..] == [param];
  }

  // ---- the round trip ----

  function TextBack(s: string): Option<string> {
    Nullable(Trim(Newlines(s)))
  }

  /** What the reader makes of an event written with these dates. */
  function ReadAs(i: Input, start: DateValue, end: Option<DateValue>): Invite {
    Invite(Nullable(Trim(EscapeText(i.uid))),
           if TextBack(Summary(i)).Some? then TextBack(Summary(i)).value else "Event",
           ReadDate(start), if end.Some? then ReadDate(end.value) else None,
           TextBack(i.draft.location), TextBack(Description(i)), ReadsAllDay(start))
  }

  /** The event a draft comes back as. */
  function ReadBack(i: Input, zoned: string -> Option<Instant>): Invite {
    Invite(Nullable(Trim(EscapeText(i.uid))),
           if TextBack(Summary(i)).Some? then TextBack(Summary(i)).value else "Event",
           Canonical(i.draft.start, zoned),
           if i.draft.end != "" && IcalDate(i.draft.end, zoned).Some? then Canonical(i.draft.end, zoned) else None,
           TextBack(i.draft.location), TextBack(Description(i)), IsDate(Trim(i.draft.start)))
  }

  lemma {:induction false} Pushed(ls: seq<string>, l: string)
    ensures ReadAll(ls + [l]) == ReadLine(ReadAll(ls), l)
  {
    assert (ls + [l])[..|ls|] == ls;
  }

  predicate Inside(r: Reader) {
    r.stack == ["VCALENDAR", "VEVENT"] && r.cur.Some? && r.events == []
  }

  /** A property line inside the event updates the event and nothing else. */
  lemma {:induction false} PropertyPushed(ls: seq<string>, name: string, params: string, value: string)
    requires PlainName(name) && name != "BEGIN" && name != "END" && (params == "" || params == ";VALUE=DATE")
    requires Inside(ReadAll(ls))
    ensures var r := ReadAll(ls);
            ReadAll(ls + [Line(name + params, value)])
            == r.(cur := Some(ReadProperty(r.cur.value, ContentLine(name, ParamsOf(params), value))))
  {
    hide ParseLine, ReadAll, ReadProperty, Line;
    Pushed(ls, Line(name + params, value));
    if params == "" {
      assert name + params == name;
      PlainLine(name, value);
    } else {
      DateLine(name, value);
    }
  }

  /** The same for a line without parameters. */
  lemma {:induction false} PlainPushed(ls: seq<string>, name: string, value: string)
    requires PlainName(name) && name != "BEGIN" && name != "END" && Inside(ReadAll(ls))
    ensures var r := ReadAll(ls);
            ReadAll(ls + [Line(name, value)]) == r.(cur := Some(ReadProperty(r.cur.value, ContentLine(name, map[], value))))
  {
    hide ReadAll, ReadProperty, Line;
    PropertyPushed(ls, name, "", value);
    assert name + "" == name;
  }

  lemma {:induction false} TextPushed(ls: seq<string>, name: string, text: string)
    requires name in ["SUMMARY", "LOCATION", "DESCRIPTION"] && Inside(ReadAll(ls))
    ensures var r := ReadAll(ls);
            var e := r.cur.value;
            var t := Trim(Newlines(text));
            ReadAll(ls + [Line(name, EscapeText(text))])
            == r.(cur := Some(if name == "SUMMARY" then e.(summary := t)
                              else if name == "LOCATION" then e.(location := Nullable(t)) else e.(description := Nullable(t))))
  {
    hide ReadAll, Trim, Newlines, EscapeText, Unescape, Line, PlainName;
    Names();
    PlainPushed(ls, name, EscapeText(text));
    UnescapeEscaped(text);
  }

  /** Outside an event, a property line changes nothing. */
  lemma {:induction false} Skipped(ls: seq<string>, name: string, value: string)
    requires PlainName(name) && name != "BEGIN" && name != "END" && ReadAll(ls).cur.None?
    ensures ReadAll(ls + [Line(name, value)]) == ReadAll(ls)
  {
    hide ParseLine, ReadAll, Line;
    Pushed(ls, Line(name, value));
    PlainLine(name, value);
  }

  lemma {:induction false} Begun(ls: seq<string>, comp: string)
    requires PlainName(comp)
    ensures var r := ReadAll(ls);
            ReadAll(ls + [Line("BEGIN", comp)])
            == Reader(r.stack + [comp], if comp == "VEVENT" then Some(Invite(None, "", None, None, None, None, false)) else r.cur, r.events)
  {
    hide ParseLine, ReadAll, Line, Upper, Trim, PlainName;
    Names();
    Pushed(ls, Line("BEGIN", comp));
    PlainLine("BEGIN", comp);
    NameIdle(comp);
  }

  lemma {:induction false} Opened()
    ensures ReadAll(Preamble()) == Reader(["VCALENDAR", "VEVENT"], Some(Invite(None, "", None, None, None, None, false)), [])
  {
    hide ReadLine, Line, PlainName;
    Names();
    var none: seq<string> := [];
    Begun(none, "VCALENDAR");
    var l1 := none + [Line("BEGIN", "VCALENDAR")];
    Skipped(l1, "VERSION", "2.0");
    var l2 := l1 + [Line("VERSION", "2.0")];
    Skipped(l2, "PRODID", "-//maily//calendar//EN");
    var l3 := l2 + [Line("PRODID", "-//maily//calendar//EN")];
    Skipped(l3, "CALSCALE", "GREGORIAN");
    var l4 := l3 + [Line("CALSCALE", "GREGORIAN")];
    Begun(l4, "VEVENT");
    assert Preamble() == l4 + [Line("BEGIN", "VEVENT")];
  }

  lemma {:induction false} Ended(ls: seq<string>, comp: string)
    requires PlainName(comp) && ReadAll(ls).stack != []
    ensures var r := ReadAll(ls);
            var n := |r.stack| - 1;
            ReadAll(ls + [Line("END", comp)])
            == if r.stack[n] == "VEVENT" && r.cur.Some? then Reader(r.stack[..n], None, r.events + [Finalize(r.cur.value)])
               else r.(stack := r.stack[..n])
  {
    hide ParseLine, ReadAll, Line, Finalize, PlainName;
    Names();
    Pushed(ls, Line("END", comp));
    PlainLine("END", comp);
  }

  lemma {:induction false} Closed(ls: seq<string>)
    requires Inside(ReadAll(ls))
    ensures ReadAll(ls + [Line("END", "VEVENT")] + [Line("END", "VCALENDAR")] + [""]).events == [Finalize(ReadAll(ls).cur.value)]
  {
    hide ParseLine, ReadAll, Finalize, Line, PlainName;
    Names();
    var l1 := ls + [Line("END", "VEVENT")];
    var l2 := l1 + [Line("END", "VCALENDAR")];
    Ended(ls, "VEVENT");
    Ended(l1, "VCALENDAR");
    Pushed(l2, "");
    NoColon();
  }

  lemma {:induction false} NoColon()
    ensures ParseLine("") == None
  {
  }

  function EndOf(i: Input, zoned: string -> Option<Instant>): Option<DateValue> {
    if i.draft.end == "" then None else IcalDate(i.draft.end, zoned)
  }

  /** The event once its identity and dates are read. */
  function Dated(i: Input, start: DateValue, end: Option<DateValue>): Invite {
    Invite(Nullable(Trim(EscapeText(i.uid))), "", ReadDate(start), if end.Some? then ReadDate(end.value) else None, None, None,
           ReadsAllDay(start))
  }

  lemma {:induction false} DatesReadBack(i: Input, start: DateValue, end: Option<DateValue>)
    requires WrittenDate(start) && (end.Some? ==> WrittenDate(end.value))
    ensures ReadAll(DateLines(i, start, end)) == Reader(["VCALENDAR", "VEVENT"], Some(Dated(i, start, end)), [])
  {
    hide ReadAll, EscapeText, Trim, IsDateValue, ToIso, UtcStamp, Line, Preamble, PlainName;
    Names();
    Opened();
    var l0 := Preamble();
    PlainPushed(l0, "UID", EscapeText(i.uid));
    var l1 := l0 + [Line("UID", EscapeText(i.uid))];
    PlainPushed(l1, "DTSTAMP", UtcStamp(i.now));
    var l2 := l1 + [Line("DTSTAMP", UtcStamp(i.now))];
    PropertyPushed(l2, "DTSTART", start.params, start.value);
    var l3 := l2 + [Line("DTSTART" + start.params, start.value)];
    if end.Some? {
      PropertyPushed(l3, "DTEND", end.value.params, end.value.value);
    } else {
      assert l3 + [] == l3;
    }
  }

  lemma {:induction false} TextsReadBack(i: Input, before: seq<string>)
    requires Inside(ReadAll(before))
    requires var e := ReadAll(before).cur.value; e.summary == "" && e.location == None && e.description == None
    ensures var r := ReadAll(before);
            ReadAll(TextLines(i, before))
            == r.(cur := Some(r.cur.value.(summary := Trim(Newlines(Summary(i))), location := TextBack(i.draft.location),
                                           description := TextBack(Description(i)))))
  {
    hide ReadAll, EscapeText, Trim, IsAbsoluteHttp, Description, Summary, ReadLine, Line, PlainName;
    Names();
    TextPushed(before, "SUMMARY", Summary(i));
    var l5 := before + [Line("SUMMARY", EscapeText(Summary(i)))];
    TextPushed(l5, "LOCATION", i.draft.location);
    var l6 := l5 + if i.draft.location != "" then [Line("LOCATION", EscapeText(i.draft.location))] else [];
    assert l5 + [] == l5;
    EmptyText();
    TextPushed(l6, "DESCRIPTION", Description(i));
    var l7 := l6 + if Description(i) != "" then [Line("DESCRIPTION", EscapeText(Description(i)))] else [];
    assert l6 + [] == l6;
    PlainPushed(l7, "URL", EscapeText(i.sourceLink));
    assert l7 + [] == l7;
  }

  lemma {:induction false} EmptyText()
    ensures TextBack("") == None
  {
  }

  /** The written lines read back as one event, field by field. */
  lemma {:induction false} LinesReadBack(i: Input, start: DateValue, end: Option<DateValue>)
    requires WrittenDate(start) && (end.Some? ==> WrittenDate(end.value))
    ensures ReadAll(CalendarLines(i, start, end) + [""]).events == [ReadAs(i, start, end)]
  {
    hide ReadAll, EscapeText, Trim, TrimStart, TrimEnd, Newlines, IsAbsoluteHttp, Description, Summary, ReadDate, ReadsAllDay, Line, Preamble, DateLines;
    var dates := DateLines(i, start, end);
    DatesReadBack(i, start, end);
    TextsReadBack(i, dates);
    TrimTrims(Newlines(Summary(i)));
    TrimIdle(Trim(Newlines(Summary(i))));
    Closed(TextLines(i, dates));
  }

  // ---- the writer ----

  lemma {:induction false} LinePlain(name: string, params: string, value: string)
    requires PlainName(name) && (params == "" || params == ";VALUE=DATE") && Unbroken(value)
    ensures Plain(Line(name + params, value))
  {
    assert Line(name + params, value)[0] == name[0];
  }

  lemma {:induction false} TextLinePlain(name: string, text: string)
    requires PlainName(name)
    ensures Plain(Line(name, EscapeText(text)))
  {
    hide EscapeText;
    EscapedIsUnbroken(text);
    LinePlain(name, "", EscapeText(text));
    assert name + "" == name;
  }

  lemma {:induction false} ConstantPlain(name: string, value: string)
    requires PlainName(name) && Unbroken(value)
    ensures Plain(Line(name, value))
  {
    LinePlain(name, "", value);
    assert name + "" == name;
  }

  predicate AllPlain(lines: seq<string>) {
    forall k :: 0 <= k < |lines| ==> Plain(lines[k])
  }

  lemma {:induction false} PlainAppend(lines: seq<string>, l: string)
    requires AllPlain(lines) && Plain(l)
    ensures AllPlain(lines + [l])
  {
  }

  /** Append a line the reader can tell from a continuation. */
  method Push(lines: seq<string>, l: string) returns (r: seq<string>)
    requires AllPlain(lines) && Plain(l)
    ensures r == lines + [l] && AllPlain(r)
  {
    PlainAppend(lines, l);
    r := lines + [l];
  }

  method Wrapper() returns (lines: seq<string>)
    ensures lines == Preamble() && AllPlain(lines)
  {
    hide Plain, Line, AllPlain, PlainName;
    Names();
    ConstantPlain("BEGIN", "VCALENDAR");
    ConstantPlain("VERSION", "2.0");
    ConstantPlain("PRODID", "-//maily//calendar//EN");
    ConstantPlain("CALSCALE", "GREGORIAN");
    ConstantPlain("BEGIN", "VEVENT");
    lines := [];
    lines := Push(lines, Line("BEGIN", "VCALENDAR"));
    lines := Push(lines, Line("VERSION", "2.0"));
    lines := Push(lines, Line("PRODID", "-//maily//calendar//EN"));
    lines := Push(lines, Line("CALSCALE", "GREGORIAN"));
    lines := Push(lines, Line("BEGIN", "VEVENT"));
  }

  lemma {:induction false} StampUnbroken(d: Instant)
    ensures Unbroken(UtcStamp(d))
  {
    ZonedReadsBack(d);
  }

  method HeadLines(i: Input, start: DateValue, end: Option<DateValue>) returns (lines: seq<string>)
    requires WrittenDate(start) && (end.Some? ==> WrittenDate(end.value))
    ensures lines == DateLines(i, start, end) && AllPlain(lines)
  {
    hide EscapeText, UtcStamp, Plain, Line, Preamble, AllPlain, PlainName, Unbroken;
    Names();
    TextLinePlain("UID", i.uid);
    StampUnbroken(i.now);
    ConstantPlain("DTSTAMP", UtcStamp(i.now));
    LinePlain("DTSTART", start.params, start.value);
    lines := Wrapper();
    lines := Push(lines, Line("UID", EscapeText(i.uid)));
    lines := Push(lines, Line("DTSTAMP", UtcStamp(i.now)));
    lines := Push(lines, Line("DTSTART" + start.params, start.value));
    if end.Some? {
      LinePlain("DTEND", end.value.params, end.value.value);
      lines := Push(lines, Line("DTEND" + end.value.params, end.value.value));
    } else {
      assert lines + [] == lines;
    }
  }

  method AllLines(i: Input, start: DateValue, end: Option<DateValue>) returns (lines: seq<string>)
    requires WrittenDate(start) && (end.Some? ==> WrittenDate(end.value))
    ensures lines == CalendarLines(i, start, end) && lines != [] && AllPlain(lines)
  {
    hide EscapeText, IsAbsoluteHttp, Description, Summary, Plain, Line, DateLines, AllPlain, PlainName, Unbroken;
    Names();
    TextLinePlain("SUMMARY", Summary(i));
    TextLinePlain("LOCATION", i.draft.location);
    TextLinePlain("DESCRIPTION", Description(i));
    TextLinePlain("URL", i.sourceLink);
    ConstantPlain("END", "VEVENT");
    ConstantPlain("END", "VCALENDAR");
    lines := HeadLines(i, start, end);
    lines := Push(lines, Line("SUMMARY", EscapeText(Summary(i))));
    assert lines + [] == lines;
    if i.draft.location != "" {
      lines := Push(lines, Line("LOCATION", EscapeText(i.draft.location)));
    }
    assert lines + [] == lines;
    if Description(i) != "" {
      lines := Push(lines, Line("DESCRIPTION", EscapeText(Description(i))));
    }
    assert lines + [] == lines;
    if i.sourceLink != "" && IsAbsoluteHttp(i.sourceLink) {
      lines := Push(lines, Line("URL", EscapeText(i.sourceLink)));
    }
    lines := Push(lines, Line("END", "VEVENT"));
    lines := Push(lines, Line("END", "VCALENDAR"));
  }

  /**
   * The document: an error without a readable start; otherwise no physical line exceeds 75 octets, unfolding
   * gives the property lines back, and the mailbox's own reader finds exactly one event in it.
   */
  method BuildCalendar(i: Input, zoned: string -> Option<Instant>) returns (r: Built)
    ensures i.draft.start == "" ==> r == NoStart
    ensures i.draft.start != "" && IcalDate(i.draft.start, zoned).None? ==> r == BadStart(i.draft.start)
    ensures i.draft.start != "" && IcalDate(i.draft.start, zoned).Some? ==>
              && r.Built? && WithinLimit(PhysicalLines(r.calendar))
              && Glue([], PhysicalLines(r.calendar)) == CalendarLines(i, IcalDate(i.draft.start, zoned).value, EndOf(i, zoned)) + [""]
              && Parsed(r.calendar) == [ReadBack(i, zoned)]
  {
    hide ReadAll, CalendarLines, IcalDate, Glue, PhysicalLines, Join, WithinLimit, Plain, WrittenDate, ReadDate, ReadsAllDay, Canonical, IsDate,
         Trim, EscapeText, TextBack, Summary, Description;
    if i.draft.start == "" {
      return NoStart;
    }
    var start := IcalDate(i.draft.start, zoned);
    if start.None? {
      return BadStart(i.draft.start);
    }
    var end := if i.draft.end == "" then None else IcalDate(i.draft.end, zoned);
    DateReadsBack(i.draft.start, zoned);
    DateReadsBack(i.draft.end, zoned);
    var lines := AllLines(i, start.value, end);
    var folded: seq<string> := [];
    for k := 0 to |lines|
      invariant |folded| == k && forall j :: 0 <= j < k ==> FoldsTo(lines[j], folded[j])
    {
      var f := Fold(lines[k]);
      folded := folded + [f];
    }
    r := Built(Join(folded, CRLF) + CRLF);
    DocumentUnfolds(lines, folded);
    LinesReadBack(i, start.value, end);
  }

  // ---- the identity of an event ----

  predicate Special(c: char) {
    c == '\\' || c == ',' || c == ';' || c == '\n' || c == '\r'
  }

  lemma {:induction false} EscapeEachLength(v: string)
    requires Unbroken(v)
    ensures |EscapeEach(v)| >= |v|
    ensures (forall c :: c in v ==> !Special(c)) <==> EscapeEach(v) == v
    ensures |EscapeEach(v)| == |v| ==> EscapeEach(v) == v
  {
    if v != "" {
      EscapeEachLength(v[1..]);
      assert v == [v[0]] + v[1..];
      assert forall c :: c in v <==> c == v[0] || c in v[1..];
      assert |EscapeOne(v[0])| == if Special(v[0]) then 2 else 1;
    }
  }

  /**
   * The writer escapes the UID but the reader takes it verbatim: an event keeps its identity exactly when the
   * UID has no surrounding space and no backslash, comma, semicolon or line break.
   */
  lemma {:induction false} UidKeptExact(uid: string)
    requires uid != ""
    ensures Nullable(Trim(EscapeText(uid))) == Some(uid) <==> Trimmed(uid) && forall c :: c in uid ==> !Special(c)
  {
    hide EscapeText, EscapeEach, TrimStart, TrimEnd, Newlines, Trim;
    EscapeIsCharacterwise(uid);
    EscapedIsUnbroken(uid);
    TrimTrims(EscapeText(uid));
    if Unbroken(uid) {
      NewlinesUnbroken(uid);
      EscapeEachLength(uid);
      if Trimmed(uid) {
        EndsOfEscape(uid);
        TrimIdle(EscapeText(uid));
      }
    } else {
      TrimIsInside(EscapeText(uid));
    }
  }

  lemma {:induction false} TrimIsInside(s: string)
    ensures forall c :: c in Trim(s) ==> c in s
  {
    var t := TrimStart(s);
    assert forall c :: c in t ==> c in s;
  }

  lemma {:induction false} EndsOfEscape(v: string)
    requires Unbroken(v) && Trimmed(v)
    ensures Trimmed(EscapeEach(v))
  {
    if v != "" {
      assert EscapeEach(v)[0] == EscapeOne(v[0])[0];
      LastOfEscape(v);
    }
  }

  lemma {:induction false} LastOfEscape(v: string)
    requires Unbroken(v) && v != ""
    ensures EscapeEach(v) != "" && EscapeEach(v)[|EscapeEach(v)| - 1] == v[|v| - 1]
  {
    if |v| > 1 { LastOfEscape(v[1..]); }
  }

  // ---- lines the reader does not need ----

  predicate HasHead(line: string, head: string) {
    |head| < |line| && line[..|head|] == head && line[|head|] == ':'
  }

  lemma {:induction false} PreambleSpelled()
    ensures Preamble() == ["BEGIN:VCALENDAR", "VERSION:2.0", "PRODID:-//maily//calendar//EN", "CALSCALE:GREGORIAN", "BEGIN:VEVENT"]
  {
    assert Line("BEGIN", "VCALENDAR") == "BEGIN:VCALENDAR";
    assert Line("VERSION", "2.0") == "VERSION:2.0";
    assert Line("PRODID", "-//maily//calendar//EN") == "PRODID:-//maily//calendar//EN";
    assert Line("CALSCALE", "GREGORIAN") == "CALSCALE:GREGORIAN";
    assert Line("BEGIN", "VEVENT") == "BEGIN:VEVENT";
  }

  /** The document is a calendar of version 2.0 that names its producer and scale, holds one event, and stamps it. */
  lemma {:induction false} HeadersPresent(i: Input, start: DateValue, end: Option<DateValue>)
    ensures var ls := CalendarLines(i, start, end); var n := |ls|;
            && n > 9 && ls[..5] == ["BEGIN:VCALENDAR", "VERSION:2.0", "PRODID:-//maily//calendar//EN", "CALSCALE:GREGORIAN", "BEGIN:VEVENT"]
            && ls[5] == Line("UID", EscapeText(i.uid)) && ls[6] == Line("DTSTAMP", UtcStamp(i.now))
            && ls[n - 2] == Line("END", "VEVENT") && ls[n - 1] == Line("END", "VCALENDAR")
  {
    hide EscapeText, UtcStamp, Description, Summary, IsAbsoluteHttp, Line, Preamble;
    PreambleSpelled();
    var ls := CalendarLines(i, start, end);
    assert Preamble() <= ls;
    assert ls[..5] == Preamble();
  }

  predicate NoUrl(ls: seq<string>) {
    forall k :: 0 <= k < |ls| ==> !HasHead(ls[k], "URL")
  }

  lemma {:induction false} NoUrlAppend(a: seq<string>, b: seq<string>)
    ensures NoUrl(a + b) <==> NoUrl(a) && NoUrl(b)
  {
    hide HasHead;
    assert forall k :: 0 <= k < |a| ==> (a + b)[k] == a[k];
    assert forall k :: 0 <= k < |b| ==> (a + b)[|a| + k] == b[k];
    if NoUrl(a) && NoUrl(b) {
      forall k | 0 <= k < |a + b| ensures !HasHead((a + b)[k], "URL") {
        if k >= |a| { assert (a + b)[k] == b[k - |a|]; }
      }
    }
  }

  lemma {:induction false} NotUrl(head: string, value: string)
    requires |head| >= 2 && (head[0] != 'U' || head[1] != 'R')
    ensures NoUrl([Line(head, value)])
  {
    var l := Line(head, value);
    assert l[0] == head[0] && l[1] == head[1];
    assert |l| > 3 ==> l[..3][0] == l[0] && l[..3][1] == l[1];
    assert "URL"[0] == 'U' && "URL"[1] == 'R';
  }

  lemma {:induction false} NoUrlInDates(i: Input, start: DateValue, end: Option<DateValue>)
    ensures NoUrl(DateLines(i, start, end))
  {
    hide NoUrl, Line, EscapeText, UtcStamp;
    NotUrl("BEGIN", "VCALENDAR");
    NotUrl("VERSION", "2.0");
    NotUrl("PRODID", "-//maily//calendar//EN");
    NotUrl("CALSCALE", "GREGORIAN");
    NotUrl("BEGIN", "VEVENT");
    var a, b, c := [Line("BEGIN", "VCALENDAR")], [Line("VERSION", "2.0")], [Line("PRODID", "-//maily//calendar//EN")];
    var d, e := [Line("CALSCALE", "GREGORIAN")], [Line("BEGIN", "VEVENT")];
    NoUrlAppend(a, b);
    NoUrlAppend(a + b, c);
    NoUrlAppend(a + b + c, d);
    NoUrlAppend(a + b + c + d, e);
    var uid, stamp, from := [Line("UID", EscapeText(i.uid))], [Line("DTSTAMP", UtcStamp(i.now))], [Line("DTSTART" + start.params, start.value)];
    NotUrl("UID", EscapeText(i.uid));
    NotUrl("DTSTAMP", UtcStamp(i.now));
    NotUrl("DTSTART" + start.params, start.value);
    NoUrlAppend(Preamble(), uid);
    NoUrlAppend(Preamble() + uid, stamp);
    NoUrlAppend(Preamble() + uid + stamp, from);
    match end {
      case Some(x) =>
        NotUrl("DTEND" + x.params, x.value);
        NoUrlAppend(Preamble() + uid + stamp + from, [Line("DTEND" + x.params, x.value)]);
      case None => NoUrlAppend(Preamble() + uid + stamp + from, []);
    }
    NoLines();
  }

  lemma {:induction false} NoLines()
    ensures NoUrl([])
  {
  }

  /** It links to its source exactly if there is one and it is a web address. */
  lemma {:induction false} UrlExactly(i: Input, start: DateValue, end: Option<DateValue>)
    ensures var ls := CalendarLines(i, start, end);
            && (i.sourceLink != "" && IsAbsoluteHttp(i.sourceLink) ==> Line("URL", EscapeText(i.sourceLink)) in ls)
            && (i.sourceLink == "" || !IsAbsoluteHttp(i.sourceLink) ==> NoUrl(ls))
  {
    hide NoUrl, Line, EscapeText, DateLines, Description, Summary, IsAbsoluteHttp;
    NoUrlInDates(i, start, end);
    NoLines();
    var before := DateLines(i, start, end);
    var a := [Line("SUMMARY", EscapeText(Summary(i)))];
    var b := if i.draft.location != "" then [Line("LOCATION", EscapeText(i.draft.location))] else [];
    var c := if Description(i) != "" then [Line("DESCRIPTION", EscapeText(Description(i)))] else [];
    var d := if i.sourceLink != "" && IsAbsoluteHttp(i.sourceLink) then [Line("URL", EscapeText(i.sourceLink))] else [];
    NotUrl("SUMMARY", EscapeText(Summary(i)));
    NotUrl("LOCATION", EscapeText(i.draft.location));
    NotUrl("DESCRIPTION", EscapeText(Description(i)));
    NotUrl("END", "VEVENT");
    NotUrl("END", "VCALENDAR");
    NoUrlAppend(before, a);
    NoUrlAppend(before + a, b);
    NoUrlAppend(before + a + b, c);
    var text := before + a + b + c + d;
    NoUrlAppend(before + a + b + c, d);
    NoUrlAppend(text, [Line("END", "VEVENT")]);
    NoUrlAppend(text + [Line("END", "VEVENT")], [Line("END", "VCALENDAR")]);
    assert CalendarLines(i, start, end) == text + [Line("END", "VEVENT")] + [Line("END", "VCALENDAR")];
    if d != [] { assert text[|text| - 1] == d[0]; }
  }

  /** The texts of the event: a title in any case, and the source named under the description, or alone where there is none. */
  lemma {:induction false} TextsExactly(i: Input)
    ensures Summary(i) == if i.draft.summary != "" then i.draft.summary else "Event"
    ensures i.sourceLink == "" ==> Description(i) == i.draft.description
    ensures i.sourceLink != "" && i.draft.description == "" ==> Description(i) == "Source: " + i.sourceLink
    ensures i.sourceLink != "" && i.draft.description != "" ==> Description(i) == i.draft.description + "\n" + "Source: " + i.sourceLink
  {
  }

  // ---- what the reader makes of other calendars ----

  /** Eight digits are a date also where no parameter says so. */
  lemma {:induction false} BareDate(v: string)
    requires |v| == 8 && AllDigits(v)
    ensures IsDateValue(v, map[]) && ToIso(v, map[]) == Some(v[..4] + "-" + v[4..6] + "-" + v[6..8])
  {
    TrimIdle(v);
  }

  lemma {:induction false} ReadOneMore(ls: seq<string>, l: string)
    ensures ReadAll(ls + [l]) == ReadLine(ReadAll(ls), l)
  {
    assert (ls + [l])[..|ls|] == ls;
  }

  /** A line that neither begins nor ends a component. */
  predicate PropertyLine(l: string) {
    ParseLine(l).None? || (ParseLine(l).value.name != "BEGIN" && ParseLine(l).value.name != "END")
  }

  lemma {:induction false} PropertiesSkipped(ls: seq<string>, more: seq<string>)
    requires forall k :: 0 <= k < |more| ==> PropertyLine(more[k])
    requires var r := ReadAll(ls); r.stack != [] && r.stack[|r.stack| - 1] != "VEVENT"
    ensures ReadAll(ls + more) == ReadAll(ls)
  {
    hide ParseLine, ReadProperty;
    if more == [] {
      assert ls + more == ls;
    } else {
      var n := |more| - 1;
      PropertiesSkipped(ls, more[..n]);
      assert ls + more == (ls + more[..n]) + [more[n]];
      ReadOneMore(ls + more[..n], more[n]);
    }
  }

  /** A component inside an event, such as an alarm, or outside of one, such as a time zone, leaves no trace in the events. */
  lemma {:induction false} ComponentSkipped(ls: seq<string>, comp: string, more: seq<string>)
    requires PlainName(comp) && comp != "VEVENT" && forall k :: 0 <= k < |more| ==> PropertyLine(more[k])
    ensures ReadAll(ls + [Line("BEGIN", comp)] + more + [Line("END", comp)]) == ReadAll(ls)
  {
    hide ReadProperty, ReadAll, ParseLine, PropertyLine;
    Names();
    PlainLine("BEGIN", comp);
    PlainLine("END", comp);
    NameIdle(comp);
    var r := ReadAll(ls);
    var inside := ls + [Line("BEGIN", comp)];
    ReadOneMore(ls, Line("BEGIN", comp));
    assert ReadAll(inside) == Reader(r.stack + [comp], r.cur, r.events);
    PropertiesSkipped(inside, more);
    ReadOneMore(inside + more, Line("END", comp));
    assert (r.stack + [comp])[..|r.stack|] == r.stack;
  }

  /** No line takes an event back, and one line ends at most one. */
  lemma {:induction false} EventsKept(r: Reader, l: string)
    ensures r.events <= ReadLine(r, l).events && |ReadLine(r, l).events| <= |r.events| + 1
    ensures |ReadLine(r, l).events| > |r.events| ==> r.cur.Some? && ReadLine(r, l).events == r.events + [Finalize(r.cur.value)]
  {
    hide ParseLine, ReadProperty, Finalize;
  }
}
