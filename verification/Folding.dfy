/**
 * The text layer of the iCalendar writer (calendar/vevent.ts) and of the reader the same mailbox runs over
 * invitations (pipeline/enrichers/ics.ts): escaping, folding at 75 octets, and taking both back.
 */
module Folding {
  const CRLF: string := "\r\n"

  predicate Unbroken(s: string) {
    '\r' !in s && '\n' !in s
  }

  // ---- octets ----

  /** The length of a character in UTF-8. */
  function OctetsOf(c: char): nat {
    var n := c as int;
    if n < 0x80 then 1 else if n < 0x800 then 2 else if n < 0x1_0000 then 3 else 4
  }

  function Octets(s: string): nat {
    if s == "" then 0 else Octets(s[..|s| - 1]) + OctetsOf(s[|s| - 1])
  }

  lemma {:induction false} OctetsGrow(s: string, n: nat)
    requires n <= |s|
    ensures Octets(s[..n]) <= Octets(s)
  {
    if n < |s| {
      OctetsGrow(s[..|s| - 1], n);
      assert s[..|s| - 1][..n] == s[..n];
    } else {
      assert s[..n] == s;
    }
  }

  // ---- folding ----

  function Flat(ps: seq<string>): string {
    if ps == [] then "" else ps[0] + Flat(ps[1..])
  }

  lemma {:induction false} FlatAppend(ps: seq<string>, p: string)
    ensures Flat(ps + [p]) == Flat(ps) + p
  {
    if ps == [] {
      assert [p][1..] == [];
    } else {
      FlatAppend(ps[1..], p);
      assert (ps + [p])[1..] == ps[1..] + [p];
    }
  }

  function Join(ps: seq<string>, sep: string): string {
    if ps == [] then "" else if |ps| == 1 then ps[0] else Join(ps[..|ps| - 1], sep) + sep + ps[|ps| - 1]
  }

  /** Continuation lines lose one octet to the leading space. */
  function Limit(k: nat): nat {
    if k == 0 then 75 else 74
  }

  /** Pieces within their limits, none of which could have taken one more character of the next. */
  ghost predicate Greedy(ps: seq<string>) {
    && (forall k :: 0 <= k < |ps| ==> Octets(ps[k]) <= Limit(k))
    && (forall k :: 0 < k < |ps| ==> ps[k] != "" && Octets(ps[k - 1] + ps[k][..1]) > Limit(k - 1))
  }

  /** The physical lines `line` is folded into, without their leading spaces. */
  ghost predicate Cut(ps: seq<string>, line: string) {
    ps != [] && Flat(ps) == line && Greedy(ps)
  }

  /** A piece that still fits one more character stays greedy with it. */
  lemma {:induction false} Grow(out: seq<string>, cur: string, ch: char)
    requires Greedy(out + [cur]) && Octets(cur) + OctetsOf(ch) <= Limit(|out|)
    ensures Greedy(out + [cur + [ch]]) && Octets(cur + [ch]) == Octets(cur) + OctetsOf(ch)
  {
    var was, now := out + [cur], out + [cur + [ch]];
    assert (cur + [ch])[..|cur|] == cur;
    forall k | 0 < k < |now| ensures now[k] != "" && Octets(now[k - 1] + now[k][..1]) > Limit(k - 1) {
      assert was[k] != "" && now[k][..1] == was[k][..1] && now[k - 1] == was[k - 1];
    }
  }

  /** A full piece is closed and the character that did not fit starts the next. */
  lemma {:induction false} Close(out: seq<string>, cur: string, ch: char)
    requires Greedy(out + [cur]) && Octets(cur) + OctetsOf(ch) > Limit(|out|)
    ensures Greedy(out + [cur] + [[ch]]) && Octets([ch]) == OctetsOf(ch)
  {
    var was, now := out + [cur], out + [cur] + [[ch]];
    assert (cur + [ch])[..|cur|] == cur && [ch][..0] == "" && [ch][..1] == [ch];
    forall k | 0 < k < |now| ensures now[k] != "" && Octets(now[k - 1] + now[k][..1]) > Limit(k - 1) {
      if k < |was| { assert was[k] != "" && now[k] == was[k] && now[k - 1] == was[k - 1]; }
    }
  }

  ghost predicate FoldsTo(line: string, folded: string) {
    exists ps :: Cut(ps, line) && folded == Join(ps, CRLF + " ")
  }

  lemma {:induction false} ShortLine(line: string)
    requires Octets(line) <= 75
    ensures FoldsTo(line, line)
  {
    assert [line][1..] == [];
    assert Cut([line], line);
  }

  lemma {:induction false} NothingYet()
    ensures Greedy([""]) && Octets("") == 0 && Flat([]) == ""
  {
  }

  method Fold(line: string) returns (folded: string)
    ensures FoldsTo(line, folded)
  {
    hide Join, Greedy, Octets, OctetsOf, Flat;
    if Octets(line) <= 75 {
      ShortLine(line);
      return line;
    }
    NothingYet();
    var out: seq<string> := [];
    var cur := "";
    assert out + [cur] == [""];
    var curBytes := 0;
    var first := true;
    for i := 0 to |line|
      invariant Flat(out) + cur == line[..i]
      invariant curBytes == Octets(cur) && first == (out == [])
      invariant Greedy(out + [cur])
    {
      var ch := line[i];
      var chBytes := OctetsOf(ch);
      var limit := if first then 75 else 74;
      assert line[..i + 1] == line[..i] + [ch];
      if curBytes + chBytes > limit {
        FlatAppend(out, cur);
        Close(out, cur, ch);
        out := out + [cur];
        cur := [ch];
        curBytes := chBytes;
        first := false;
      } else {
        Grow(out, cur, ch);
        cur := cur + [ch];
        curBytes := curBytes + chBytes;
      }
    }
    FlatAppend(out, cur);
    assert line[..|line|] == line;
    out := out + [cur];
    folded := Join(out, CRLF + " ");
    assert Cut(out, line);
  }

  /** There is only one way to fold a line. */
  lemma {:induction false} CutIsUnique(ps: seq<string>, qs: seq<string>, line: string)
    requires Cut(ps, line) && Cut(qs, line)
    ensures ps == qs
  {
    assert ps[0..] == ps && qs[0..] == qs;
    SameTail(ps, qs, 0);
  }

  lemma {:induction false} SameTail(ps: seq<string>, qs: seq<string>, n: nat)
    requires n <= |ps| && n <= |qs|
    requires Greedy(ps) && Greedy(qs) && Flat(ps[n..]) == Flat(qs[n..])
    requires n == 0 ==> ps != [] && qs != []
    ensures ps[n..] == qs[n..]
    decreases |ps| - n
  {
    assert n < |ps| ==> Flat(ps[n..]) == ps[n] + Flat(ps[n..][1..]);
    assert n < |qs| ==> Flat(qs[n..]) == qs[n] + Flat(qs[n..][1..]);
    if n < |ps| && n < |qs| {
      assert ps[n..][1..] == ps[n + 1..] && qs[n..][1..] == qs[n + 1..];
      FirstPieceIsNoLonger(ps, qs, n);
      FirstPieceIsNoLonger(qs, ps, n);
      var text := Flat(ps[n..]);
      assert ps[n] == text[..|ps[n]|] == qs[n];
      assert Flat(ps[n + 1..]) == text[|ps[n]|..] == Flat(qs[n + 1..]);
      SameTail(ps, qs, n + 1);
      assert ps[n..] == [ps[n]] + ps[n + 1..] && qs[n..] == [qs[n]] + qs[n + 1..];
    }
  }

  lemma {:induction false} FirstPieceIsNoLonger(ps: seq<string>, qs: seq<string>, n: nat)
    requires n < |ps| && n < |qs|
    requires Greedy(ps) && Greedy(qs) && Flat(ps[n..]) == Flat(qs[n..])
    ensures |qs[n]| <= |ps[n]|
  {
    var rest, text := ps[n..][1..], Flat(qs[n..]);
    assert text == ps[n] + Flat(rest);
    assert qs[n] == text[..|qs[n]|];
    if n + 1 < |ps| {
      assert rest[0] == ps[n + 1] && Flat(rest) == rest[0] + Flat(rest[1..]);
      var longer := ps[n] + ps[n + 1][..1];
      assert Octets(longer) > Limit(n);
      assert longer == text[..|longer|];
      var m := if |longer| <= |qs[n]| then |longer| else 0;
      OctetsGrow(qs[n], m);
      assert qs[n][..m] == text[..m];
    }
  }

  // ---- physical lines, as the reader finds them ----

  /** A CRLF pair counts as one line break. */
  function Step(s: string): (n: nat)
    requires s != ""
    ensures 1 <= n <= |s|
  {
    if s[0] == '\r' && |s| > 1 && s[1] == '\n' then 2 else 1
  }

  function NoReturn(c: char): char {
    if c == '\r' then '\n' else c
  }

  /** CRLF, LF and CR all read as LF. */
  function Newlines(s: string): string {
    if s == "" then "" else [NoReturn(s[0])] + Newlines(s[Step(s)..])
  }

  function SplitFrom(cur: string, s: string): seq<string>
    decreases |s|
  {
    if s == "" then [cur]
    else if s[0] == '\n' then [cur] + SplitFrom("", s[1..])
    else SplitFrom(cur + [s[0]], s[1..])
  }

  function PhysicalLines(s: string): seq<string> {
    SplitFrom("", Newlines(s))
  }

  lemma {:induction false} SplitAppend(cur: string, a: string, b: string)
    ensures SplitFrom(cur, a + "\n" + b) == SplitFrom(cur, a) + SplitFrom("", b)
    decreases |a|
  {
    var s := a + "\n" + b;
    if a == "" {
      assert s[1..] == b;
    } else {
      assert s[1..] == a[1..] + "\n" + b;
      if a[0] == '\n' { SplitAppend("", a[1..], b); } else { SplitAppend(cur + [a[0]], a[1..], b); }
    }
  }

  lemma {:induction false} SplitUnbroken(cur: string, s: string)
    requires '\n' !in s
    ensures SplitFrom(cur, s) == [cur + s]
    decreases |s|
  {
    if s == "" {
      assert cur + s == cur;
    } else {
      SplitUnbroken(cur + [s[0]], s[1..]);
      assert cur + [s[0]] + s[1..] == cur + s;
    }
  }

  lemma {:induction false} Associates(a: string, b: string, c: string)
    ensures a + (b + c) == (a + b) + c
  {
  }

  lemma {:induction false} StepAppend(a: string, b: string)
    requires a != "" && b != "" && b[0] != '\n'
    ensures Step(a + b) == Step(a) && (a + b)[Step(a)..] == a[Step(a)..] + b
  {
  }

  lemma {:induction false} NewlinesAppend(a: string, b: string)
    requires b != "" && b[0] != '\n'
    ensures Newlines(a + b) == Newlines(a) + Newlines(b)
  {
    if a == "" {
      assert a + b == b;
    } else {
      var rest := a[Step(a)..];
      StepAppend(a, b);
      NewlinesAppend(rest, b);
      assert (a + b)[0] == a[0];
      Associates([NoReturn(a[0])], Newlines(rest), Newlines(b));
    }
  }

  lemma {:induction false} PhysicalAppend(a: string, b: string)
    ensures PhysicalLines(a + CRLF + b) == PhysicalLines(a) + PhysicalLines(b)
  {
    var t := CRLF + b;
    NewlinesAppend(a, t);
    assert t[2..] == b && Newlines(t) == "\n" + Newlines(b);
    assert a + CRLF + b == a + t;
    assert Newlines(a) + ("\n" + Newlines(b)) == Newlines(a) + "\n" + Newlines(b);
    SplitAppend("", Newlines(a), Newlines(b));
  }

  /** Each of the three line ends divides a document there, unless it makes up another one with its neighbour. */
  lemma {:induction false} BreaksDivide(a: string, eol: string, b: string)
    requires eol == CRLF || eol == "\n" || eol == "\r"
    requires eol == "\n" ==> a == "" || a[|a| - 1] != '\r'
    requires eol == "\r" ==> b == "" || b[0] != '\n'
    ensures PhysicalLines(a + eol + b) == PhysicalLines(a) + PhysicalLines(b)
  {
    hide Newlines, SplitFrom;
    assert (eol + b)[0] == eol[0];
    NewlinesDivide(a, eol + b);
    BreakIsNewline(eol, b);
    assert a + eol + b == a + (eol + b);
    Associates(Newlines(a), "\n", Newlines(b));
    SplitAppend("", Newlines(a), Newlines(b));
  }

  lemma {:induction false} BreakIsNewline(eol: string, b: string)
    requires eol == CRLF || eol == "\n" || eol == "\r"
    requires eol == "\r" ==> b == "" || b[0] != '\n'
    ensures Newlines(eol + b) == "\n" + Newlines(b)
  {
    var t := eol + b;
    if eol == CRLF {
      assert t[2..] == b;
    } else {
      assert t[1..] == b;
    }
  }

  lemma {:induction false} NewlinesDivide(a: string, b: string)
    requires a == "" || b == "" || a[|a| - 1] != '\r' || b[0] != '\n'
    ensures Newlines(a + b) == Newlines(a) + Newlines(b)
  {
    if a == "" {
      assert a + b == b;
    } else {
      var rest := a[Step(a)..];
      assert (a + b)[0] == a[0] && (|a| > 1 ==> (a + b)[1] == a[1]);
      assert Step(a + b) == Step(a) && (a + b)[Step(a)..] == rest + b;
      NewlinesDivide(rest, b);
      Associates([NoReturn(a[0])], Newlines(rest), Newlines(b));
    }
  }

  lemma {:induction false} NewlinesUnbroken(s: string)
    requires Unbroken(s)
    ensures Newlines(s) == s
  {
    if s != "" { NewlinesUnbroken(s[1..]); }
  }

  lemma {:induction false} PhysicalUnbroken(s: string)
    requires Unbroken(s)
    ensures PhysicalLines(s) == [s]
  {
    NewlinesUnbroken(s);
    SplitUnbroken("", s);
    assert "" + s == s;
  }

  function Continuations(ps: seq<string>): seq<string> {
    if ps == [] then [] else [" " + ps[0]] + Continuations(ps[1..])
  }

  /** The pieces with the leading space of every continuation. */
  function Spaced(ps: seq<string>): seq<string> {
    if ps == [] then [] else [ps[0]] + Continuations(ps[1..])
  }

  lemma {:induction false} ContinuationsAppend(ps: seq<string>, p: string)
    ensures Continuations(ps + [p]) == Continuations(ps) + [" " + p]
  {
    if ps == [] {
      assert [p][1..] == [];
    } else {
      ContinuationsAppend(ps[1..], p);
      assert (ps + [p])[1..] == ps[1..] + [p];
    }
  }

  lemma {:induction false} SpacedAppend(ps: seq<string>, p: string)
    requires ps != []
    ensures Spaced(ps + [p]) == Spaced(ps) + [" " + p]
  {
    ContinuationsAppend(ps[1..], p);
    assert (ps + [p])[1..] == ps[1..] + [p];
  }

  lemma {:induction false} PiecesArePhysical(ps: seq<string>)
    requires ps != [] && forall k :: 0 <= k < |ps| ==> Unbroken(ps[k])
    ensures PhysicalLines(Join(ps, CRLF + " ")) == Spaced(ps)
  {
    var front, last := ps[..|ps| - 1], ps[|ps| - 1];
    if front == [] {
      PhysicalUnbroken(last);
    } else {
      PiecesArePhysical(front);
      OneMore(Join(front, CRLF + " "), last);
      SpacedAppend(front, last);
      assert front + [last] == ps;
    }
  }

  lemma {:induction false} OneMore(start: string, last: string)
    requires Unbroken(last)
    ensures PhysicalLines(start + (CRLF + " ") + last) == PhysicalLines(start) + [" " + last]
  {
    PhysicalAppend(start, " " + last);
    assert start + CRLF + (" " + last) == start + (CRLF + " ") + last;
    PhysicalUnbroken(" " + last);
  }

  lemma {:induction false} PiecesAreUnbroken(ps: seq<string>)
    requires Unbroken(Flat(ps))
    ensures forall k :: 0 <= k < |ps| ==> Unbroken(ps[k])
  {
    if ps != [] {
      assert forall c :: c in ps[0] || c in Flat(ps[1..]) ==> c in Flat(ps);
      PiecesAreUnbroken(ps[1..]);
      assert forall k :: 0 < k < |ps| ==> ps[k] == ps[1..][k - 1];
    }
  }

  // ---- unfolding ----

  predicate Continues(l: string) {
    l != "" && (l[0] == ' ' || l[0] == '\t')
  }

  /** Glue every continuation to the line before it. */
  function Glue(out: seq<string>, ls: seq<string>): seq<string>
    decreases |ls|
  {
    if ls == [] then out
    else if out != [] && Continues(ls[0]) then Glue(out[|out| - 1 := out[|out| - 1] + ls[0][1..]], ls[1..])
    else Glue(out + [ls[0]], ls[1..])
  }

  /** The reader's unfolding, as the loop it is. */
  method UnfoldDocument(raw: string) returns (out: seq<string>)
    ensures out == Glue([], PhysicalLines(raw))
  {
    var lines := PhysicalLines(raw);
    out := [];
    for i := 0 to |lines|
      invariant Glue(out, lines[i..]) == Glue([], lines)
    {
      assert lines[i..][1..] == lines[i + 1..];
      if out != [] && Continues(lines[i]) {
        out := out[|out| - 1 := out[|out| - 1] + lines[i][1..]];
      } else {
        out := out + [lines[i]];
      }
    }
  }

  /** A line continued with a space or a tab is read as one line. */
  lemma {:induction false} ContinuationJoined(out: seq<string>, a: string, c: char, b: string, rest: seq<string>)
    requires a != "" && (c == ' ' || c == '\t')
    ensures Glue(out, [a] + ([[c] + b] + rest)) == Glue(out, [a + b] + rest)
  {
    hide Glue;
    var cont := [c] + b;
    assert cont[1..] == b && Continues(cont);
    assert (a + b)[0] == a[0] && (a + b)[1..] == a[1..] + b;
    GlueOne(out, a, [cont] + rest);
    GlueOne(out, a + b, rest);
    var next := if out != [] && Continues(a) then out[|out| - 1 := out[|out| - 1] + a[1..]] else out + [a];
    GlueOne(next, cont, rest);
    if out != [] && Continues(a) {
      var n := |out| - 1;
      Associates(out[n], a[1..], b);
      assert next[n := next[n] + b] == out[n := out[n] + (a + b)[1..]];
    } else {
      assert next[|out| := next[|out|] + b] == out + [a + b];
    }
  }

  lemma {:induction false} GlueOne(out: seq<string>, l: string, rest: seq<string>)
    ensures Glue(out, [l] + rest)
            == Glue(if out != [] && Continues(l) then out[|out| - 1 := out[|out| - 1] + l[1..]] else out + [l], rest)
  {
    var ls := [l] + rest;
    assert ls[0] == l && ls[1..] == rest;
  }

  lemma {:induction false} GlueAppend(out: seq<string>, a: seq<string>, b: seq<string>)
    ensures Glue(out, a + b) == Glue(Glue(out, a), b)
    decreases |a|
  {
    if a == [] {
      assert a + b == b;
    } else {
      assert (a + b)[1..] == a[1..] + b;
      GlueAppend(if out != [] && Continues(a[0]) then out[|out| - 1 := out[|out| - 1] + a[0][1..]] else out + [a[0]], a[1..], b);
    }
  }

  /** Continuations of a line already begun run into it. */
  lemma {:induction false} GlueContinuations(out: seq<string>, ps: seq<string>)
    requires out != []
    ensures Glue(out, Continuations(ps)) == out[|out| - 1 := out[|out| - 1] + Flat(ps)]
    decreases |ps|
  {
    var n := |out| - 1;
    if ps == [] {
      assert out[n] + Flat(ps) == out[n];
    } else {
      var ls := Continuations(ps);
      GlueContinuations(out[n := out[n] + ps[0]], ps[1..]);
      assert ls[0][1..] == ps[0] && ls[1..] == Continuations(ps[1..]);
      assert out[n] + ps[0] + Flat(ps[1..]) == out[n] + Flat(ps);
    }
  }

  lemma {:induction false} GlueLine(out: seq<string>, ps: seq<string>)
    requires ps != [] && (out == [] || !Continues(ps[0]))
    ensures Glue(out, Spaced(ps)) == out + [Flat(ps)]
  {
    assert Spaced(ps)[1..] == Continuations(ps[1..]);
    GlueContinuations(out + [ps[0]], ps[1..]);
  }

  // ---- a document of folded lines ----

  predicate Plain(l: string) {
    Unbroken(l) && !Continues(l)
  }

  /** Every line folded, in order. */
  ghost predicate AllFolded(lines: seq<string>, folded: seq<string>) {
    |folded| == |lines| && forall k :: 0 <= k < |lines| ==> Plain(lines[k]) && FoldsTo(lines[k], folded[k])
  }

  predicate WithinLimit(physical: seq<string>) {
    forall k :: 0 <= k < |physical| ==> Octets(physical[k]) <= 75
  }

  lemma {:induction false} ContinuationsFit(ps: seq<string>)
    requires forall k :: 0 <= k < |ps| ==> Octets(ps[k]) <= 74
    ensures WithinLimit(Continuations(ps))
  {
    if ps != [] {
      OctetsOfSpaced(ps[0]);
      ContinuationsFit(ps[1..]);
    }
  }

  lemma {:induction false} OctetsOfSpaced(s: string)
    ensures Octets(" " + s) == 1 + Octets(s)
  {
    if s != "" {
      OctetsOfSpaced(s[..|s| - 1]);
      assert (" " + s)[..|s|] == " " + s[..|s| - 1];
    } else {
      assert " " + s == " " && " "[..0] == "";
    }
  }

  /** The pieces of a line that folds. */
  ghost function PiecesOf(line: string): seq<string> {
    if exists ps :: Cut(ps, line) then var ps :| Cut(ps, line); ps else []
  }

  /** The physical lines of folded lines, one after the other. */
  ghost function Wire(lines: seq<string>): seq<string> {
    if lines == [] then [] else Wire(lines[..|lines| - 1]) + Spaced(PiecesOf(lines[|lines| - 1]))
  }

  lemma {:induction false} OneLine(line: string, folded: string)
    requires Unbroken(line) && FoldsTo(line, folded)
    ensures Cut(PiecesOf(line), line) && (Continues(line) || Starts(PiecesOf(line), line))
    ensures PhysicalLines(folded) == Spaced(PiecesOf(line))
  {
    hide Greedy, Join, Spaced, PhysicalLines;
    var ps :| Cut(ps, line) && folded == Join(ps, CRLF + " ");
    CutIsUnique(ps, PiecesOf(line), line);
    PiecesAreUnbroken(ps);
    PiecesArePhysical(ps);
    assert ps[0] != "" ==> line[0] == ps[0][0];
  }

  /** Folding is lossless and bounded, whatever character the line starts with. */
  lemma {:induction false} FoldIsLossless(line: string, folded: string)
    requires Unbroken(line) && FoldsTo(line, folded)
    ensures WithinLimit(PhysicalLines(folded)) && Glue([], PhysicalLines(folded)) == [line]
  {
    OneLine(line, folded);
    PiecesFit(PiecesOf(line), line);
    GlueLine([], PiecesOf(line));
  }

  lemma {:induction false} WireIsPhysical(lines: seq<string>, folded: seq<string>)
    requires lines != [] && AllFolded(lines, folded)
    ensures PhysicalLines(Join(folded, CRLF)) == Wire(lines)
  {
    var n := |lines| - 1;
    OneLine(lines[n], folded[n]);
    if n > 0 {
      WireIsPhysical(lines[..n], folded[..n]);
      PhysicalAppend(Join(folded[..n], CRLF), folded[n]);
    }
  }

  lemma {:induction false} PiecesFit(ps: seq<string>, line: string)
    requires Cut(ps, line)
    ensures WithinLimit(Spaced(ps))
  {
    assert forall k :: 0 <= k < |ps[1..]| ==> ps[1..][k] == ps[k + 1];
    ContinuationsFit(ps[1..]);
  }

  lemma {:induction false} WireFits(lines: seq<string>)
    requires forall k :: 0 <= k < |lines| ==> Cut(PiecesOf(lines[k]), lines[k])
    ensures WithinLimit(Wire(lines))
  {
    if lines != [] {
      var n := |lines| - 1;
      WireFits(lines[..n]);
      PiecesFit(PiecesOf(lines[n]), lines[n]);
    }
  }

  ghost predicate Starts(ps: seq<string>, line: string) {
    ps != [] && Flat(ps) == line && !Continues(ps[0])
  }

  lemma {:induction false} WireGlues(lines: seq<string>)
    requires forall k :: 0 <= k < |lines| ==> Starts(PiecesOf(lines[k]), lines[k])
    ensures Glue([], Wire(lines)) == lines
  {
    if lines != [] {
      var front, line := lines[..|lines| - 1], lines[|lines| - 1];
      var ps := PiecesOf(line);
      WireGlues(front);
      GlueLine(front, ps);
      GlueAppend([], Wire(front), Spaced(ps));
    }
  }

  /**
   * Every physical line of a document of folded, terminated lines stays within 75 octets, and unfolding the
   * document gives back exactly its lines, then the empty rest after the last terminator.
   */
  lemma {:induction false} DocumentUnfolds(lines: seq<string>, folded: seq<string>)
    requires lines != [] && AllFolded(lines, folded)
    ensures var physical := PhysicalLines(Join(folded, CRLF) + CRLF);
            WithinLimit(physical) && Glue([], physical) == lines + [""]
  {
    hide SplitFrom, Newlines, Wire, Cut, Join, Starts;
    var text := Join(folded, CRLF);
    forall k | 0 <= k < |lines| ensures Cut(PiecesOf(lines[k]), lines[k]) && Starts(PiecesOf(lines[k]), lines[k]) {
      OneLine(lines[k], folded[k]);
    }
    WireIsPhysical(lines, folded);
    WireFits(lines);
    WireGlues(lines);
    GlueAppend([], Wire(lines), [""]);
    PhysicalAppend(text, "");
    PhysicalUnbroken("");
    assert text + CRLF + "" == text + CRLF;
    assert [""][1..] == [];
  }

  // ---- escaping ----

  function Substitute(x: char, c: char, r: string): string {
    if x == c then r else [x]
  }

  function ReplaceChar(s: string, c: char, r: string): string {
    if s == "" then "" else Substitute(s[0], c, r) + ReplaceChar(s[1..], c, r)
  }

  function ReplaceBreaks(s: string): string {
    if s == "" then ""
    else Substitute(NoReturn(s[0]), '\n', "\\n") + ReplaceBreaks(s[Step(s)..])
  }

  /** The writer's four passes. */
  function EscapeText(v: string): string {
    ReplaceChar(ReplaceChar(ReplaceBreaks(ReplaceChar(v, '\\', "\\\\")), ',', "\\,"), ';', "\\;")
  }

  function EscapeOne(c: char): string {
    if c == '\\' || c == ',' || c == ';' then ['\\', c] else if c == '\n' then "\\n" else [c]
  }

  /** One character-wise escape of the text with its line breaks normalised. */
  function EscapeEach(v: string): string {
    if v == "" then "" else EscapeOne(v[0]) + EscapeEach(v[1..])
  }

  /** The chained replacements never escape what an earlier one produced. */
  lemma {:induction false} EscapeIsCharacterwise(v: string)
    ensures EscapeText(v) == EscapeEach(Newlines(v))
  {
    if v != "" {
      var rest := v[Step(v)..];
      EscapeIsCharacterwise(rest);
      var b := if v[0] == '\r' || v[0] == '\n' then "\\n" else if v[0] == '\\' then "\\\\" else [v[0]];
      FirstPasses(v, b);
      LaterPasses(v, b);
      LastPasses(b);
      assert Newlines(v)[1..] == Newlines(rest);
    }
  }

  /** The first two passes make `b` of the first character (or CRLF pair). */
  lemma {:induction false} FirstPasses(v: string, b: string)
    requires v != "" && b == if v[0] == '\r' || v[0] == '\n' then "\\n" else if v[0] == '\\' then "\\\\" else [v[0]]
    ensures ReplaceBreaks(ReplaceChar(v, '\\', "\\\\")) == b + ReplaceBreaks(ReplaceChar(v[Step(v)..], '\\', "\\\\"))
  {
    var r1 := ReplaceChar(v[Step(v)..], '\\', "\\\\");
    var all := ReplaceChar(v, '\\', "\\\\");
    if Step(v) == 2 {
      assert v[1..][1..] == v[2..];
      assert all == "\r" + ("\n" + r1);
      assert all[2..] == r1;
    } else if v[0] == '\\' {
      assert all == "\\\\" + r1 && all[1..] == "\\" + r1 && all[1..][1..] == r1;
    } else {
      assert all == [v[0]] + r1;
      assert |v| > 1 && v[1] != '\n' ==> r1[0] != '\n';
      assert Step(all) == 1 && all[1..] == r1;
    }
  }

  lemma {:induction false} ReplaceAppend(a: string, b: string, c: char, r: string)
    ensures ReplaceChar(a + b, c, r) == ReplaceChar(a, c, r) + ReplaceChar(b, c, r)
  {
    if a == "" {
      assert a + b == b;
    } else {
      ReplaceAppend(a[1..], b, c, r);
      assert (a + b)[1..] == a[1..] + b && (a + b)[0] == a[0];
      Associates(Substitute(a[0], c, r), ReplaceChar(a[1..], c, r), ReplaceChar(b, c, r));
    }
  }

  lemma {:induction false} LaterPasses(v: string, b: string)
    requires v != ""
    requires ReplaceBreaks(ReplaceChar(v, '\\', "\\\\")) == b + ReplaceBreaks(ReplaceChar(v[Step(v)..], '\\', "\\\\"))
    ensures EscapeText(v) == ReplaceChar(ReplaceChar(b, ',', "\\,"), ';', "\\;") + EscapeText(v[Step(v)..])
  {
    var r2 := ReplaceBreaks(ReplaceChar(v[Step(v)..], '\\', "\\\\"));
    ReplaceAppend(b, r2, ',', "\\,");
    ReplaceAppend(ReplaceChar(b, ',', "\\,"), ReplaceChar(r2, ',', "\\,"), ';', "\\;");
  }

  /** The last two passes touch neither an escaped backslash nor an escaped line break. */
  lemma {:induction false} LastPasses(b: string)
    requires 1 <= |b| <= 2 && (|b| == 2 ==> b[0] == '\\' && (b[1] == '\\' || b[1] == 'n'))
    ensures ReplaceChar(ReplaceChar(b, ',', "\\,"), ';', "\\;") == if b == "," then "\\," else if b == ";" then "\\;" else b
  {
    var c := ReplaceChar(b, ',', "\\,");
    assert b[1..] == if |b| == 1 then "" else [b[1]];
    if |b| == 2 {
      assert b[1..][1..] == "" && ReplaceChar(b[1..], ',', "\\,") == b[1..];
      assert c == b;
      assert ReplaceChar(b[1..], ';', "\\;") == b[1..];
    } else if b == "," {
      assert c == "\\," && c[1..] == "," && c[1..][1..] == "";
      assert ReplaceChar(c[1..], ';', "\\;") == ",";
    } else {
      assert b == [b[0]] && c == b;
    }
  }

  lemma {:induction false} EscapedIsUnbroken(v: string)
    ensures Unbroken(EscapeText(v))
  {
    EscapeIsCharacterwise(v);
    NewlinesHasNoReturn(v);
    EscapeEachUnbroken(Newlines(v));
  }

  lemma {:induction false} NewlinesHasNoReturn(v: string)
    ensures '\r' !in Newlines(v)
  {
    if v != "" { NewlinesHasNoReturn(v[Step(v)..]); }
  }

  lemma {:induction false} EscapeEachUnbroken(v: string)
    requires '\r' !in v
    ensures Unbroken(EscapeEach(v))
  {
    if v != "" {
      EscapeEachUnbroken(v[1..]);
      assert Unbroken(EscapeOne(v[0]));
    }
  }

  /** The reader's decoder (section 3.3.11 of RFC 5545); a lone final backslash stands for itself. */
  function Unescape(s: string): string {
    if s == "" then ""
    else if s[0] == '\\' && |s| > 1 then
      [if s[1] == 'n' || s[1] == 'N' then '\n' else s[1]] + Unescape(s[2..])
    else [s[0]] + Unescape(s[1..])
  }

  /** Backslash, semicolon and comma get a backslash in front, a line feed becomes one and an `n`, and any other character but a return stays. */
  lemma {:induction false} EscapeForms(c: char)
    requires c != '\r'
    ensures EscapeText([c]) == if c == '\\' || c == ';' || c == ',' then ['\\', c] else if c == '\n' then "\\n" else [c]
  {
    EscapeIsCharacterwise([c]);
    assert [c][1..] == "";
    assert Newlines([c]) == [NoReturn(c)] + Newlines("") == [c];
    assert EscapeEach([c]) == EscapeOne(c) + EscapeEach("") == EscapeOne(c);
  }

  /** A backslash stands for a line feed before an `n` of either case, and else for the character after it; alone at the end it stays. */
  lemma {:induction false} UnescapeForms(c: char, rest: string)
    ensures Unescape(['\\', c] + rest) == [if c == 'n' || c == 'N' then '\n' else c] + Unescape(rest)
    ensures c != '\\' ==> Unescape([c] + rest) == [c] + Unescape(rest)
    ensures Unescape("\\") == "\\" && Unescape("") == ""
  {
    assert (['\\', c] + rest)[2..] == rest && ([c] + rest)[1..] == rest;
    assert "\\"[1..] == "";
  }

  /** Decoding what was escaped gives the text back, line breaks normalised. */
  lemma {:induction false} UnescapeEscaped(v: string)
    ensures Unescape(EscapeText(v)) == Newlines(v)
  {
    EscapeIsCharacterwise(v);
    UnescapeEach(Newlines(v));
  }

  lemma {:induction false} UnescapeEach(v: string)
    ensures Unescape(EscapeEach(v)) == v
  {
    if v != "" {
      var e := EscapeOne(v[0]);
      var s := e + EscapeEach(v[1..]);
      UnescapeEach(v[1..]);
      assert s[|e|..] == EscapeEach(v[1..]);
      assert v == [v[0]] + v[1..];
    }
  }
}
