/**
 * Mail rules: matching, precedence and resolution (rules/match.ts), and the two SQL predicates that
 * are meant to accept the same mail (rules/apply.ts, cleanup/safety.ts).
 */
module Rules {
  import opened Wrappers
  import opened Text

  datatype Kind = Sender | Domain

  datatype Rule = Rule(
    id: nat,
    account: Option<string>,
    kind: Kind,
    value: string,
    move: Option<string>,
    markRead: bool,
    star: bool,
    protect: bool,
    enabled: bool,
    createdAt: int)

  /** How text is put into lower case. */
  type Fold = string -> string

  /**
   * What is used of a lower-casing that knows all letters: capitals that only differ in ASCII letters make
   * no difference, ASCII text is folded as ASCII also at the end of other text, no '@' comes or goes, and folded text stays.
   */
  ghost predicate FoldsAllLetters(fold: Fold) {
    && (forall s :: fold(Lower(s)) == fold(s))
    && (forall s :: Ascii(s) ==> fold(s) == Lower(s))
    && (forall s, t :: EndsWith(s, t) && Ascii(t) ==> EndsWith(fold(s), Lower(t)))
    && (forall s :: '@' in fold(s) <==> '@' in s)
    && (forall s, i :: 0 <= i <= |fold(s)| ==> fold(fold(s)[i..]) == fold(s)[i..])
  }

  /** A domain value as the rule store validates it. */
  predicate DomainChar(c: char) {
    'a' <= c <= 'z' || '0' <= c <= '9' || c == '.' || c == '-'
  }

  /** A sender value is trimmed lower-case text around one '@', without white space. */
  predicate SenderValue(v: string, fold: Fold) {
    fold(v) == v && '@' in v && forall k :: 0 <= k < |v| ==> !IsSpace(v[k])
  }

  predicate Canonical(r: Rule, fold: Fold) {
    match r.kind
    case Sender => SenderValue(r.value, fold)
    case Domain => r.value != "" && forall k :: 0 <= k < |r.value| ==> DomainChar(r.value[k])
  }

  // ---- matching ----

  function DomainOf(address: string, fold: Fold): Option<string> {
    var at := LastIndexOf(address, '@');
    if at < 0 || at == |address| - 1 then None else Some(fold(address[at + 1..]))
  }

  /** The matcher, which folds every letter. */
  predicate RuleMatches(r: Rule, from: Option<string>, fold: Fold) {
    from.Some? && from.value != "" &&
    (var address := fold(Trim(from.value));
     match r.kind
     case Sender => address == r.value
     case Domain =>
       var domain := DomainOf(address, fold);
       domain.Some? && (domain.value == r.value || EndsWith(domain.value, "." + r.value)))
  }

  /** SQLite's LIKE: `%` any text, `_` any character, letters without case. */
  predicate Like(p: string, t: string)
    decreases |p| + |t|
  {
    if p == "" then t == ""
    else if p[0] == '%' then Like(p[1..], t) || (t != "" && Like(p, t[1..]))
    else t != "" && (p[0] == '_' || LowerChar(p[0]) == LowerChar(t[0])) && Like(p[1..], t[1..])
  }

  /** The predicate over stored mail: no trimming, `lower` on ASCII letters only, the value spliced into a pattern. A NULL address matches nothing. */
  predicate MatchSql(r: Rule, from: Option<string>) {
    from.Some? &&
    (var address := Lower(from.value);
     match r.kind
     case Sender => address == r.value
     case Domain => Like("%@" + r.value, address) || Like("%." + r.value, address))
  }

  /** An enabled protect rule of the account, or of every account. */
  predicate Guards(r: Rule, account: string) {
    r.protect && r.enabled && (r.account.None? || r.account == Some(account))
  }

  /** Mail such a rule covers. */
  predicate ProtectedSql(rules: seq<Rule>, account: string, from: Option<string>) {
    exists k :: 0 <= k < |rules| && Guards(rules[k], account) && MatchSql(rules[k], from)
  }

  predicate Plain(s: string) {
    forall k :: 0 <= k < |s| ==> s[k] != '%' && s[k] != '_' && LowerChar(s[k]) == s[k]
  }

  predicate LowerCase(s: string) {
    forall k :: 0 <= k < |s| ==> LowerChar(s[k]) == s[k]
  }

  lemma {:induction false} LikeLiteral(p: string, t: string)
    requires Plain(p) && LowerCase(t)
    ensures Like(p, t) <==> p == t
    decreases |p|
  {
    if p != "" && t != "" {
      LikeLiteral(p[1..], t[1..]);
      assert p == [p[0]] + p[1..] && t == [t[0]] + t[1..];
    }
  }

  /** With no wildcard in the value, the pattern `%value` is a suffix test. */
  lemma {:induction false} LikeSuffix(p: string, t: string)
    requires Plain(p) && LowerCase(t)
    ensures Like("%" + p, t) <==> EndsWith(t, p)
    decreases |t|
  {
    assert ("%" + p)[1..] == p;
    LikeLiteral(p, t);
    if t != "" {
      LikeSuffix(p, t[1..]);
      if EndsWith(t, p) && |p| < |t| {
        assert t[1..][|t[1..]| - |p|..] == t[|t| - |p|..];
      }
      if EndsWith(t[1..], p) {
        assert t[1..][|t[1..]| - |p|..] == t[|t| - |p|..];
      }
    }
    if EndsWith(t, p) && |p| == |t| { assert t[0..] == t; }
  }

  lemma {:induction false} LowerTwice(s: string)
    ensures LowerCase(Lower(s)) && Lower(Lower(s)) == Lower(s)
  {
    assert Lower(Lower(s)) == Lower(s);
  }

  lemma {:induction false} DomainValuePlain(v: string, c: char)
    requires (forall k :: 0 <= k < |v| ==> DomainChar(v[k])) && (c == '@' || c == '.')
    ensures Plain([c] + v)
  {
  }

  /** A suffix sits at the end, character by character. */
  lemma {:induction false} SuffixChars(s: string, t: string)
    ensures EndsWith(s, t) <==> |t| <= |s| && forall k :: 0 <= k < |t| ==> s[|s| - |t| + k] == t[k]
  {
    if |t| <= |s| && forall k :: 0 <= k < |t| ==> s[|s| - |t| + k] == t[k] {
      assert s[|s| - |t|..] == t;
    }
  }

  /** A suffix of the whole that stays behind the cut is a suffix of the rest, and the other way round. */
  lemma {:induction false} SuffixOfRest(s: string, cut: nat, t: string)
    requires cut <= |s|
    ensures EndsWith(s[cut..], t) <==> EndsWith(s, t) && |t| <= |s| - cut
  {
    SuffixChars(s, t);
    SuffixChars(s[cut..], t);
    if EndsWith(s[cut..], t) {
      forall k | 0 <= k < |t| ensures s[|s| - |t| + k] == t[k] {
        assert s[cut..][|s| - cut - |t| + k] == t[k];
      }
    }
  }

  lemma {:induction false} AtSuffix(address: string, v: string)
    requires '@' in address && v != "" && '@' !in v
    ensures var at := LastIndexOf(address, '@'); address[at + 1..] == v <==> EndsWith(address, "@" + v)
  {
    var at := LastIndexOf(address, '@');
    SuffixChars(address, "@" + v);
    if EndsWith(address, "@" + v) {
      var p := |address| - |v| - 1;
      assert address[p] == ("@" + v)[0] == '@';
      forall k | p < k < |address| ensures address[k] == v[k - p - 1] && address[k] != '@' {
        assert address[p + (k - p)] == ("@" + v)[k - p];
      }
      assert at == p;
    }
  }

  lemma {:induction false} DotSuffix(address: string, v: string)
    requires '@' in address && '@' !in v
    ensures var at := LastIndexOf(address, '@'); EndsWith(address[at + 1..], "." + v) <==> EndsWith(address, "." + v)
  {
    var at := LastIndexOf(address, '@');
    SuffixOfRest(address, at + 1, "." + v);
    SuffixChars(address, "." + v);
    if EndsWith(address, "." + v) {
      var p := |address| - |v| - 1;
      forall k | p <= k < |address| ensures address[k] != '@' {
        assert address[p + (k - p)] == ("." + v)[k - p];
      }
    }
  }

  /** On an address with an '@', the domain test on the part after the last '@' is a suffix test on the whole. */
  lemma {:induction false} DomainIsSuffix(address: string, v: string, fold: Fold)
    requires '@' in address && v != "" && '@' !in v
    requires forall i :: 0 <= i <= |address| ==> fold(address[i..]) == address[i..]
    ensures var d := DomainOf(address, fold);
            (d.Some? && (d.value == v || EndsWith(d.value, "." + v))) <==> EndsWith(address, "@" + v) || EndsWith(address, "." + v)
  {
    AtSuffix(address, v);
    DotSuffix(address, v);
  }

  lemma {:induction false} TrimKeeps(s: string, c: char)
    requires !IsSpace(c)
    ensures c in s <==> c in Trim(s)
  {
    StartKeeps(s, c);
    EndKeeps(TrimStart(s), c);
  }

  lemma {:induction false} InFirstOrRest(s: string, c: char)
    requires s != ""
    ensures c in s <==> c == s[0] || c in s[1..]
  {
    assert s == [s[0]] + s[1..];
  }

  lemma {:induction false} StartKeeps(s: string, c: char)
    requires !IsSpace(c)
    ensures c in s <==> c in TrimStart(s)
  {
    hide IsSpace;
    if s != "" && IsSpace(s[0]) {
      assert c != s[0];
      StartKeeps(s[1..], c);
      InFirstOrRest(s, c);
    }
  }

  lemma {:induction false} EndKeeps(s: string, c: char)
    requires !IsSpace(c)
    ensures c in s <==> c in TrimEnd(s)
  {
    if s != "" && IsSpace(s[|s| - 1]) {
      EndKeeps(s[..|s| - 1], c);
      assert s == s[..|s| - 1] + [s[|s| - 1]];
    }
  }

  predicate NoSpaces(s: string) {
    forall k :: 0 <= k < |s| ==> !IsSpace(s[k])
  }

  predicate EndsInSpace(s: string) {
    s != "" && IsSpace(s[|s| - 1])
  }

  lemma {:induction false} LastChar(s: string, t: string)
    requires t != ""
    ensures EndsWith(s, t) ==> s != "" && s[|s| - 1] == t[|t| - 1]
  {
    SuffixChars(s, t);
    if EndsWith(s, t) {
      assert s[|s| - |t| + (|t| - 1)] == t[|t| - 1];
    }
  }

  /** Text without white space sits at the end of a text exactly if nothing is trimmed there and it sits at the end of the trimmed text. */
  lemma {:induction false} SuffixOfTrimmed(s: string, t: string)
    requires t != "" && NoSpaces(t)
    ensures EndsWith(Lower(s), t) <==> !EndsInSpace(s) && EndsWith(Lower(Trim(s)), t)
  {
    SuffixChars(Lower(s), t);
    SuffixChars(Lower(Trim(s)), t);
    if EndsInSpace(s) {
      LastChar(Lower(s), t);
    } else {
      SuffixOfStart(s, t);
      assert TrimEnd(TrimStart(s)) == TrimStart(s);
    }
  }

  lemma {:induction false} SuffixOfStart(s: string, t: string)
    requires t != "" && NoSpaces(t)
    ensures EndsWith(Lower(s), t) <==> EndsWith(Lower(TrimStart(s)), t)
  {
    if s != "" && IsSpace(s[0]) {
      SuffixOfStart(s[1..], t);
      assert Lower(s)[1..] == Lower(s[1..]);
      SuffixOfRest(Lower(s), 1, t);
      assert LowerChar(s[0]) == s[0];
      assert |t| == |s| ==> Lower(s)[0] != t[0];
      assert |t| == |s| ==> Lower(s)[0..] == Lower(s);
    }
  }

  /** The last `n` characters are ASCII. */
  predicate AsciiEnd(s: string, n: nat) {
    n <= |s| && Ascii(s[|s| - n..])
  }

  lemma {:induction false} EndFolds(s: string, t: string, fold: Fold)
    requires FoldsAllLetters(fold) && EndsWith(s, t) && Ascii(t)
    ensures EndsWith(fold(s), Lower(t))
  {
  }

  lemma {:induction false} OtherLettersStay(s: string)
    ensures Ascii(Lower(s)) ==> Ascii(s)
  {
    if Ascii(Lower(s)) {
      forall k | 0 <= k < |s| ensures s[k] < '\U{80}' {
        assert Lower(s)[k] < '\U{80}';
      }
    }
  }

  /** ASCII text ends a text folded as ASCII exactly if it ends the text folded with all letters and stands there in ASCII. */
  lemma {:induction false} EndFoldsAlike(s: string, t: string, fold: Fold)
    requires FoldsAllLetters(fold) && Ascii(t)
    ensures EndsWith(Lower(s), t) <==> EndsWith(fold(s), t) && AsciiEnd(s, |t|)
  {
    hide FoldsAllLetters, Ascii;
    if |t| <= |s| {
      var end := s[|s| - |t|..];
      assert Lower(s)[|s| - |t|..] == Lower(end);
      OtherLettersStay(end);
      if Ascii(end) {
        EndFolds(s, end, fold);
      }
    }
  }

  /** The two predicates read the decisive part of the address alike: nothing to trim, no letter only one of them folds. */
  predicate ReadAlike(r: Rule, from: string, fold: Fold) {
    match r.kind
    case Sender => Lower(from) == fold(Trim(from))
    case Domain => !EndsInSpace(from) && AsciiEnd(Trim(from), |r.value| + 1)
  }

  /** A domain rule, and an address that has no '@' but ends in the dotted value. */
  predicate NoAddress(r: Rule, from: string) {
    r.kind.Domain? && '@' !in from && EndsWith(Lower(from), "." + r.value)
  }

  /** SQL accepts the addresses the matcher accepts and that both read alike, and those without '@' that end in a dotted domain. */
  lemma {:induction false} SqlAccepts(r: Rule, from: string, fold: Fold)
    requires FoldsAllLetters(fold) && Canonical(r, fold)
    ensures MatchSql(r, Some(from)) <==> (RuleMatches(r, Some(from), fold) && ReadAlike(r, from, fold)) || NoAddress(r, from)
    ensures NoAddress(r, from) ==> !RuleMatches(r, Some(from), fold)
  {
    if r.kind.Sender? {
      SqlAcceptsSender(r, from, fold);
    } else {
      SqlAcceptsDomain(r, from, fold);
    }
  }

  lemma {:induction false} SqlAcceptsSender(r: Rule, from: string, fold: Fold)
    requires FoldsAllLetters(fold) && Canonical(r, fold) && r.kind.Sender?
    ensures MatchSql(r, Some(from)) <==> RuleMatches(r, Some(from), fold) && ReadAlike(r, from, fold)
  {
    if Lower(from) == r.value {
      forall k | 0 <= k < |from| ensures !IsSpace(from[k]) {
        assert r.value[k] == LowerChar(from[k]);
      }
      TrimIdle(from);
      assert fold(Lower(from)) == fold(from);
    }
  }

  lemma {:induction false} SqlAcceptsDomain(r: Rule, from: string, fold: Fold)
    requires FoldsAllLetters(fold) && Canonical(r, fold) && r.kind.Domain?
    ensures MatchSql(r, Some(from)) <==> (RuleMatches(r, Some(from), fold) && ReadAlike(r, from, fold)) || NoAddress(r, from)
    ensures NoAddress(r, from) ==> !RuleMatches(r, Some(from), fold)
  {
    hide Trim, TrimStart, TrimEnd, EndsWith;
    var at, dot := "@" + r.value, "." + r.value;
    var t := Trim(from);
    assert forall k :: 0 <= k < |r.value| ==> DomainChar(r.value[k]) && r.value[k] != '@';
    assert Ascii(at) && Ascii(dot) && NoSpaces(at) && NoSpaces(dot);
    SqlIsSuffix(r, from);
    SuffixOfTrimmed(from, at);
    SuffixOfTrimmed(from, dot);
    EndFoldsAlike(t, at, fold);
    EndFoldsAlike(t, dot, fold);
    TrimKeeps(from, '@');
    assert '@' in fold(t) <==> '@' in t;
    if '@' in from {
      DomainIsSuffix(fold(t), r.value, fold);
    } else {
      SuffixOfTrimmed(from, at);
      NoSuffixAt(fold(t), r.value);
    }
  }

  lemma {:induction false} NoSuffixAt(address: string, v: string)
    requires '@' !in address
    ensures !EndsWith(address, "@" + v)
  {
    SuffixChars(address, "@" + v);
    assert ("@" + v)[0] == '@';
  }

  lemma {:induction false} SqlIsSuffix(r: Rule, from: string)
    requires r.kind.Domain? && forall k :: 0 <= k < |r.value| ==> DomainChar(r.value[k])
    ensures MatchSql(r, Some(from)) <==> EndsWith(Lower(from), "@" + r.value) || EndsWith(Lower(from), "." + r.value)
  {
    LowerTwice(from);
    DomainValuePlain(r.value, '@');
    DomainValuePlain(r.value, '.');
    assert "%@" + r.value == "%" + ("@" + r.value) && "%." + r.value == "%" + ("." + r.value);
    LikeSuffix("@" + r.value, Lower(from));
    LikeSuffix("." + r.value, Lower(from));
  }

  /**
   * The SQL predicate agrees with the matcher exactly unless the matcher takes an address the two read
   * differently - SQL then misses it - or the rule is for a domain and the address has no '@' but ends
   * in the dotted value - SQL then takes it alone.
   */
  lemma {:induction false} TwinExact(r: Rule, from: string, fold: Fold)
    requires FoldsAllLetters(fold) && Canonical(r, fold)
    ensures MatchSql(r, Some(from)) == RuleMatches(r, Some(from), fold) <==>
            (RuleMatches(r, Some(from), fold) ==> ReadAlike(r, from, fold)) && !NoAddress(r, from)
  {
    hide Trim, MatchSql, RuleMatches, NoAddress;
    SqlAccepts(r, from, fold);
  }

  /** A trimmed ASCII address is read alike by both. */
  lemma {:induction false} AsciiReadsAlike(r: Rule, from: string, fold: Fold)
    requires FoldsAllLetters(fold) && Canonical(r, fold) && Trimmed(from) && Ascii(from)
    ensures RuleMatches(r, Some(from), fold) ==> ReadAlike(r, from, fold)
  {
    hide FoldsAllLetters, Trim, TrimStart, TrimEnd, LastIndexOf;
    TrimIdle(from);
    AsciiFolds(from, fold);
    if r.kind.Domain? && RuleMatches(r, Some(from), fold) {
      DomainIsSuffix(Lower(from), r.value, fold);
    }
  }

  lemma {:induction false} AsciiFolds(s: string, fold: Fold)
    requires FoldsAllLetters(fold) && Ascii(s)
    ensures fold(s) == Lower(s) && forall i :: 0 <= i <= |s| ==> fold(Lower(s)[i..]) == Lower(s)[i..]
  {
  }

  /** Mail the matcher says such a rule covers. */
  predicate Covered(rules: seq<Rule>, account: string, from: string, fold: Fold) {
    exists k :: 0 <= k < |rules| && Guards(rules[k], account) && RuleMatches(rules[k], Some(from), fold)
  }

  /**
   * Cleanup protection of mail with an '@' in its sender address follows the matcher exactly if some
   * protecting rule reads the address alike, should any match it; for trimmed ASCII addresses it always does.
   */
  lemma {:induction false} ProtectionFollowsMatcher(rules: seq<Rule>, account: string, from: string, fold: Fold)
    requires FoldsAllLetters(fold) && '@' in from && forall k :: 0 <= k < |rules| ==> Canonical(rules[k], fold)
    ensures ProtectedSql(rules, account, Some(from)) == Covered(rules, account, from, fold) <==>
            (Covered(rules, account, from, fold) ==>
               exists k :: 0 <= k < |rules| && Guards(rules[k], account) && RuleMatches(rules[k], Some(from), fold) && ReadAlike(rules[k], from, fold))
    ensures Trimmed(from) && Ascii(from) ==> ProtectedSql(rules, account, Some(from)) == Covered(rules, account, from, fold)
  {
    hide Trim, MatchSql, RuleMatches, ReadAlike, Ascii, Trimmed;
    forall k | 0 <= k < |rules|
      ensures MatchSql(rules[k], Some(from)) <==> RuleMatches(rules[k], Some(from), fold) && ReadAlike(rules[k], from, fold)
      ensures Trimmed(from) && Ascii(from) && RuleMatches(rules[k], Some(from), fold) ==> ReadAlike(rules[k], from, fold)
    {
      SqlAccepts(rules[k], from, fold);
      if Trimmed(from) && Ascii(from) {
        AsciiReadsAlike(rules[k], from, fold);
      }
    }
  }

  /** A sender rule matches its own address and no other, as folded and trimmed. */
  lemma {:induction false} SenderExactly(r: Rule, from: string, fold: Fold)
    requires r.kind.Sender? && r.value != "" && FoldsAllLetters(fold)
    ensures RuleMatches(r, Some(from), fold) <==> fold(Trim(from)) == r.value
    ensures !RuleMatches(r, None, fold)
  {
    if from == "" {
      assert Ascii("") && fold("") == Lower("");
    }
  }

  /** A domain rule matches exactly the addresses at the domain and at its subdomains, to any depth. */
  lemma {:induction false} DomainExactly(r: Rule, local: string, host: string, fold: Fold)
    requires r.kind.Domain? && Canonical(r, fold) && '@' !in host && host != "" && Trimmed(local + "@" + host)
    requires fold(local + "@" + host) == local + "@" + host && fold(host) == host
    ensures RuleMatches(r, Some(local + "@" + host), fold) <==> host == r.value || exists sub :: host == sub + "." + r.value
  {
    hide Trim, TrimStart, TrimEnd, LastIndexOf, EndsWith, FoldsAllLetters;
    var address := local + "@" + host;
    TrimIdle(address);
    LastAt(local, host);
    assert |address| == |local| + 1 + |host|;
    assert DomainOf(address, fold) == Some(host);
    EndsWithDot(host, r.value);
  }

  lemma {:induction false} EndsWithDot(host: string, v: string)
    ensures EndsWith(host, "." + v) <==> exists sub :: host == sub + "." + v
  {
    if sub :| host == sub + "." + v {
      assert host[|host| - (|v| + 1)..] == "." + v;
    }
    if EndsWith(host, "." + v) {
      var sub := host[..|host| - (|v| + 1)];
      assert host == sub + ("." + v) == sub + "." + v;
    }
  }

  lemma {:induction false} LastAt(local: string, host: string)
    requires '@' !in host
    ensures LastIndexOf(local + "@" + host, '@') == |local| && (local + "@" + host)[|local| + 1..] == host
  {
    var a := local + "@" + host;
    assert a[|local|] == '@';
    assert forall k :: |local| < k < |a| ==> a[k] == host[k - |local| - 1] && a[k] != '@';
  }

  /** Only an enabled protect rule of the account or of every account protects; any other may as well not be there. */
  lemma {:induction false} OthersDoNotProtect(rules: seq<Rule>, k: nat, account: string, from: Option<string>)
    requires k < |rules|
    requires !rules[k].protect || !rules[k].enabled || (rules[k].account.Some? && rules[k].account.value != account)
    ensures ProtectedSql(rules, account, from) <==> ProtectedSql(rules[..k] + rules[k + 1..], account, from)
  {
    hide MatchSql;
    var others := rules[..k] + rules[k + 1..];
    forall j | 0 <= j < |rules| && j != k ensures rules[j] == others[if j < k then j else j - 1] {
    }
    forall j | 0 <= j < |others| ensures others[j] == rules[if j < k then j else j + 1] {
    }
    if j :| 0 <= j < |rules| && Guards(rules[j], account) && MatchSql(rules[j], from) {
      assert Guards(others[if j < k then j else j - 1], account);
    }
    if j :| 0 <= j < |others| && Guards(others[j], account) && MatchSql(others[j], from) {
      assert Guards(rules[if j < k then j else j + 1], account);
    }
  }

  /** And one that is, and whose predicate takes the address, does. */
  lemma {:induction false} GuardProtects(rules: seq<Rule>, k: nat, account: string, from: Option<string>)
    requires k < |rules| && rules[k].protect && rules[k].enabled && (rules[k].account.None? || rules[k].account == Some(account))
    ensures MatchSql(rules[k], from) ==> ProtectedSql(rules, account, from)
  {
  }

  // ---- a lower-casing beyond ASCII ----

  /** ASCII letters, the accented capitals of Latin-1, and the Kelvin sign. */
  function LatinChar(c: char): char {
    if '\U{C0}' <= c <= '\U{DE}' && c != '\U{D7}' then (c as int + 32) as char
    else if c == '\U{212A}' then 'k'
    else LowerChar(c)
  }

  function Latin(s: string): (r: string)
    ensures |r| == |s| && forall k :: 0 <= k < |s| ==> r[k] == LatinChar(s[k])
  {
    seq(|s|, k requires 0 <= k < |s| => LatinChar(s[k]))
  }

  lemma {:induction false} LatinFoldsAllLetters()
    ensures FoldsAllLetters(Latin)
  {
    assert forall c :: LatinChar(LowerChar(c)) == LatinChar(c) && LatinChar(LatinChar(c)) == LatinChar(c);
    forall s ensures Latin(Lower(s)) == Latin(s) && ('@' in Latin(s) <==> '@' in s) && (Ascii(s) ==> Latin(s) == Lower(s)) {
      forall k | 0 <= k < |s| ensures s[k] == '@' <==> Latin(s)[k] == '@' {
      }
    }
    forall s, t | EndsWith(s, t) && Ascii(t) ensures EndsWith(Latin(s), Lower(t)) {
      assert Latin(s)[|s| - |t|..] == Latin(s[|s| - |t|..]) == Lower(t);
    }
  }

  function RuleFor(kind: Kind, value: string): Rule {
    Rule(0, None, kind, value, None, false, false, true, true, 0)
  }

  /**
   * Protected for the matcher, not for SQL: a sender rule whose value begins with an e acute, as in
   * \U{E9}@x.org, and the same address with the capital.
   */
  lemma {:induction false} AccentedSenderIsMissed(rest: string)
    requires NoSpaces(rest) && '@' in rest && Latin(rest) == rest
    ensures var rule, mail := RuleFor(Sender, ['\U{E9}'] + rest), ['\U{C9}'] + rest;
            Canonical(rule, Latin) && RuleMatches(rule, Some(mail), Latin) && !MatchSql(rule, Some(mail))
  {
    hide Trim;
    var value, mail := ['\U{E9}'] + rest, ['\U{C9}'] + rest;
    assert LatinChar('\U{C9}') == LatinChar('\U{E9}') == '\U{E9}' && LowerChar('\U{C9}') == '\U{C9}';
    assert forall k :: 0 < k < |value| ==> value[k] == mail[k] == rest[k - 1] && LatinChar(rest[k - 1]) == Latin(rest)[k - 1];
    assert Latin(mail) == value && Latin(value) == value;
    TrimIdle(mail);
    assert Lower(mail)[0] != value[0];
  }

  /** And a domain rule with a k in its value, as in bank.com, and an address in that domain spelled with the Kelvin sign. */
  lemma {:induction false} KelvinDomainIsMissed(local: string, pre: string, post: string)
    requires local != "" && NoSpaces(local) && Latin(local) == local
    requires forall k :: 0 <= k < |pre| ==> DomainChar(pre[k])
    requires forall k :: 0 <= k < |post| ==> DomainChar(post[k])
    ensures var rule, mail := RuleFor(Domain, pre + "k" + post), local + "@" + pre + "\U{212A}" + post;
            Canonical(rule, Latin) && RuleMatches(rule, Some(mail), Latin) && !MatchSql(rule, Some(mail))
  {
    hide Trim, MatchSql, FoldsAllLetters, ReadAlike, DomainOf, Latin, NoAddress;
    var rule, mail := RuleFor(Domain, pre + "k" + post), local + "@" + pre + "\U{212A}" + post;
    LatinFoldsAllLetters();
    KelvinFolds(local, pre, post);
    TrimIdle(mail);
    AddressMatches(local, rule.value, Latin);
    SqlAcceptsDomain(rule, mail, Latin);
    KelvinReadApart(local, pre, post);
  }

  lemma {:induction false} KelvinReadApart(local: string, pre: string, post: string)
    requires Trimmed(local + "@" + pre + "\U{212A}" + post)
    ensures var rule, mail := RuleFor(Domain, pre + "k" + post), local + "@" + pre + "\U{212A}" + post;
            !ReadAlike(rule, mail, Latin) && !NoAddress(rule, mail)
  {
    hide Trim;
    var mail := local + "@" + pre + "\U{212A}" + post;
    var n := |pre + "k" + post| + 1;
    TrimIdle(mail);
    assert mail[|local|] == '@';
    assert mail[|mail| - n..][1 + |pre|] == '\U{212A}';
  }

  lemma {:induction false} AddressMatches(local: string, value: string, fold: Fold)
    requires value != "" && forall k :: 0 <= k < |value| ==> DomainChar(value[k])
    requires var a := local + ("@" + value); forall i :: 0 <= i <= |a| ==> fold(a[i..]) == a[i..]
    ensures var d := DomainOf(local + ("@" + value), fold); d.Some? && (d.value == value || EndsWith(d.value, "." + value))
  {
    var address := local + ("@" + value);
    assert address[|local|] == '@' && EndsWith(address, "@" + value);
    DomainIsSuffix(address, value, fold);
  }

  lemma {:induction false} LatinStays(s: string)
    requires Latin(s) == s
    ensures forall i :: 0 <= i <= |s| ==> Latin(s[i..]) == s[i..]
  {
    forall i | 0 <= i <= |s| ensures Latin(s[i..]) == s[i..] {
      forall k | 0 <= k < |s| - i ensures LatinChar(s[i..][k]) == s[i..][k] {
        assert LatinChar(s[i + k]) == Latin(s)[i + k];
      }
    }
  }

  lemma {:induction false} LatinJoin(a: string, b: string)
    ensures Latin(a + b) == Latin(a) + Latin(b)
  {
  }

  lemma {:induction false} DomainStays(s: string)
    requires forall k :: 0 <= k < |s| ==> DomainChar(s[k])
    ensures Latin(s) == s
  {
  }

  lemma {:induction false} KelvinFolds(local: string, pre: string, post: string)
    requires local != "" && NoSpaces(local) && Latin(local) == local
    requires forall k :: 0 <= k < |pre| ==> DomainChar(pre[k])
    requires forall k :: 0 <= k < |post| ==> DomainChar(post[k])
    ensures var mail := local + "@" + pre + "\U{212A}" + post;
            var address := local + ("@" + (pre + "k" + post));
            Trimmed(mail) && Latin(mail) == address && forall i :: 0 <= i <= |address| ==> Latin(address[i..]) == address[i..]
  {
    DomainStays(pre);
    DomainStays(post);
    LatinJoin(local + "@" + pre + "\U{212A}", post);
    LatinJoin(local + "@" + pre, "\U{212A}");
    LatinJoin(local + "@" + pre, "k");
    LatinJoin(local + "@" + pre + "k", post);
    LatinJoin(local + "@", pre);
    LatinJoin(local, "@");
    assert Latin("\U{212A}") == "k" == Latin("k") && Latin("@") == "@";
    var mail := local + "@" + pre + "\U{212A}" + post;
    assert local + ("@" + (pre + "k" + post)) == local + "@" + pre + "k" + post;
    assert mail[0] == local[0];
    LatinStays(local + "@" + pre + "k" + post);
    assert post == "" ==> mail[|mail| - 1] == '\U{212A}';
    assert post != "" ==> mail[|mail| - 1] == post[|post| - 1];
  }

  // ---- precedence and resolution ----

  predicate HasIngestAction(r: Rule) {
    r.move.Some? || r.markRead || r.star
  }

  /** Negative when `a` comes first: sender before domain, longer value, own account, older. */
  function BySpecificity(a: Rule, b: Rule): int {
    if a.kind != b.kind then if a.kind.Sender? then -1 else 1
    else if |a.value| != |b.value| then |b.value| - |a.value|
    else if a.account.None? != b.account.None? then if a.account.None? then 1 else -1
    else a.createdAt - b.createdAt
  }

  predicate Hit(r: Rule, from: Option<string>, fold: Fold) {
    HasIngestAction(r) && RuleMatches(r, from, fold)
  }

  function Hits(rules: seq<Rule>, from: Option<string>, fold: Fold): seq<Rule> {
    if rules == [] then []
    else
      var n := |rules| - 1;
      Hits(rules[..n], from, fold) + if Hit(rules[n], from, fold) then [rules[n]] else []
  }

  /** Insert after every rule that does not come later, so equals keep their order. */
  function Insert(sorted: seq<Rule>, r: Rule): seq<Rule> {
    if sorted == [] then [r]
    else
      var n := |sorted| - 1;
      if BySpecificity(sorted[n], r) <= 0 then sorted + [r] else Insert(sorted[..n], r) + [sorted[n]]
  }

  /** A stable sort; any stable sort gives this list. */
  function Sort(rules: seq<Rule>): seq<Rule> {
    if rules == [] then [] else Insert(Sort(rules[..|rules| - 1]), rules[|rules| - 1])
  }

  function FirstMove(hits: seq<Rule>): Option<string> {
    if hits == [] then None else if hits[0].move.Some? then hits[0].move else FirstMove(hits[1..])
  }

  datatype Resolution = Resolution(move: Option<string>, markRead: bool, star: bool, matched: seq<nat>)

  function ResolveRules(rules: seq<Rule>, from: Option<string>, fold: Fold): Option<Resolution> {
    var hits := Sort(Hits(rules, from, fold));
    if hits == [] then None
    else Some(Resolution(FirstMove(hits), exists k :: 0 <= k < |hits| && hits[k].markRead,
                         exists k :: 0 <= k < |hits| && hits[k].star, seq(|hits|, k requires 0 <= k < |hits| => hits[k].id)))
  }

  /** What the rule table guarantees for one account: its own rules and everybody's, one per kind and value. */
  ghost predicate OneRulePerMatch(rules: seq<Rule>, account: string) {
    && (forall i :: 0 <= i < |rules| ==> rules[i].account.None? || rules[i].account == Some(account))
    && (forall i, j :: 0 <= i < j < |rules| ==>
          rules[i].account != rules[j].account || rules[i].kind != rules[j].kind || rules[i].value != rules[j].value)
  }

  ghost predicate Strict(s: seq<Rule>) {
    forall i, j :: 0 <= i < j < |s| ==> BySpecificity(s[i], s[j]) < 0
  }

  /** Two rules that match the same address and are equally long are for the same value. */
  lemma {:induction false} EqualLengthMeansEqualValue(a: Rule, b: Rule, from: Option<string>, fold: Fold)
    ensures RuleMatches(a, from, fold) && RuleMatches(b, from, fold) && a.kind == b.kind && |a.value| == |b.value| ==> a.value == b.value
  {
    hide DomainOf, Trim, TrimStart, TrimEnd;
    if RuleMatches(a, from, fold) && RuleMatches(b, from, fold) && a.kind.Domain? && b.kind.Domain? {
      MatchEndsWithValue(a, from, fold);
      MatchEndsWithValue(b, from, fold);
    }
  }

  lemma {:induction false} MatchEndsWithValue(r: Rule, from: Option<string>, fold: Fold)
    ensures RuleMatches(r, from, fold) && r.kind.Domain? ==> EndsWith(DomainOf(fold(Trim(from.value)), fold).value, r.value)
  {
    if RuleMatches(r, from, fold) && r.kind.Domain? {
      var d := DomainOf(fold(Trim(from.value)), fold).value;
      if d == r.value {
        assert d[0..] == d;
      } else {
        assert d[|d| - |r.value| - 1..][1..] == d[|d| - |r.value|..];
        assert ("." + r.value)[1..] == r.value;
      }
    }
  }

  /** Specificity strictly orders any two different rules that match one address: creation time never decides. */
  lemma {:induction false} MatchingRulesAreOrdered(rules: seq<Rule>, account: string, from: Option<string>, fold: Fold, i: nat, j: nat)
    requires OneRulePerMatch(rules, account) && i < j < |rules|
    ensures RuleMatches(rules[i], from, fold) && RuleMatches(rules[j], from, fold) ==>
              && BySpecificity(rules[i], rules[j]) != 0 && BySpecificity(rules[j], rules[i]) != 0
              && (BySpecificity(rules[i], rules[j]) < 0 <==> BySpecificity(rules[j], rules[i]) > 0)
  {
    hide RuleMatches;
    if rules[i].kind == rules[j].kind && |rules[i].value| == |rules[j].value| {
      EqualLengthMeansEqualValue(rules[i], rules[j], from, fold);
    }
  }

  lemma {:induction false} BySpecificityTransitive(a: Rule, b: Rule, c: Rule)
    requires BySpecificity(a, b) < 0 && BySpecificity(b, c) < 0
    ensures BySpecificity(a, c) < 0 && BySpecificity(b, a) > 0
  {
  }

  lemma {:induction false} HitsAreRules(rules: seq<Rule>, from: Option<string>, fold: Fold, r: Rule)
    ensures r in Hits(rules, from, fold) <==> r in rules && Hit(r, from, fold)
  {
    if rules != [] {
      HitsAreRules(rules[..|rules| - 1], from, fold, r);
      assert rules == rules[..|rules| - 1] + [rules[|rules| - 1]];
    }
  }

  /** Any two different members compare one way or the other. */
  ghost predicate Comparable(s: set<Rule>) {
    forall a, b :: a in s && b in s && a != b ==> BySpecificity(a, b) != 0 && (BySpecificity(a, b) < 0 <==> BySpecificity(b, a) > 0)
  }

  lemma {:induction false} InsertMembers(sorted: seq<Rule>, r: Rule, x: Rule)
    ensures x in Insert(sorted, r) <==> x in sorted || x == r
  {
    if sorted != [] {
      var n := |sorted| - 1;
      assert sorted == sorted[..n] + [sorted[n]];
      InsertMembers(sorted[..n], r, x);
    }
  }

  lemma {:induction false} AppendStrict(s: seq<Rule>, r: Rule)
    requires Strict(s) && forall x :: x in s ==> BySpecificity(x, r) < 0
    ensures Strict(s + [r])
  {
    forall i | 0 <= i < |s| ensures BySpecificity(s[i], r) < 0 {
      assert s[i] in s;
    }
  }

  lemma {:induction false} InsertSorts(sorted: seq<Rule>, r: Rule, s: set<Rule>)
    requires Strict(sorted) && Comparable(s) && r in s && r !in sorted && forall x :: x in sorted ==> x in s
    ensures Strict(Insert(sorted, r))
  {
    if sorted != [] {
      var n := |sorted| - 1;
      var front, last := sorted[..n], sorted[n];
      assert last in sorted;
      if BySpecificity(last, r) <= 0 {
        forall x | x in sorted ensures BySpecificity(x, r) < 0 {
          LastIsGreatest(sorted, x);
          if x != last { BySpecificityTransitive(x, last, r); }
        }
        AppendStrict(sorted, r);
      } else {
        forall x | x in front ensures x in sorted && BySpecificity(x, last) < 0 {
          WithoutLast(sorted, x);
          LastIsGreatest(sorted, x);
        }
        InsertSorts(front, r, s);
        forall x | x in Insert(front, r) ensures BySpecificity(x, last) < 0 {
          InsertMembers(front, r, x);
        }
        AppendStrict(Insert(front, r), last);
      }
    }
  }

  ghost predicate NoRepeats(s: seq<Rule>) {
    forall i, j :: 0 <= i < j < |s| ==> s[i] != s[j]
  }

  lemma {:induction false} SortSorts(rules: seq<Rule>, s: set<Rule>)
    requires Comparable(s) && NoRepeats(rules) && forall x :: x in rules ==> x in s
    ensures Strict(Sort(rules)) && forall x :: x in Sort(rules) <==> x in rules
  {
    if rules != [] {
      var n := |rules| - 1;
      assert rules == rules[..n] + [rules[n]];
      assert rules[n] in rules;
      SortSorts(rules[..n], s);
      assert rules[n] !in rules[..n];
      InsertSorts(Sort(rules[..n]), rules[n], s);
      forall x ensures x in Sort(rules) <==> x in rules {
        InsertMembers(Sort(rules[..n]), rules[n], x);
      }
    }
  }

  lemma {:induction false} LastIsGreatest(s: seq<Rule>, x: Rule)
    requires Strict(s) && x in s
    ensures x == s[|s| - 1] || BySpecificity(x, s[|s| - 1]) < 0
  {
  }

  lemma {:induction false} WithoutLast(s: seq<Rule>, x: Rule)
    requires Strict(s) && s != []
    ensures Strict(s[..|s| - 1]) && (x in s[..|s| - 1] <==> x in s && x != s[|s| - 1])
  {
    assert s == s[..|s| - 1] + [s[|s| - 1]];
    if x in s[..|s| - 1] {
      var i :| 0 <= i < |s| - 1 && s[i] == x;
      assert BySpecificity(s[i], s[|s| - 1]) < 0;
    }
  }

  /** A strictly ordered list is determined by its members. */
  lemma {:induction false} StrictIsUnique(s: seq<Rule>, t: seq<Rule>)
    requires Strict(s) && Strict(t) && forall x :: x in s <==> x in t
    ensures s == t
    decreases |s|
  {
    if s != [] { assert s[0] in s; }
    if t != [] { assert t[0] in t; }
    if s != [] && t != [] {
      var a, b := s[|s| - 1], t[|t| - 1];
      assert a in s && b in t;
      LastIsGreatest(t, a);
      LastIsGreatest(s, b);
      if a != b { BySpecificityTransitive(a, b, a); }
      var sf, tf := s[..|s| - 1], t[..|t| - 1];
      forall x | x in sf ensures x in tf {
        WithoutLast(s, x);
        WithoutLast(t, x);
      }
      forall x | x in tf ensures x in sf {
        WithoutLast(s, x);
        WithoutLast(t, x);
      }
      WithoutLast(s, a);
      WithoutLast(t, a);
      StrictIsUnique(sf, tf);
      assert s == sf + [a] && t == tf + [b];
    }
  }

  lemma {:induction false} HitsNoRepeats(rules: seq<Rule>, from: Option<string>, fold: Fold)
    requires NoRepeats(rules)
    ensures NoRepeats(Hits(rules, from, fold))
  {
    if rules != [] {
      var n := |rules| - 1;
      HitsNoRepeats(rules[..n], from, fold);
      HitsAreRules(rules[..n], from, fold, rules[n]);
      var h := Hits(rules[..n], from, fold);
      assert rules[n] !in rules[..n];
      forall k | 0 <= k < |h| ensures h[k] != rules[n] {
        assert h[k] in h;
      }
    }
  }

  ghost function HitSet(rules: seq<Rule>, from: Option<string>, fold: Fold): set<Rule> {
    set r | r in rules && Hit(r, from, fold)
  }

  lemma {:induction false} HitsComparable(rules: seq<Rule>, account: string, from: Option<string>, fold: Fold)
    requires OneRulePerMatch(rules, account)
    ensures Comparable(HitSet(rules, from, fold))
  {
    hide RuleMatches, BySpecificity, Hits;
    forall a, b | a in HitSet(rules, from, fold) && b in HitSet(rules, from, fold) && a != b
      ensures BySpecificity(a, b) != 0 && (BySpecificity(a, b) < 0 <==> BySpecificity(b, a) > 0)
    {
      var i :| 0 <= i < |rules| && rules[i] == a;
      var j :| 0 <= j < |rules| && rules[j] == b;
      if i < j { MatchingRulesAreOrdered(rules, account, from, fold, i, j); } else { MatchingRulesAreOrdered(rules, account, from, fold, j, i); }
    }
  }

  /** The sorted hits: strictly ordered, and exactly the rules that match and act. */
  lemma {:induction false} SortedHits(rules: seq<Rule>, account: string, from: Option<string>, fold: Fold)
    requires OneRulePerMatch(rules, account)
    ensures var hits := Sort(Hits(rules, from, fold));
            Strict(hits) && forall r :: r in hits <==> r in rules && Hit(r, from, fold)
  {
    HitsComparable(rules, account, from, fold);
    HitsNoRepeats(rules, from, fold);
    forall r ensures r in Hits(rules, from, fold) <==> r in rules && Hit(r, from, fold) {
      HitsAreRules(rules, from, fold, r);
    }
    SortSorts(Hits(rules, from, fold), HitSet(rules, from, fold));
  }

  /** The resolution does not depend on the order in which the rules are listed. */
  lemma {:induction false} OrderDoesNotMatter(rules: seq<Rule>, others: seq<Rule>, account: string, from: Option<string>, fold: Fold)
    requires OneRulePerMatch(rules, account) && OneRulePerMatch(others, account)
    requires forall r :: r in rules <==> r in others
    ensures ResolveRules(rules, from, fold) == ResolveRules(others, from, fold)
  {
    SortedHits(rules, account, from, fold);
    SortedHits(others, account, from, fold);
    StrictIsUnique(Sort(Hits(rules, from, fold)), Sort(Hits(others, from, fold)));
  }

  lemma {:induction false} FirstMoveWins(hits: seq<Rule>) returns (w: Rule)
    requires Strict(hits) && FirstMove(hits).Some?
    ensures w in hits && w.move == FirstMove(hits) && forall r :: r in hits && r.move.Some? && r != w ==> BySpecificity(w, r) < 0
  {
    if hits[0].move.Some? {
      w := hits[0];
    } else {
      w := FirstMoveWins(hits[1..]);
      assert hits == [hits[0]] + hits[1..];
    }
  }

  lemma {:induction false} FirstMoveFinds(hits: seq<Rule>, r: Rule)
    requires r in hits && r.move.Some?
    ensures FirstMove(hits).Some?
  {
    if hits[0].move.None? {
      assert hits == [hits[0]] + hits[1..];
      FirstMoveFinds(hits[1..], r);
    }
  }

  /** There is a resolution exactly when an acting rule matches, and it reports exactly the rules that did. */
  lemma {:induction false} ResolvedWhenHit(rules: seq<Rule>, account: string, from: Option<string>, fold: Fold)
    requires OneRulePerMatch(rules, account)
    ensures var res := ResolveRules(rules, from, fold);
            && (res.Some? <==> exists r :: r in rules && Hit(r, from, fold))
            && (res.Some? ==> forall r :: r in rules && Hit(r, from, fold) ==> r.id in res.value.matched)
            && (res.Some? ==> forall id :: id in res.value.matched ==> exists r :: r in rules && Hit(r, from, fold) && r.id == id)
  {
    SortedHits(rules, account, from, fold);
    var hits := Sort(Hits(rules, from, fold));
    if hits != [] {
      assert hits[0] in hits;
      var matched := ResolveRules(rules, from, fold).value.matched;
      forall r | r in rules && Hit(r, from, fold) ensures r.id in matched {
        var k :| 0 <= k < |hits| && hits[k] == r;
        assert matched[k] == r.id;
      }
      forall id | id in matched ensures exists r :: r in rules && Hit(r, from, fold) && r.id == id {
        var k :| 0 <= k < |matched| && matched[k] == id;
        assert hits[k] in hits;
      }
    }
  }

  /** Read and star are set whenever some matching rule asks for them. */
  lemma {:induction false} FlagsAreJoined(rules: seq<Rule>, account: string, from: Option<string>, fold: Fold)
    requires OneRulePerMatch(rules, account) && ResolveRules(rules, from, fold).Some?
    ensures var res := ResolveRules(rules, from, fold).value;
            && (res.markRead <==> exists r :: r in rules && Hit(r, from, fold) && r.markRead)
            && (res.star <==> exists r :: r in rules && Hit(r, from, fold) && r.star)
  {
    SortedHits(rules, account, from, fold);
    var hits := Sort(Hits(rules, from, fold));
    if r :| r in rules && Hit(r, from, fold) && r.markRead {
      assert r in hits;
    }
    if r :| r in rules && Hit(r, from, fold) && r.star {
      assert r in hits;
    }
    forall k | 0 <= k < |hits| ensures hits[k] in rules && Hit(hits[k], from, fold) {
      assert hits[k] in hits;
    }
  }

  /**
   * The move is that of a matching sender rule if one has a move, else of the longest matching domain
   * that has one, the account's own rule before everybody's; with no such rule there is no move.
   */
  lemma {:induction false} MoveFromMostSpecific(rules: seq<Rule>, account: string, from: Option<string>, fold: Fold)
    requires OneRulePerMatch(rules, account) && ResolveRules(rules, from, fold).Some?
    ensures var move := ResolveRules(rules, from, fold).value.move;
            && (move.Some? <==> exists r :: r in rules && Hit(r, from, fold) && r.move.Some?)
            && (move.Some? ==> exists w :: w in rules && Hit(w, from, fold) && w.move == move && Outranks(rules, from, fold, w))
  {
    SortedHits(rules, account, from, fold);
    var hits := Sort(Hits(rules, from, fold));
    if FirstMove(hits).Some? {
      var w := FirstMoveWins(hits);
      forall r | r in rules && Hit(r, from, fold) && r.move.Some? ensures NoMoreSpecific(r, w) {
        assert r in hits;
      }
      assert Outranks(rules, from, fold, w);
    }
    if r :| r in rules && Hit(r, from, fold) && r.move.Some? {
      FirstMoveFinds(hits, r);
    }
  }

  /** The rule matches and asks for something. */
  predicate Asks(r: Rule, from: Option<string>, fold: Fold) {
    RuleMatches(r, from, fold) && (r.move.Some? || r.markRead || r.star)
  }

  /**
   * The resolution in terms of the rules that match: there is one if and only if some matching rule moves, marks read or
   * stars; it reports those, moves if one of them moves, marks read if one marks read, and stars if one stars.
   */
  lemma {:induction false} ResolutionExactly(rules: seq<Rule>, account: string, from: Option<string>, fold: Fold)
    requires OneRulePerMatch(rules, account)
    ensures var res := ResolveRules(rules, from, fold);
            && (res.Some? <==> exists r :: r in rules && Asks(r, from, fold))
            && (res.Some? ==>
                && (res.value.move.Some? <==> exists r :: r in rules && RuleMatches(r, from, fold) && r.move.Some?)
                && (res.value.markRead <==> exists r :: r in rules && RuleMatches(r, from, fold) && r.markRead)
                && (res.value.star <==> exists r :: r in rules && RuleMatches(r, from, fold) && r.star)
                && (forall r :: r in rules && Asks(r, from, fold) ==> r.id in res.value.matched))
  {
    hide RuleMatches, Hits, Sort, ResolveRules, OneRulePerMatch;
    assert forall r :: Asks(r, from, fold) <==> Hit(r, from, fold);
    ResolvedWhenHit(rules, account, from, fold);
    if ResolveRules(rules, from, fold).Some? {
      FlagsAreJoined(rules, account, from, fold);
      MoveFromMostSpecific(rules, account, from, fold);
    }
  }

  /** No matching rule with a move is more specific than `w`. */
  ghost predicate Outranks(rules: seq<Rule>, from: Option<string>, fold: Fold, w: Rule) {
    forall r :: r in rules && Hit(r, from, fold) && r.move.Some? ==> NoMoreSpecific(r, w)
  }

  /** `r` does not outrank `w`: not a sender rule over a domain rule, not a longer value, not own over everybody's. */
  predicate NoMoreSpecific(r: Rule, w: Rule) {
    && (r.kind.Sender? ==> w.kind.Sender?)
    && (r.kind == w.kind ==> |r.value| <= |w.value|)
    && (r.kind == w.kind && |r.value| == |w.value| ==> (r.account.Some? ==> w.account.Some?))
  }
}
