/**
 * Attachment numbering (imap/parse.ts, imap/source-extract.ts): the recursive walk over the server's
 * BODYSTRUCTURE and the linear walk over the nodes of the raw message must count the same parts.
 */
module Mime {
  import opened Wrappers

  /**
   * What a part's own headers say. `mimeType` is the Content-Type in lower case, None where there is no such
   * field; disposition in lower case, empty when absent; an empty filename counts as none. `contentId` is the
   * value of the Content-ID field, which may be there and be empty.
   */
  datatype Header = Header(mimeType: Option<string>, disposition: string, filename: Option<string>, contentId: Option<string>)

  /**
   * A message's structure. An embedded message has its own transfer encoding. A part of a multipart/digest
   * without a Content-Type is an embedded message too (section 5.1.5 of RFC 2046), but only the server says so.
   */
  datatype Part =
    | Leaf(header: Header)
    | Multipart(header: Header, children: seq<Part>)
    | Embedded(header: Header, encoding: string, body: Part)
    | Digested(header: Header, encoding: string, body: Part)

  const RFC822: string := "message/rfc822"
  const DIGEST: string := "multipart/digest"
  const PLAIN: string := "text/plain"

  predicate StartsWith(s: string, t: string) {
    |t| <= |s| && s[..|t|] == t
  }

  // ---- the classifier both walks share ----

  /** What a walk tells the classifier about a part. */
  datatype Traits = Traits(mimeType: string, disposition: string, hasFilename: bool, hasContentId: bool)

  predicate Selected(t: Traits) {
    var isInline := t.disposition == "inline" && t.hasContentId;
    t.disposition == "attachment" || (t.hasFilename && !isInline) || (isInline && !StartsWith(t.mimeType, "text/"))
  }

  predicate Walked(encoding: string) {
    encoding == "" || encoding == "7bit" || encoding == "8bit" || encoding == "binary"
  }

  /**
   * Every multipart has a part (section 5.1.1 of RFC 2046), only embedded messages have that type, and the
   * untyped parts of a digest are embedded messages.
   */
  predicate WellFormed(p: Part, inDigest: bool)
    decreases p
  {
    match p
    case Leaf(h) => h.mimeType != Some(RFC822) && (inDigest ==> h.mimeType.Some?)
    case Multipart(h, cs) =>
      |cs| > 0 && h.mimeType.Some? && h.mimeType != Some(RFC822) && forall k :: 0 <= k < |cs| ==> WellFormed(cs[k], h.mimeType == Some(DIGEST))
    case Embedded(h, _, body) => h.mimeType == Some(RFC822) && WellFormed(body, false)
    case Digested(h, _, body) => inDigest && h.mimeType.None? && WellFormed(body, false)
  }

  // ---- what is a leaf, and in which order ----

  /** An embedded message that is not walked is a closed leaf, with its type in the headers or from the digest. */
  datatype Kind = Simple | Closed | ClosedDigest

  /** A leaf, and which of the two walks come to it. */
  datatype LeafPart = LeafPart(header: Header, kind: Kind, inStructure: bool, inRaw: bool)

  function Leaves(p: Part): seq<LeafPart>
    decreases p, 0
  {
    match p
    case Leaf(h) => [LeafPart(h, Simple, true, true)]
    case Multipart(_, cs) => LeavesOf(cs)
    case Embedded(h, enc, body) => if Walked(enc) then Leaves(body) else [LeafPart(h, Closed, true, true)]
    case Digested(h, enc, body) =>
      if Walked(enc) then [LeafPart(h, Simple, false, true)] + Hidden(Leaves(body)) else [LeafPart(h, ClosedDigest, true, true)]
  }

  function LeavesOf(ps: seq<Part>): seq<LeafPart>
    decreases ps, 1
  {
    if ps == [] then [] else Leaves(ps[0]) + LeavesOf(ps[1..])
  }

  /** Leaves inside a part that the raw walk takes for one leaf. */
  function Hidden(ls: seq<LeafPart>): (r: seq<LeafPart>)
    ensures |r| == |ls| && forall k :: 0 <= k < |ls| ==> r[k] == ls[k].(inRaw := false)
  {
    if ls == [] then [] else [ls[0].(inRaw := false)] + Hidden(ls[1..])
  }

  /** The server's structure names every type: text/plain by default (section 5.2 of RFC 2045), in a digest the embedded message. */
  function StructureType(l: LeafPart): string {
    match l.header.mimeType
    case Some(t) => t
    case None => if l.kind.ClosedDigest? then RFC822 else PLAIN
  }

  /** The raw walk has no type where there is no field. */
  function RawType(h: Header): string {
    match h.mimeType case Some(t) => t case None => ""
  }

  /**
   * The structure walk counts a Content-ID that has a value, the raw walk one whose field is there; and the raw
   * walk forces every embedded message's disposition to `inline` so that it descends.
   */
  function TraitsOf(l: LeafPart, raw: bool): Traits {
    var h := l.header;
    if raw then RawTraits(if l.kind.Closed? then h.(disposition := "inline") else h)
    else Traits(StructureType(l), h.disposition, h.filename.Some?, h.contentId.Some? && h.contentId.value != "")
  }

  function RawTraits(h: Header): Traits {
    Traits(RawType(h), h.disposition, h.filename.Some?, h.contentId.Some?)
  }

  /** The walk comes to the leaf and selects it. */
  predicate Picks(l: LeafPart, raw: bool) {
    (if raw then l.inRaw else l.inStructure) && Selected(TraitsOf(l, raw))
  }

  /** What an attachment row and an extracted part are compared on. */
  datatype Attachment = Attachment(partOrdinal: nat, contentId: Option<string>, filename: Option<string>, mimeType: string)

  /** Without the angle brackets around it. */
  function Bare(v: string): string {
    var w := if v != "" && v[0] == '<' then v[1..] else v;
    if w != "" && w[|w| - 1] == '>' then w[..|w| - 1] else w
  }

  function Describe(h: Header, mimeType: string, n: nat): Attachment {
    Attachment(n, if h.contentId.Some? && h.contentId.value != "" then Some(Bare(h.contentId.value)) else None, h.filename, mimeType)
  }

  function DescribeLeaf(l: LeafPart, raw: bool, n: nat): Attachment {
    Describe(l.header, TraitsOf(l, raw).mimeType, n)
  }

  /** Number the leaves a walk picks in document order, from `n` on. */
  function Numbered(ls: seq<LeafPart>, raw: bool, n: nat): seq<Attachment> {
    if ls == [] then []
    else if Picks(ls[0], raw) then [DescribeLeaf(ls[0], raw, n)] + Numbered(ls[1..], raw, n + 1)
    else Numbered(ls[1..], raw, n)
  }

  lemma {:induction false} NumberedAppend(a: seq<LeafPart>, b: seq<LeafPart>, raw: bool, n: nat)
    ensures Numbered(a + b, raw, n) == Numbered(a, raw, n) + Numbered(b, raw, n + |Numbered(a, raw, n)|)
  {
    hide Picks;
    if a == [] {
      assert a + b == b;
    } else {
      NumberedAppend(a[1..], b, raw, if Picks(a[0], raw) then n + 1 else n);
      assert (a + b)[0] == a[0] && (a + b)[1..] == a[1..] + b;
    }
  }

  /** What is hidden from the raw walk is there for the structure walk. */
  lemma {:induction false} NumberedHidden(ls: seq<LeafPart>, n: nat)
    ensures Numbered(Hidden(ls), false, n) == Numbered(ls, false, n) && Numbered(Hidden(ls), true, n) == []
  {
    hide Selected;
    if ls != [] {
      NumberedHidden(ls[1..], if Picks(ls[0], false) then n + 1 else n);
      NumberedHidden(ls[1..], n);
      assert Hidden(ls)[1..] == Hidden(ls[1..]);
    }
  }

  /** An untyped part of a digest: one leaf for the raw walk, its contents for the structure walk. */
  lemma {:induction false} NumberedDigested(h: Header, body: seq<LeafPart>, n: nat)
    ensures var ls := [LeafPart(h, Simple, false, true)] + Hidden(body);
            && Numbered(ls, false, n) == Numbered(body, false, n)
            && Numbered(ls, true, n) == if Selected(RawTraits(h)) then [Describe(h, RawType(h), n)] else []
  {
    hide Selected;
    var l := LeafPart(h, Simple, false, true);
    NumberedAppend([l], Hidden(body), false, n);
    NumberedAppend([l], Hidden(body), true, n);
    assert [l][1..] == [];
    NumberedHidden(body, n);
    NumberedHidden(body, n + |Numbered([l], true, n)|);
  }

  // ---- the BODYSTRUCTURE walk ----

  /** Push a leaf of the server's structure, if it is selected. */
  method VisitLeaf(l: LeafPart, was: seq<Attachment>) returns (attachments: seq<Attachment>)
    requires l.inStructure
    ensures attachments == was + Numbered([l], false, |was|)
  {
    assert [l][1..] == [];
    attachments := was;
    if Selected(TraitsOf(l, false)) {
      attachments := was + [DescribeLeaf(l, false, |was|)];
    }
  }

  /** Visit one node of the server's structure, pushing what it selects. */
  method Visit(p: Part, was: seq<Attachment>) returns (attachments: seq<Attachment>)
    ensures attachments == was + Numbered(Leaves(p), false, |was|)
    decreases p, 0
  {
    hide Numbered, Hidden;
    match p {
      case Multipart(_, cs) =>
        attachments := VisitAll(cs, was);
      case Embedded(h, enc, body) =>
        if Walked(enc) {
          attachments := Visit(body, was);
        } else {
          attachments := VisitLeaf(LeafPart(h, Closed, true, true), was);
        }
      case Digested(h, enc, body) =>
        if Walked(enc) {
          attachments := Visit(body, was);
          NumberedDigested(h, Leaves(body), |was|);
        } else {
          attachments := VisitLeaf(LeafPart(h, ClosedDigest, true, true), was);
        }
      case Leaf(h) =>
        attachments := VisitLeaf(LeafPart(h, Simple, true, true), was);
    }
  }

  method VisitAll(ps: seq<Part>, was: seq<Attachment>) returns (attachments: seq<Attachment>)
    ensures attachments == was + Numbered(LeavesOf(ps), false, |was|)
    decreases ps, 1
  {
    attachments := was;
    if ps != [] {
      attachments := Visit(ps[0], was);
      NumberedAppend(Leaves(ps[0]), LeavesOf(ps[1..]), false, |was|);
      attachments := VisitAll(ps[1..], attachments);
    }
  }

  method ExtractStructure(p: Part) returns (attachments: seq<Attachment>)
    ensures attachments == Numbered(Leaves(p), false, 0)
  {
    attachments := Visit(p, []);
  }

  // ---- the raw-message walk ----

  /** One node as the tokenizer announces it, headers already adjusted by the splitter. */
  datatype Node = Node(header: Header, multipart: bool, rfc822: bool, messageNode: bool)

  /** The nodes in the order they appear in the raw message: every container before its contents. */
  function Nodes(p: Part): seq<Node>
    decreases p, 0
  {
    match p
    case Leaf(h) => [Node(h, false, false, false)]
    case Multipart(h, cs) => [Node(h, true, false, false)] + NodesOf(cs)
    case Embedded(h, enc, body) =>
      var inner := h.(disposition := "inline");
      if Walked(enc) then [Node(inner, false, true, true)] + Nodes(body) else [Node(inner, false, true, false)]
    case Digested(h, _, _) => [Node(h, false, false, false)]
  }

  function NodesOf(ps: seq<Part>): seq<Node>
    decreases ps, 1
  {
    if ps == [] then [] else Nodes(ps[0]) + NodesOf(ps[1..])
  }

  predicate SelectPart(n: Node) {
    !n.multipart && !(n.rfc822 && n.messageNode) && Selected(RawTraits(n.header))
  }

  function DescribeNode(node: Node, n: nat): Attachment {
    Describe(node.header, RawType(node.header), n)
  }

  /** The numbered parts of a node stream, from `n` on. */
  function NumberedNodes(ns: seq<Node>, n: nat): seq<Attachment> {
    if ns == [] then []
    else if SelectPart(ns[0]) then [DescribeNode(ns[0], n)] + NumberedNodes(ns[1..], n + 1)
    else NumberedNodes(ns[1..], n)
  }

  lemma {:induction false} NumberedNodesAppend(a: seq<Node>, b: seq<Node>, n: nat)
    ensures NumberedNodes(a + b, n) == NumberedNodes(a, n) + NumberedNodes(b, n + |NumberedNodes(a, n)|)
  {
    if a == [] {
      assert a + b == b;
    } else {
      NumberedNodesAppend(a[1..], b, if SelectPart(a[0]) then n + 1 else n);
      assert (a + b)[0] == a[0] && (a + b)[1..] == a[1..] + b;
    }
  }

  method EnumerateSourceParts(nodes: seq<Node>) returns (parts: seq<Attachment>)
    ensures parts == NumberedNodes(nodes, 0)
  {
    parts := [];
    for i := 0 to |nodes|
      invariant parts == NumberedNodes(nodes[..i], 0)
    {
      NumberedNodesAppend(nodes[..i], [nodes[i]], 0);
      assert nodes[..i + 1] == nodes[..i] + [nodes[i]];
      if SelectPart(nodes[i]) {
        parts := parts + [DescribeNode(nodes[i], |parts|)];
      }
    }
    assert nodes[..|nodes|] == nodes;
  }

  /** The node stream selects and numbers the leaves as the raw walk sees them. */
  lemma {:induction false} StreamNumbersLeaves(p: Part, n: nat)
    ensures NumberedNodes(Nodes(p), n) == Numbered(Leaves(p), true, n)
    decreases p, 0
  {
    hide Selected, Hidden;
    match p {
      case Leaf(h) => OneNode(LeafPart(h, Simple, true, true), Node(h, false, false, false), n);
      case Multipart(h, cs) =>
        StreamNumbersAll(cs, n);
        NumberedNodesAppend([Node(h, true, false, false)], NodesOf(cs), n);
      case Embedded(h, enc, body) =>
        if Walked(enc) {
          StreamNumbersLeaves(body, n);
          NumberedNodesAppend([Node(h.(disposition := "inline"), false, true, true)], Nodes(body), n);
        } else {
          OneNode(LeafPart(h, Closed, true, true), Node(h.(disposition := "inline"), false, true, false), n);
        }
      case Digested(h, enc, body) =>
        if Walked(enc) {
          NumberedDigested(h, Leaves(body), n);
          OneNode(LeafPart(h, Simple, true, true), Node(h, false, false, false), n);
        } else {
          OneNode(LeafPart(h, ClosedDigest, true, true), Node(h, false, false, false), n);
        }
    }
  }

  lemma {:induction false} OneNode(l: LeafPart, node: Node, n: nat)
    requires l.inRaw && !node.multipart && !(node.rfc822 && node.messageNode)
    requires node.header == if l.kind.Closed? then l.header.(disposition := "inline") else l.header
    ensures NumberedNodes([node], n) == Numbered([l], true, n)
            == if Selected(RawTraits(node.header)) then [DescribeNode(node, n)] else []
  {
    hide Selected;
    assert [node][1..] == [] && [l][1..] == [];
  }

  lemma {:induction false} StreamNumbersAll(ps: seq<Part>, n: nat)
    ensures NumberedNodes(NodesOf(ps), n) == Numbered(LeavesOf(ps), true, n)
    decreases ps, 1
  {
    if ps != [] {
      StreamNumbersLeaves(ps[0], n);
      StreamNumbersAll(ps[1..], n + |NumberedNodes(Nodes(ps[0]), n)|);
      NumberedNodesAppend(Nodes(ps[0]), NodesOf(ps[1..]), n);
      NumberedAppend(Leaves(ps[0]), LeavesOf(ps[1..]), true, n);
    }
  }

  // ---- do they agree? ----

  /** The Content-ID field is there and empty: only the raw walk counts it. */
  predicate EmptyContentId(h: Header) {
    h.contentId == Some("")
  }

  /**
   * A leaf the two walks pick differently. Only one of them comes to it and selects it; or it is an embedded
   * message left closed, without filename, that is an attachment without Content-ID field, neither attachment
   * nor inline but with one, or inline with an empty one; or it is an inline leaf without Content-Type, which
   * only the structure calls text, with a Content-ID that has a value or, without a filename, a field; or another
   * inline leaf with an empty Content-ID, if it is text with a filename or no text without.
   */
  predicate Diverges(l: LeafPart) {
    var h := l.header;
    if !l.inStructure || !l.inRaw then
      (l.inStructure && Selected(TraitsOf(l, false))) || (l.inRaw && Selected(TraitsOf(l, true)))
    else if l.kind.Closed? then
      h.filename.None? &&
      (if h.disposition == "attachment" then h.contentId.None?
       else if h.disposition == "inline" then EmptyContentId(h)
       else h.contentId.Some?)
    else if h.mimeType.None? && l.kind.Simple? then
      h.disposition == "inline" && h.contentId.Some? && (h.filename.Some? ==> h.contentId.value != "")
    else
      h.disposition == "inline" && EmptyContentId(h) && (h.filename.Some? <==> StartsWith(StructureType(l), "text/"))
  }

  /** A closed leaf is one by its type, in the headers or from the digest. */
  predicate Typed(l: LeafPart) {
    (l.kind.Closed? ==> l.header.mimeType == Some(RFC822)) && (l.kind.ClosedDigest? ==> l.header.mimeType.None?)
  }

  /** What each walk sees of a leaf changes the classifier's answer exactly for those. */
  lemma {:induction false} DivergesExact(l: LeafPart)
    requires Typed(l)
    ensures Picks(l, false) != Picks(l, true) <==> Diverges(l)
  {
    assert !StartsWith(RFC822, "text/") by { assert RFC822[..5][0] == 'm' && "text/"[0] == 't'; }
    assert StartsWith(PLAIN, "text/") && !StartsWith("", "text/");
  }

  predicate AnyDiverges(ls: seq<LeafPart>) {
    exists k :: 0 <= k < |ls| && Diverges(ls[k])
  }

  predicate AllTyped(ls: seq<LeafPart>) {
    forall k :: 0 <= k < |ls| ==> Typed(ls[k])
  }

  lemma {:induction false} LeavesTyped(p: Part, inDigest: bool)
    requires WellFormed(p, inDigest)
    ensures AllTyped(Leaves(p))
    decreases p, 0
  {
    match p {
      case Leaf(_) =>
      case Multipart(h, cs) => LeavesOfTyped(cs, h.mimeType == Some(DIGEST));
      case Embedded(_, enc, body) => if Walked(enc) { LeavesTyped(body, false); }
      case Digested(_, enc, body) => if Walked(enc) { LeavesTyped(body, false); }
    }
  }

  lemma {:induction false} LeavesOfTyped(ps: seq<Part>, inDigest: bool)
    requires forall k :: 0 <= k < |ps| ==> WellFormed(ps[k], inDigest)
    ensures AllTyped(LeavesOf(ps))
    decreases ps, 1
  {
    if ps != [] {
      LeavesTyped(ps[0], inDigest);
      LeavesOfTyped(ps[1..], inDigest);
    }
  }

  /** The row and the part are one attachment; only an absent type may be spelled differently. */
  predicate Alike(row: Attachment, part: Attachment) {
    && row.partOrdinal == part.partOrdinal && row.contentId == part.contentId && row.filename == part.filename
    && (part.mimeType == "" || part.mimeType == row.mimeType)
  }

  predicate SameParts(rows: seq<Attachment>, parts: seq<Attachment>) {
    |rows| == |parts| && forall k :: 0 <= k < |rows| ==> Alike(rows[k], parts[k])
  }

  /** Without a diverging leaf both walks number alike. */
  lemma {:induction false} AgreeUnlessDiverging(ls: seq<LeafPart>, n: nat)
    requires AllTyped(ls) && !AnyDiverges(ls)
    ensures SameParts(Numbered(ls, false, n), Numbered(ls, true, n))
  {
    hide Picks, Diverges, Typed;
    if ls != [] {
      DivergesExact(ls[0]);
      assert forall k :: 0 <= k < |ls[1..]| ==> ls[1..][k] == ls[k + 1];
      AgreeUnlessDiverging(ls[1..], if Picks(ls[0], false) then n + 1 else n);
    }
  }

  /** How many leaves before position `k` are picked: the ordinal of the leaf there. */
  function Ordinal(ls: seq<LeafPart>, raw: bool, k: nat): nat
    requires k <= |ls|
  {
    if k == 0 then 0 else Ordinal(ls, raw, k - 1) + if Picks(ls[k - 1], raw) then 1 else 0
  }

  /**
   * The two walks give every leaf of a well-formed message the same verdict and the same ordinal exactly
   * when it holds no diverging leaf; and then the raw message has the parts of the structure, in order.
   */
  lemma {:induction false} WalksAgreeExact(p: Part)
    requires WellFormed(p, false)
    ensures var ls := Leaves(p);
            !AnyDiverges(ls) <==>
            forall k :: 0 <= k < |ls| ==> Picks(ls[k], false) == Picks(ls[k], true) && Ordinal(ls, false, k) == Ordinal(ls, true, k)
    ensures !AnyDiverges(Leaves(p)) ==> SameParts(Numbered(Leaves(p), false, 0), NumberedNodes(Nodes(p), 0))
  {
    hide Picks, Diverges, Typed, WellFormed, Leaves, Nodes;
    var ls := Leaves(p);
    LeavesTyped(p, false);
    StreamNumbersLeaves(p, 0);
    forall k | 0 <= k < |ls| ensures Picks(ls[k], false) != Picks(ls[k], true) <==> Diverges(ls[k]) {
      DivergesExact(ls[k]);
    }
    if !AnyDiverges(ls) {
      AgreeUnlessDiverging(ls, 0);
      forall k | 0 <= k < |ls| ensures Ordinal(ls, false, k) == Ordinal(ls, true, k) {
        OrdinalsAgree(ls, k);
      }
    }
  }

  lemma {:induction false} OrdinalsAgree(ls: seq<LeafPart>, k: nat)
    requires k <= |ls| && forall j :: 0 <= j < |ls| ==> Picks(ls[j], false) == Picks(ls[j], true)
    ensures Ordinal(ls, false, k) == Ordinal(ls, true, k)
  {
    if k > 0 { OrdinalsAgree(ls, k - 1); }
  }

  // ---- which parts are listed ----

  /** The list with one more part: the next ordinal, the field's Content-ID if it has a value, filename and type. */
  ghost predicate Lists(before: seq<Attachment>, after: seq<Attachment>, h: Header, mimeType: string, n: nat) {
    && |after| == |before| + 1 && after[..|before|] == before
    && (var a := after[|before|];
        && a.partOrdinal == n + |before| && a.filename == h.filename && a.mimeType == mimeType
        && (a.contentId.Some? <==> h.contentId.Some? && h.contentId.value != "")
        && (a.contentId.Some? ==> a.contentId.value == Bare(h.contentId.value)))
  }

  /**
   * Whether the walk that numbers up to leaf `k` lists it, said of what is known of the part: every part with
   * disposition attachment; every part with a filename, unless it is inline with a Content-ID; of those
   * inline with a Content-ID exactly the ones that are no text; and no other.
   */
  ghost predicate ListedRightly(before: seq<Attachment>, after: seq<Attachment>, h: Header, mimeType: string, hasContentId: bool, n: nat) {
    var embedded := h.disposition == "inline" && hasContentId;
    && (h.disposition == "attachment" ==> Lists(before, after, h, mimeType, n))
    && (h.filename.Some? && !embedded ==> Lists(before, after, h, mimeType, n))
    && (embedded && !StartsWith(mimeType, "text/") ==> Lists(before, after, h, mimeType, n))
    && (embedded && StartsWith(mimeType, "text/") ==> after == before)
    && (h.disposition != "attachment" && h.filename.None? && !embedded ==> after == before)
  }

  lemma {:induction false} NumberedOn(ls: seq<LeafPart>, k: nat, raw: bool, n: nat)
    requires k < |ls|
    ensures var before := Numbered(ls[..k], raw, n);
            Numbered(ls[..k + 1], raw, n) == before + if Picks(ls[k], raw) then [DescribeLeaf(ls[k], raw, n + |before|)] else []
  {
    hide Picks;
    assert ls[..k + 1] == ls[..k] + [ls[k]] && [ls[k]][1..] == [];
    NumberedAppend(ls[..k], [ls[k]], raw, n);
  }

  /** The leaves of the server's structure that are listed as attachments, with the type and the Content-ID it gives them. */
  lemma {:induction false} StructureLists(ls: seq<LeafPart>, k: nat, n: nat)
    requires k < |ls|
    ensures var h, before, after := ls[k].header, Numbered(ls[..k], false, n), Numbered(ls[..k + 1], false, n);
            if ls[k].inStructure then ListedRightly(before, after, h, StructureType(ls[k]), h.contentId.Some? && h.contentId.value != "", n)
            else after == before
  {
    NumberedOn(ls, k, false, n);
  }

  /** The same for the nodes of the raw message: containers and opened messages are never listed, the rest by their fields. */
  lemma {:induction false} RawLists(ns: seq<Node>, k: nat, n: nat)
    requires k < |ns|
    ensures var h, before, after := ns[k].header, NumberedNodes(ns[..k], n), NumberedNodes(ns[..k + 1], n);
            if ns[k].multipart || (ns[k].rfc822 && ns[k].messageNode) then after == before
            else ListedRightly(before, after, h, RawType(h), h.contentId.Some?, n)
  {
    assert ns[..k + 1] == ns[..k] + [ns[k]] && [ns[k]][1..] == [];
    NumberedNodesAppend(ns[..k], [ns[k]], n);
  }

  /** The type of a part decides only between parts that are inline with a Content-ID. */
  lemma {:induction false} TypeRarelyMatters(h: Header, a: Option<string>, b: Option<string>, kind: Kind, raw: bool, n: nat)
    requires kind.Simple? && !(h.disposition == "inline" && h.contentId.Some? && (raw || h.contentId.value != ""))
    ensures |Numbered([LeafPart(h.(mimeType := a), kind, true, true)], raw, n)| == |Numbered([LeafPart(h.(mimeType := b), kind, true, true)], raw, n)|
  {
    var la, lb := LeafPart(h.(mimeType := a), kind, true, true), LeafPart(h.(mimeType := b), kind, true, true);
    assert [la][1..] == [] && [lb][1..] == [];
  }

  /** An embedded message is opened exactly if it is not transfer-encoded; else it is one leaf. A part without a type has the default. */
  lemma {:induction false} OpenedExactly(h: Header, enc: string, body: Part)
    ensures Leaves(Embedded(h, enc, body)) == if enc in {"", "7bit", "8bit", "binary"} then Leaves(body) else [LeafPart(h, Closed, true, true)]
    ensures enc !in {"", "7bit", "8bit", "binary"} ==> Leaves(Digested(h, enc, body)) == [LeafPart(h, ClosedDigest, true, true)]
    ensures h.mimeType.None? ==> StructureType(LeafPart(h, Simple, true, true)) == "text/plain" && StructureType(LeafPart(h, ClosedDigest, true, true)) == "message/rfc822"
  {
  }

  /** The parts of a multipart contribute their leaves in order. */
  lemma {:induction false} ChildrenInOrder(h: Header, a: seq<Part>, b: seq<Part>)
    ensures Leaves(Multipart(h, a + b)) == Leaves(Multipart(h, a)) + Leaves(Multipart(h, b))
    ensures forall p :: Leaves(Multipart(h, [p])) == Leaves(p)
  {
    if a == [] {
      assert a + b == b;
    } else {
      ChildrenInOrder(h, a[1..], b);
      assert (a + b)[0] == a[0] && (a + b)[1..] == a[1..] + b;
    }
    forall p ensures Leaves(Multipart(h, [p])) == Leaves(p) {
      assert [p][1..] == [];
      assert LeavesOf([p]) == Leaves(p) + LeavesOf([]);
    }
  }

  /** The Content-ID of a row is the field's value without the brackets around it. */
  lemma {:induction false} BareExact(v: string)
    requires (v == "" || v[0] != '<') && (v == "" || v[|v| - 1] != '>')
    ensures Bare(v) == v && Bare("<" + v + ">") == v && Bare("<" + v) == v && Bare(v + ">") == v
  {
    assert ("<" + v + ">")[1..] == v + ">" && ("<" + v)[1..] == v;
  }

  // ---- extraction ----

  datatype Target = Target(contentId: Option<string>, partOrdinal: Option<nat>, filename: Option<string>, mimeType: string)

  predicate MatchesLegacy(a: Attachment, t: Target) {
    && t.filename.Some? && t.filename.value != "" && a.filename == t.filename
    && (t.mimeType == "" || a.mimeType == "" || a.mimeType == t.mimeType)
  }

  predicate Matches(a: Attachment, t: Target) {
    if t.contentId.Some? then a.contentId == t.contentId
    else if t.partOrdinal.Some? then a.partOrdinal == t.partOrdinal.value
    else MatchesLegacy(a, t)
  }

  /**
   * A target with a Content-ID is matched by it alone, one without by its ordinal alone; with neither, a filename is
   * needed, and types are compared only where both are known.
   */
  lemma {:induction false} MatchedBy(a: Attachment, t: Target)
    ensures t.contentId.Some? ==> (Matches(a, t) <==> a.contentId == t.contentId)
    ensures t.contentId.None? && t.partOrdinal.Some? ==> (Matches(a, t) <==> a.partOrdinal == t.partOrdinal.value)
    ensures t.contentId.None? && t.partOrdinal.None? ==>
              && (t.filename.None? || t.filename == Some("") || a.filename != t.filename ==> !Matches(a, t))
              && (t.filename.Some? && t.filename.value != "" && a.filename == t.filename ==>
                    (!Matches(a, t) <==> t.mimeType != "" && a.mimeType != "" && a.mimeType != t.mimeType))
  {
  }

  predicate FirstMatch(parts: seq<Attachment>, t: Target, k: nat, hit: Attachment) {
    k < |parts| && parts[k] == hit && Matches(hit, t) && forall j :: 0 <= j < k ==> !Matches(parts[j], t)
  }

  /** Stream the nodes and stop selecting at the first match, counting selected parts on the way. */
  method ExtractPart(nodes: seq<Node>, t: Target) returns (hit: Option<Attachment>)
    ensures var parts := NumberedNodes(nodes, 0);
            && (hit.Some? ==> exists k: nat :: FirstMatch(parts, t, k, hit.value))
            && (hit.None? ==> forall k :: 0 <= k < |parts| ==> !Matches(parts[k], t))
  {
    hit := None;
    var selectedIndex := 0;
    ghost var at: nat := 0;
    ghost var seen: seq<Attachment> := [];
    for i := 0 to |nodes|
      invariant seen == NumberedNodes(nodes[..i], 0)
      invariant hit.None? ==> selectedIndex == |seen| && forall k :: 0 <= k < |seen| ==> !Matches(seen[k], t)
      invariant hit.Some? ==> FirstMatch(seen, t, at, hit.value)
    {
      NumberedNodesAppend(nodes[..i], [nodes[i]], 0);
      assert nodes[..i + 1] == nodes[..i] + [nodes[i]];
      var selected := SelectPart(nodes[i]);
      ghost var next := if selected then [DescribeNode(nodes[i], |seen|)] else [];
      assert NumberedNodes([nodes[i]], |seen|) == next;
      if hit.None? && selected {
        var part := DescribeNode(nodes[i], selectedIndex);
        selectedIndex := selectedIndex + 1;
        if Matches(part, t) {
          hit := Some(part);
          at := |seen|;
        }
      }
      seen := seen + next;
    }
    assert nodes[..|nodes|] == nodes;
  }

  lemma {:induction false} OrdinalIsIndex(ls: seq<LeafPart>, raw: bool, n: nat, k: nat)
    requires k < |Numbered(ls, raw, n)|
    ensures Numbered(ls, raw, n)[k].partOrdinal == n + k
  {
    hide Picks;
    if Picks(ls[0], raw) {
      if k > 0 { OrdinalIsIndex(ls[1..], raw, n + 1, k - 1); }
    } else {
      OrdinalIsIndex(ls[1..], raw, n, k);
    }
  }

  /**
   * Asking the raw message for an attachment row of the structure: where the walks agree, a row without
   * Content-ID finds exactly its own part by ordinal, and one with a Content-ID finds the first part with it.
   */
  method FetchRow(p: Part, k: nat) returns (hit: Option<Attachment>)
    requires WellFormed(p, false) && !AnyDiverges(Leaves(p)) && k < |Numbered(Leaves(p), false, 0)|
    ensures var rows := Numbered(Leaves(p), false, 0);
            && hit.Some? && hit.value.partOrdinal < |rows| && Alike(rows[hit.value.partOrdinal], hit.value)
            && (rows[k].contentId.None? ==> hit.value.partOrdinal == k)
            && (rows[k].contentId.Some? ==>
                  hit.value.contentId == rows[k].contentId
                  && forall j :: 0 <= j < |rows| && rows[j].contentId == rows[k].contentId ==> hit.value.partOrdinal <= j)
  {
    hide WellFormed, AnyDiverges, Leaves, Nodes, Numbered, NumberedNodes, MatchesLegacy;
    var attachments := ExtractStructure(p);
    WalksAgreeExact(p);
    var row := attachments[k];
    var nodes := Nodes(p);
    hit := ExtractPart(nodes, Target(row.contentId, Some(row.partOrdinal), row.filename, row.mimeType));
    ghost var parts := NumberedNodes(nodes, 0);
    forall j | 0 <= j < |attachments| ensures attachments[j].partOrdinal == j && Alike(attachments[j], parts[j]) {
      OrdinalIsIndex(Leaves(p), false, 0, j);
    }
    assert Matches(parts[k], Target(row.contentId, Some(row.partOrdinal), row.filename, row.mimeType));
  }

  // ---- messages the walks number differently ----

  /** An encoded forwarded message, attached without name or Content-ID, before a document. */
  function Misnumbered(): Part {
    Multipart(Header(Some("multipart/mixed"), "", None, None),
              [Embedded(Header(Some(RFC822), "attachment", None, None), "base64", Leaf(Header(Some(PLAIN), "", None, None))),
               Leaf(Header(Some("application/pdf"), "attachment", Some("a.pdf"), None))])
  }

  /** There the structure numbers the document 1, but the raw walk numbers it 0: row 0 would be served the document. */
  lemma {:induction false} EncodedAttachmentShifts()
    ensures WellFormed(Misnumbered(), false)
    ensures var rows, parts := Numbered(Leaves(Misnumbered()), false, 0), NumberedNodes(Nodes(Misnumbered()), 0);
            |rows| == 2 && rows[1].filename == Some("a.pdf") && |parts| == 1 && parts[0].filename == Some("a.pdf")
  {
    var e := Embedded(Header(Some(RFC822), "attachment", None, None), "base64", Leaf(Header(Some(PLAIN), "", None, None)));
    var d := Leaf(Header(Some("application/pdf"), "attachment", Some("a.pdf"), None));
    var ps := [e, d];
    assert Misnumbered().children == ps;
    assert ps[1..] == [d] && [d][1..] == [];
    assert LeavesOf([d]) == Leaves(d) + LeavesOf([]) == [LeafPart(d.header, Simple, true, true)];
    var ls := Leaves(Misnumbered());
    assert ls == [LeafPart(e.header, Closed, true, true), LeafPart(d.header, Simple, true, true)];
    assert ls[1..] == [LeafPart(d.header, Simple, true, true)] && ls[1..][1..] == [];
    StreamNumbersLeaves(Misnumbered(), 0);
  }

  /** An inline picture without filename whose Content-ID field is empty: one part for the raw walk, none for the structure. */
  lemma {:induction false} EmptyContentIdShifts()
    ensures var p := Leaf(Header(Some("image/png"), "inline", None, Some("")));
            WellFormed(p, false) && |NumberedNodes(Nodes(p), 0)| == 1 && Numbered(Leaves(p), false, 0) == []
  {
    var p := Leaf(Header(Some("image/png"), "inline", None, Some("")));
    assert "image/png"[0] == 'i' && "text/"[0] == 't' && RFC822[0] == 'm';
    assert |Leaves(p)| == 1 && Leaves(p)[1..] == [];
    StreamNumbersLeaves(p, 0);
  }

  /** An inline part with a Content-ID but no Content-Type: text for the structure, a part for the raw walk. */
  lemma {:induction false} UntypedPartShifts(cid: string)
    requires cid != ""
    ensures var p := Leaf(Header(None, "inline", None, Some(cid)));
            WellFormed(p, false) && |NumberedNodes(Nodes(p), 0)| == 1 && Numbered(Leaves(p), false, 0) == []
  {
    var p := Leaf(Header(None, "inline", None, Some(cid)));
    assert |Leaves(p)| == 1 && Leaves(p)[1..] == [];
    StreamNumbersLeaves(p, 0);
    assert StartsWith(PLAIN, "text/");
  }

  /** A digest of one message with an attachment: the structure has the attachment, the raw walk has none. */
  lemma {:induction false} DigestHides(name: string)
    ensures var body := Leaf(Header(Some("application/pdf"), "attachment", Some(name), None));
            var p := Multipart(Header(Some(DIGEST), "", None, None), [Digested(Header(None, "", None, None), "", body)]);
            WellFormed(p, false) && |Numbered(Leaves(p), false, 0)| == 1 && NumberedNodes(Nodes(p), 0) == []
  {
    var body := Leaf(Header(Some("application/pdf"), "attachment", Some(name), None));
    var d := Digested(Header(None, "", None, None), "", body);
    assert "application/pdf"[0] == 'a' && RFC822[1] == 'e' && DIGEST[1] == 'u' && RFC822[0] == 'm';
    assert [d][1..] == [];
    assert Leaves(body)[1..] == [];
    NumberedDigested(d.header, Leaves(body), 0);
    var p := Multipart(Header(Some(DIGEST), "", None, None), [d]);
    assert Leaves(p) == Leaves(d) + LeavesOf([]) == Leaves(d);
    StreamNumbersLeaves(p, 0);
  }
}
