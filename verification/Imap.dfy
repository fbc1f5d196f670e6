/**
 * One mailbox on the server, and a connection to it: between any two commands mail may be delivered or
 * expunged, and any command may fail. UIDs are strictly ascending (section 2.3.1.1 of RFC 3501).
 */
module Imap {
  import opened Wrappers

  /** What makes two copies the same message: the identity the envelope carries. */
  type Identity = nat

  datatype Box = Box(mail: map<nat, Identity>, uidNext: nat)

  datatype ServerStep = Deliver(message: Identity) | Expunge(uid: nat)

  /** A command is answered, answered with an error, or cut off with the connection. */
  datatype Answer = Answered | Refused | Broken

  /** What happens before a command is answered, and how. */
  datatype Turn = Turn(steps: seq<ServerStep>, answer: Answer)

  predicate ValidBox(b: Box) {
    b.uidNext >= 1 && forall u :: u in b.mail ==> 1 <= u < b.uidNext
  }

  function ServerDoes(b: Box, s: ServerStep): Box {
    match s
    case Deliver(m) => Box(b.mail[b.uidNext := m], b.uidNext + 1)
    case Expunge(u) => b.(mail := b.mail - {u})
  }

  function ServerRuns(b: Box, ss: seq<ServerStep>): Box
    decreases |ss|
  {
    if ss == [] then b else ServerRuns(ServerDoes(b, ss[0]), ss[1..])
  }

  /** `b` is `a` some time later: what is there was there under the same UID, or came with a new one. */
  ghost predicate Later(a: Box, b: Box) {
    && a.uidNext <= b.uidNext
    && forall u :: u in b.mail ==> u >= a.uidNext || (u in a.mail && a.mail[u] == b.mail[u])
  }

  lemma {:induction false} LaterSame(b: Box)
    ensures Later(b, b)
  {
  }

  lemma {:induction false} LaterTransitive(a: Box, b: Box, c: Box)
    requires Later(a, b) && Later(b, c)
    ensures Later(a, c)
  {
  }

  lemma {:induction false} ServerMovesOn(b: Box, ss: seq<ServerStep>)
    requires ValidBox(b)
    ensures ValidBox(ServerRuns(b, ss)) && Later(b, ServerRuns(b, ss))
    decreases |ss|
  {
    if ss != [] {
      var c := ServerDoes(b, ss[0]);
      ServerMovesOn(c, ss[1..]);
      LaterTransitive(b, c, ServerRuns(c, ss[1..]));
    }
  }

  predicate Ascending(s: seq<nat>) {
    forall i, j :: 0 <= i < j < |s| ==> s[i] < s[j]
  }

  /** UIDs in ascending order. */
  method Sorted(uids: set<nat>) returns (s: seq<nat>)
    ensures Ascending(s) && forall u :: u in s <==> u in uids
  {
    s := [];
    var left := uids;
    while left != {}
      invariant left <= uids && Ascending(s)
      invariant forall u :: u in s <==> u in uids - left
      invariant forall u, v :: u in s && v in left ==> u < v
      decreases left
    {
      var u := Least(left);
      assert forall i :: 0 <= i < |s| ==> s[i] in s;
      s := s + [u];
      left := left - {u};
    }
  }

  method Least(uids: set<nat>) returns (least: nat)
    requires uids != {}
    ensures least in uids && forall u :: u in uids ==> least <= u
  {
    var u :| u in uids;
    least := u;
    var left := uids - {u};
    while left != {}
      invariant left <= uids && least in uids
      invariant forall v :: v in uids - left ==> least <= v
      decreases left
    {
      var v :| v in left;
      if v < least {
        least := v;
      }
      assert uids - (left - {v}) == uids - left + {v};
      left := left - {v};
    }
    assert uids - {} == uids;
  }

  /** The UIDNEXT a SELECT reported, which may be `lag` messages behind by the time it is used. */
  function ReportedNext(b: Box, lag: nat): (next: nat)
    requires ValidBox(b)
    ensures 1 <= next <= b.uidNext && (lag == 0 ==> next == b.uidNext)
  {
    if lag < b.uidNext then b.uidNext - lag else 1
  }

  /** How many commands of a script fail one way or the other. */
  function Unanswered(script: seq<Turn>): nat {
    if script == [] then 0 else (if script[0].answer.Answered? then 0 else 1) + Unanswered(script[1..])
  }

  predicate Refuses(script: seq<Turn>) {
    script != [] && script[0].answer.Refused?
  }

  predicate Breaks(script: seq<Turn>) {
    script != [] && script[0].answer.Broken?
  }

  /** The server once the next command has been dealt with. */
  function Next(b: Box, script: seq<Turn>): Box {
    if script == [] then b else ServerRuns(b, script[0].steps)
  }

  function Everything(): Identity -> bool {
    m => true
  }

  function Hits(b: Box, wanted: Identity -> bool): set<nat> {
    set u | u in b.mail && wanted(b.mail[u])
  }

  /** A connection. The script decides what the server does and which steps fail; any script may happen. */
  class Session {
    var box: Box
    var script: seq<Turn>
    const parts: Identity -> nat    // how many parts make up a message's body
    ghost var listed: set<Identity> // the messages whose envelope and structure a FETCH delivered
    ghost var loaded: set<Identity> // the messages of which something was downloaded
    ghost var downloads: nat        // how many downloads were asked for
    ghost var asked: nat            // how many UIDs were asked for in FETCHes

    constructor (box: Box, script: seq<Turn>, parts: Identity -> nat)
      ensures this.box == box && this.script == script && this.parts == parts && listed == loaded == {} && downloads == asked == 0
    {
      this.box, this.script, this.parts, listed, loaded, downloads, asked := box, script, parts, {}, {}, 0, 0;
    }

    /** Send one command: the server moves on, then answers or does not. Where it fails, the caller sees an exception. */
    method Command() returns (answered: bool)
      requires ValidBox(box)
      modifies this
      ensures ValidBox(box) && Later(old(box), box) && box == Next(old(box), old(script))
      ensures listed == old(listed) && loaded == old(loaded) && downloads == old(downloads) && asked == old(asked)
      ensures answered <==> !Refuses(old(script)) && !Breaks(old(script))
      ensures Unanswered(old(script)) == Unanswered(script) + if answered then 0 else 1
    {
      if script == [] {
        return true;
      }
      ServerMovesOn(box, script[0].steps);
      answered := script[0].answer.Answered?;
      box := ServerRuns(box, script[0].steps);
      script := script[1..];
    }

    /** SEARCH: an error in its answer reads as an empty list, only a broken connection is an exception. */
    method Search(wanted: Identity -> bool) returns (found: Option<set<nat>>)
      requires ValidBox(box)
      modifies this
      ensures ValidBox(box) && Later(old(box), box) && box == Next(old(box), old(script))
      ensures listed == old(listed) && loaded == old(loaded) && downloads == old(downloads) && asked == old(asked)
      ensures found == if Breaks(old(script)) then None else if Refuses(old(script)) then Some({})
                       else Some(Hits(box, wanted))
      ensures Unanswered(old(script)) == Unanswered(script) + if Breaks(old(script)) || Refuses(old(script)) then 1 else 0
    {
      var broken := Breaks(script);
      var answered := Command();
      if broken {
        found := None;
      } else if !answered {
        found := Some({});
      } else {
        found := Some(Hits(box, wanted));
      }
    }

    /** FETCH of envelope and structure: what the server still has of the UIDs asked for. */
    method Fetch(uids: seq<nat>) returns (captured: Option<map<nat, Identity>>)
      requires ValidBox(box)
      modifies this
      ensures ValidBox(box) && Later(old(box), box) && loaded == old(loaded) && downloads == old(downloads)
      ensures captured.Some? ==> captured.value == (map u | u in uids && u in box.mail :: box.mail[u])
      ensures listed == if captured.Some? then old(listed) + captured.value.Values else old(listed)
      ensures asked == old(asked) + |uids|
      ensures Unanswered(old(script)) == Unanswered(script) + if captured.Some? then 0 else 1
    {
      var answered := Command();
      asked := asked + |uids|;
      if !answered {
        return None;
      }
      captured := Some(map u | u in uids && u in box.mail :: box.mail[u]);
      listed := listed + captured.value.Values;
    }

    /** Download a message or a part of it. */
    method Download(message: Identity) returns (answered: bool)
      requires ValidBox(box)
      modifies this
      ensures ValidBox(box) && Later(old(box), box) && listed == old(listed) && downloads == old(downloads) + 1 && asked == old(asked)
      ensures loaded == if answered then old(loaded) + {message} else old(loaded)
      ensures Unanswered(old(script)) == Unanswered(script) + if answered then 0 else 1
    {
      answered := Command();
      downloads := downloads + 1;
      if answered {
        loaded := loaded + {message};
      }
    }

    /** Write to the local database, which may fail too; a write takes its turn in the script. */
    method Write() returns (written: bool)
      requires ValidBox(box)
      modifies this
      ensures ValidBox(box) && Later(old(box), box) && listed == old(listed) && loaded == old(loaded) && downloads == old(downloads) && asked == old(asked)
      ensures Unanswered(old(script)) == Unanswered(script) + if written then 0 else 1
    {
      written := Command();
    }
  }

  /** What the connection has given so far, how many downloads it was asked for, and how many steps may still fail. */
  datatype Link = Link(listed: set<Identity>, loaded: set<Identity>, downloads: nat, failures: nat)

  ghost function LinkOf(s: Session): Link
    reads s
  {
    Link(s.listed, s.loaded, s.downloads, Unanswered(s.script))
  }

  /** Nothing given is taken back, and no failure comes back. */
  ghost predicate Onward(a: Link, b: Link) {
    a.listed <= b.listed && a.loaded <= b.loaded && a.downloads <= b.downloads && b.failures <= a.failures
  }
}
