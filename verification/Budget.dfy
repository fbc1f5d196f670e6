/**
 * The per-day download budget (imap/budget.ts) under concurrent downloaders that check before they
 * start and record when they finish, and a day that may roll in between.
 */
module Budget {
  import opened Wrappers

  /** The persisted counter row. */
  datatype Stored = Stored(day: int, spent: int)

  datatype Counter = Counter(row: Option<Stored>, today: int)

  /** What counts as spent today: an absent, unreadable or older row reads as a fresh zero. */
  function Spent(c: Counter): (n: nat)
    ensures c.row.Some? && c.row.value.day == c.today && c.row.value.spent >= 0 ==> n == c.row.value.spent
    ensures c.row.None? || c.row.value.day != c.today ==> n == 0
  {
    if c.row.Some? && c.row.value.day == c.today && c.row.value.spent > 0 then c.row.value.spent else 0
  }

  function Record(c: Counter, bytes: int): Counter {
    if bytes <= 0 then c else c.(row := Some(Stored(c.today, Spent(c) + bytes)))
  }

  /** The counter with the number of downloads on the wire. */
  datatype State = State(counter: Counter, active: nat)

  datatype Event = Start | Finish(bytes: nat) | Abort | Day(day: int)

  /** `limit` bytes a day, at most `k` downloaders at once. A download that fails records nothing. */
  function Step(s: State, e: Event, limit: nat, k: nat): State {
    match e
    case Start => if s.active < k && Spent(s.counter) < limit then s.(active := s.active + 1) else s
    case Finish(bytes) => if s.active == 0 then s else State(Record(s.counter, bytes), s.active - 1)
    case Abort => if s.active == 0 then s else s.(active := s.active - 1)
    case Day(d) => s.(counter := s.counter.(today := d))
  }

  function Run(s: State, es: seq<Event>, limit: nat, k: nat): State {
    if es == [] then s else Step(Run(s, es[..|es| - 1], limit, k), es[|es| - 1], limit, k)
  }

  predicate AtMost(es: seq<Event>, most: nat) {
    forall i :: 0 <= i < |es| ==> es[i].Finish? ==> es[i].bytes <= most
  }

  /** The clock never goes back during the run. */
  predicate Forward(s: State, es: seq<Event>, limit: nat, k: nat) {
    es == [] ||
    (var front, e := es[..|es| - 1], es[|es| - 1];
     Forward(s, front, limit, k) && (e.Day? ==> e.day >= Run(s, front, limit, k).counter.today))
  }

  function Idle(today: int): State {
    State(Counter(None, today), 0)
  }

  /** The recorded total, for whichever day it was written, and what the downloads on the wire may still add today. */
  ghost predicate Bounded(s: State, limit: nat, k: nat, most: nat) {
    && s.active <= k
    && (s.counter.row.Some? ==>
          limit > 0 && s.counter.row.value.day <= s.counter.today && 0 <= s.counter.row.value.spent <= limit - 1 + k * most)
    && (if limit > 0 then Spent(s.counter) + s.active * most <= limit - 1 + k * most else s.active == 0)
  }

  lemma {:induction false} StepBounded(s: State, e: Event, limit: nat, k: nat, most: nat)
    requires Bounded(s, limit, k, most) && (e.Finish? ==> e.bytes <= most) && (e.Day? ==> e.day >= s.counter.today)
    ensures Bounded(Step(s, e, limit, k), limit, k, most)
  {
    var t := Step(s, e, limit, k);
    ProductStep(s.active, t.active, k, most);
    if e.Start? && t != s {
      assert (s.active + 1) * most <= k * most;
    }
  }

  /**
   * With a positive budget, at most `k` downloads at once and messages of at most `most` bytes, the
   * spend recorded for a day never exceeds `limit - 1 + k * most`, whatever the interleaving - also with
   * downloads that start on one day and finish on a later one. With no budget nothing is ever recorded.
   */
  lemma {:induction false} SpendBounded(today: int, es: seq<Event>, limit: nat, k: nat, most: nat)
    requires AtMost(es, most) && Forward(Idle(today), es, limit, k)
    ensures var s := Run(Idle(today), es, limit, k);
            Bounded(s, limit, k, most) && Spent(s.counter) <= if limit > 0 then limit - 1 + k * most else 0
  {
    assert k * most >= 0;
    if es != [] {
      var front, e := es[..|es| - 1], es[|es| - 1];
      assert AtMost(front, most);
      SpendBounded(today, front, limit, k, most);
      StepBounded(Run(Idle(today), front, limit, k), e, limit, k, most);
    }
    var s := Run(Idle(today), es, limit, k);
    ProductStep(s.active, s.active, k, most);
  }

  lemma {:induction false} ProductStep(a: nat, b: nat, k: nat, most: nat)
    requires a <= k && b <= k
    ensures a * most <= k * most && b * most <= k * most && 0 <= a * most
    ensures b == a + 1 ==> b * most == a * most + most
    ensures b == a - 1 ==> b * most == a * most - most
  {
    assert (k - a) * most >= 0 && (k - b) * most >= 0;
  }

  function Times(es: seq<Event>, n: nat): seq<Event> {
    if n == 0 then [] else Times(es, n - 1) + es
  }

  lemma {:induction false} RunAppend(s: State, es: seq<Event>, fs: seq<Event>, limit: nat, k: nat)
    ensures Run(s, es + fs, limit, k) == Run(Run(s, es, limit, k), fs, limit, k)
    decreases |fs|
  {
    if fs == [] {
      assert es + fs == es;
    } else {
      RunAppend(s, es, fs[..|fs| - 1], limit, k);
      assert (es + fs)[..|es + fs| - 1] == es + fs[..|fs| - 1];
    }
  }

  /** One-byte downloads, one after another, spend `n` bytes while the budget lasts. */
  lemma {:induction false} SpendSingly(today: int, n: nat, limit: nat, k: nat)
    requires n < limit && k > 0
    ensures var s := Run(Idle(today), Times([Start, Finish(1)], n), limit, k);
            s.active == 0 && Spent(s.counter) == n && s.counter.today == today
  {
    if n > 0 {
      SpendSingly(today, n - 1, limit, k);
      var es := Times([Start, Finish(1)], n - 1);
      var s0 := Idle(today);
      RunAppend(s0, es, [Start, Finish(1)], limit, k);
      var s := Run(s0, es, limit, k);
      assert [Start, Finish(1)][..1] == [Start] && [Start][..0] == [];
      assert Run(s, [Start], limit, k) == Step(s, Start, limit, k);
      assert Run(s, [Start, Finish(1)], limit, k) == Step(Run(s, [Start], limit, k), Finish(1), limit, k);
    }
  }

  lemma {:induction false} StartAll(s: State, n: nat, limit: nat, k: nat)
    requires s.active == 0 && n <= k && Spent(s.counter) < limit
    ensures Run(s, Times([Start], n), limit, k) == s.(active := n)
  {
    if n > 0 {
      StartAll(s, n - 1, limit, k);
      assert Times([Start], n)[..|Times([Start], n)| - 1] == Times([Start], n - 1);
    }
  }

  lemma {:induction false} FinishAll(s: State, n: nat, most: nat, limit: nat, k: nat)
    requires n <= s.active && most > 0
    ensures var t := Run(s, Times([Finish(most)], n), limit, k);
            t.active == s.active - n && t.counter.today == s.counter.today && Spent(t.counter) == Spent(s.counter) + n * most
  {
    if n > 0 {
      FinishAll(s, n - 1, most, limit, k);
      assert Times([Finish(most)], n)[..|Times([Finish(most)], n)| - 1] == Times([Finish(most)], n - 1);
      assert n * most == (n - 1) * most + most;
    }
  }

  lemma {:induction false} NoDaysForward(s: State, es: seq<Event>, limit: nat, k: nat)
    requires forall i :: 0 <= i < |es| ==> !es[i].Day?
    ensures Forward(s, es, limit, k)
  {
    if es != [] {
      NoDaysForward(s, es[..|es| - 1], limit, k);
    }
  }

  lemma {:induction false} TimesAtMost(es: seq<Event>, n: nat, most: nat)
    requires AtMost(es, most) && forall i :: 0 <= i < |es| ==> !es[i].Day?
    ensures AtMost(Times(es, n), most) && forall i :: 0 <= i < |Times(es, n)| ==> !Times(es, n)[i].Day?
  {
    if n > 0 {
      TimesAtMost(es, n - 1, most);
    }
  }

  /** Spend all but one byte of the budget, start every downloader, let them all finish. */
  function Greedy(limit: nat, k: nat, most: nat): seq<Event>
    requires limit > 0
  {
    Times([Start, Finish(1)], limit - 1) + Times([Start], k) + Times([Finish(most)], k)
  }

  lemma {:induction false} GreedyIsLegal(today: int, limit: nat, k: nat, most: nat)
    requires limit > 0 && most > 0
    ensures AtMost(Greedy(limit, k, most), most) && Forward(Idle(today), Greedy(limit, k, most), limit, k)
  {
    TimesAtMost([Start, Finish(1)], limit - 1, most);
    TimesAtMost([Start], k, most);
    TimesAtMost([Finish(most)], k, most);
    NoDaysForward(Idle(today), Greedy(limit, k, most), limit, k);
  }

  lemma {:induction false} GreedyEnds(today: int, limit: nat, k: nat, most: nat)
    requires limit > 0 && k > 0 && most > 0
    ensures var s := Run(Idle(today), Greedy(limit, k, most), limit, k);
            s.active == 0 && s.counter.today == today && Spent(s.counter) == limit - 1 + k * most
  {
    var s0 := Idle(today);
    var a, b, c := Times([Start, Finish(1)], limit - 1), Times([Start], k), Times([Finish(most)], k);
    SpendSingly(today, limit - 1, limit, k);
    StartAll(Run(s0, a, limit, k), k, limit, k);
    FinishAll(Run(Run(s0, a, limit, k), b, limit, k), k, most, limit, k);
    RunAppend(s0, a, b, limit, k);
    RunAppend(s0, a + b, c, limit, k);
  }

  /** The bound is exact: this run spends all of it in one day. */
  lemma {:induction false} BoundReached(today: int, limit: nat, k: nat, most: nat)
    requires limit > 0 && k > 0 && most > 0
    ensures Spent(Run(Idle(today), Greedy(limit, k, most), limit, k).counter) == limit - 1 + k * most
  {
    GreedyEnds(today, limit, k, most);
  }

  /** Spend all of it, start every downloader again on another day, set the clock back, let them finish. */
  function SetBack(today: int, day: int, limit: nat, k: nat, most: nat): seq<Event>
    requires limit > 0
  {
    Greedy(limit, k, most) + ([Day(day)] + Times([Start], k)) + ([Day(today)] + Times([Finish(most)], k))
  }

  lemma {:induction false} DayThen(s: State, day: int, es: seq<Event>, limit: nat, k: nat)
    ensures Run(s, [Day(day)] + es, limit, k) == Run(Step(s, Day(day), limit, k), es, limit, k)
  {
    RunAppend(s, [Day(day)], es, limit, k);
    assert [Day(day)][..0] == [];
    assert Run(s, [Day(day)], limit, k) == Step(s, Day(day), limit, k);
  }

  lemma {:induction false} SetBackSpends(today: int, day: int, limit: nat, k: nat, most: nat)
    requires limit > 0 && k > 0 && most > 0 && day > today
    ensures Spent(Run(Idle(today), SetBack(today, day, limit, k, most), limit, k).counter) == limit - 1 + 2 * (k * most)
  {
    hide Run, Times, Greedy;
    var s0, greedy := Idle(today), Greedy(limit, k, most);
    var starts, finishes := Times([Start], k), Times([Finish(most)], k);
    GreedyEnds(today, limit, k, most);
    var s1 := Run(s0, greedy, limit, k);
    var s2 := Step(s1, Day(day), limit, k);
    DayThen(s1, day, starts, limit, k);
    StartAll(s2, k, limit, k);
    var s3 := Step(s2.(active := k), Day(today), limit, k);
    DayThen(s2.(active := k), today, finishes, limit, k);
    FinishAll(s3, k, most, limit, k);
    RunAppend(s0, greedy, [Day(day)] + starts, limit, k);
    RunAppend(s0, greedy + ([Day(day)] + starts), [Day(today)] + finishes, limit, k);
  }

  /**
   * The forward clock is needed for every budget: set back, it finds the old day's total again, and the
   * downloads of the later day go on top of it.
   */
  lemma {:induction false} ClockSetBack(today: int, day: int, limit: nat, k: nat, most: nat)
    requires limit > 0 && k > 0 && most > 0 && day > today
    ensures var es := SetBack(today, day, limit, k, most);
            && AtMost(es, most) && !Forward(Idle(today), es, limit, k)
            && Spent(Run(Idle(today), es, limit, k).counter) == limit - 1 + 2 * (k * most) > limit - 1 + k * most
  {
    hide Run, Times, Greedy, SetBack;
    SetBackSizes(today, day, limit, k, most);
    SetBackSpends(today, day, limit, k, most);
    assert k * most > 0;
    if Forward(Idle(today), SetBack(today, day, limit, k, most), limit, k) {
      SpendBounded(today, SetBack(today, day, limit, k, most), limit, k, most);
    }
  }

  lemma {:induction false} SetBackSizes(today: int, day: int, limit: nat, k: nat, most: nat)
    requires limit > 0 && most > 0
    ensures AtMost(SetBack(today, day, limit, k, most), most)
  {
    GreedyIsLegal(today, limit, k, most);
    TimesAtMost([Start], k, most);
    TimesAtMost([Finish(most)], k, most);
  }

  /** The counter as the program keeps it: read, rolled to today, written back in one transaction. */
  class Ledger {
    var row: Option<Stored>
    const limit: nat

    ghost function At(today: int): Counter
      reads this
    {
      Counter(row, today)
    }

    constructor (limit: nat)
      ensures row == None && this.limit == limit
    {
      row, this.limit := None, limit;
    }

    method ReadState(today: int) returns (state: Stored)
      ensures state == Stored(today, Spent(At(today)))
    {
      if row.Some? && row.value.day == today {
        return Stored(today, if row.value.spent > 0 then row.value.spent else 0);
      }
      return Stored(today, 0);
    }

    method BudgetRemaining(today: int) returns (bytes: nat)
      ensures bytes == if Spent(At(today)) < limit then limit - Spent(At(today)) else 0
    {
      var state := ReadState(today);
      bytes := if limit - state.spent > 0 then limit - state.spent else 0;
    }

    method CanDownloadSource(today: int) returns (ok: bool)
      ensures ok <==> Spent(At(today)) < limit
    {
      var left := BudgetRemaining(today);
      ok := left > 0;
    }

    method RecordDownloadedBytes(today: int, bytes: int)
      modifies this`row
      ensures At(today) == Record(old(At(today)), bytes)
    {
      if bytes <= 0 {
        return;
      }
      var state := ReadState(today);
      row := Some(Stored(state.day, state.spent + bytes));
    }
  }
}
