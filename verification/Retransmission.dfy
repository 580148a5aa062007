/** ClntMessages/ClntMsg.cpp: when a message is sent again, and for how long.
    Section 14 of RFC 3315.  A random draw is any real in [-0.1, 0.1]; a cast of
    a non-negative double to int is its floor. */
module Retransmission {

  datatype Kind = Solicit | Request | Confirm | Renew | Rebind | Release | Decline

  const REQ_MAX_RC := 10
  const REL_MAX_RC := 5
  const DEC_MAX_RC := 5

  datatype Timing = Timing(irt: int, mrt: int, mrc: int, mrd: int, rc: int, rt: int)

  /** The parameters each constructor sets; `mrd` matters for RENEW and REBIND. */
  function Initial(kind: Kind, mrd: int): Timing {
    match kind
    case Solicit => Timing(1, 120, 0, 0, 0, 0)
    case Request => Timing(1, 30, REQ_MAX_RC, 0, 0, 0)
    case Confirm => Timing(1, 4, 0, 10, 0, 0)
    case Renew => Timing(10, 600, 0, mrd, 0, 0)
    case Rebind => Timing(10, 600, 0, mrd, 0, 0)
    case Release => Timing(1, 0, REL_MAX_RC, 0, 0, 0)
    case Decline => Timing(1, 0, DEC_MAX_RC, 0, 0, 0)
  }

  predicate Draw(r: real) {
    -0.1 <= r <= 0.1
  }

  function Cast(x: real): int {
    if x >= 0.0 then x.Floor else -(-x).Floor
  }

  /** A tenth of `n` at most, either way. */
  function Jitter(n: int, r: real): real {
    n as real * r
  }

  /** `base` with the jitter of `n`, rounded. */
  function Spread(base: int, n: int, r: real): int {
    Cast(0.5 + base as real + Jitter(n, r))
  }

  /** The next retransmission time before the duration cap. */
  function Uncapped(t: Timing, r1: real, r2: real): int {
    var rt := if t.rc == 0 then Spread(t.irt, t.irt, r1) else Spread(2 * t.rt, t.rt, r1);
    if t.mrt != 0 && rt > t.mrt then Spread(t.mrt, t.mrt, r2) else rt
  }

  function Sent(t: Timing, r1: real, r2: real): Timing {
    var u := Uncapped(t, r1, r2);
    var rt := if t.mrd != 0 && u > t.mrd then t.mrd else u;
    t.(rt := rt, rc := t.rc + 1, mrd := if t.mrd != 0 then t.mrd - rt else 0)
  }

  /** What `doDuties` tests to decide that a message has been sent often enough. */
  predicate Exhausted(kind: Kind, t: Timing) {
    match kind
    case Solicit => false
    case Request => t.rc > t.mrc
    case Confirm => t.mrd == 0
    case Renew => t.mrd == 0
    case Rebind => t.mrd == 0
    case Release => t.rc == t.mrc
    case Decline => t.rc == t.mrc
  }

  ghost predicate WellFormed(t: Timing) {
    && t.irt >= 1 && t.mrt >= 0 && t.mrc >= 0 && t.mrd >= 0 && t.rc >= 0
    && (t.rc > 0 ==> t.rt >= 1)
  }

  // -- the object -------------------------------------------------------------

  /** One poll of the transaction list: the clock and two random draws. */
  datatype Poll = Poll(now: int, r1: real, r2: real)

  /** What a message is doing: `last` is when it was last sent, `sends` the time of
      every transmission, `gaveUp` the time at which it stopped unanswered. */
  datatype Status = Status(timing: Timing, last: int, sends: seq<int>, waited: int, gaveUp: int, done: bool)

  function Transmit(st: Status, p: Poll): Status {
    var t := Sent(st.timing, p.r1, p.r2);
    st.(timing := t, last := p.now, sends := st.sends + [p.now], waited := st.waited + t.rt)
  }

  /** The constructor sends once. */
  function Born(t: Timing, p: Poll): Status {
    Transmit(Status(t, p.now, [], 0, 0, false), p)
  }

  function Timeout(kind: Kind, st: Status, now: int): int {
    if kind.Confirm? || st.last + st.timing.rt - now < 0 then 0 else st.last + st.timing.rt - now
  }

  /** One pass of the transaction manager over an unanswered message. */
  function Step(kind: Kind, st: Status, p: Poll): Status {
    if st.done || Timeout(kind, st, p.now) != 0 then st
    else if Exhausted(kind, st.timing) then st.(done := true, gaveUp := p.now)
    else Transmit(st, p)
  }

  function Run(kind: Kind, st: Status, polls: seq<Poll>): Status
    decreases |polls|
  {
    if polls == [] then st else Run(kind, Step(kind, st, polls[0]), polls[1..])
  }

  ghost predicate Polls(from: int, polls: seq<Poll>) {
    && (forall i :: 0 <= i < |polls| ==> polls[i].now >= from && Draw(polls[i].r1) && Draw(polls[i].r2))
    && (forall i, j :: 0 <= i <= j < |polls| ==> polls[i].now <= polls[j].now)
  }

  class ClntMsg {
    const kind: Kind
    const IRT: int
    const MRT: int
    const MRC: int
    var MRD: int
    var RC: int
    var RT: int
    var LastTimeStamp: int
    var IsDone: bool
    ghost var sends: seq<int>
    ghost var waited: int
    ghost var gaveUp: int

    ghost function View(): Status
      reads this
    {
      Status(Timing(IRT, MRT, MRC, MRD, RC, RT), LastTimeStamp, sends, waited, gaveUp, IsDone)
    }

    constructor (kind: Kind, mrd: int, p: Poll)
      ensures this.kind == kind && View() == Born(Initial(kind, mrd), p)
    {
      var t := Initial(kind, mrd);
      this.kind := kind;
      IRT, MRT, MRC, MRD, RC, RT := t.irt, t.mrt, t.mrc, t.mrd, 0, 0;
      LastTimeStamp, IsDone := p.now, false;
      sends, waited, gaveUp := [], 0, 0;
      new;
      Send(p);
    }

    method GetTimeout(now: int) returns (r: int)
      ensures r == Timeout(kind, View(), now)
    {
      if kind.Confirm? {
        return 0;
      }
      var diff := LastTimeStamp + RT - now;
      r := if diff < 0 then 0 else diff;
    }

    method Send(p: Poll)
      modifies this
      ensures View() == Transmit(old(View()), p)
    {
      if RC == 0 {
        RT := Spread(IRT, IRT, p.r1);
      } else {
        RT := Spread(2 * RT, RT, p.r1);
      }
      if MRT != 0 && RT > MRT {
        RT := Spread(MRT, MRT, p.r2);
      }
      if MRD != 0 && RT > MRD {
        RT := MRD;
      }
      if MRD != 0 {
        MRD := MRD - RT;
      }
      RC := RC + 1;
      LastTimeStamp := p.now;
      sends := sends + [p.now];
      waited := waited + RT;
    }

    /** `doDuties` of the message under the guard of the transaction manager's loop. */
    method OnPoll(p: Poll)
      modifies this
      ensures View() == Step(kind, old(View()), p)
    {
      var timeout := GetTimeout(p.now);
      if timeout != 0 || IsDone {
        return;
      }
      var enough := match kind {
        case Solicit => false
        case Request => RC > MRC
        case Release => RC == MRC
        case Decline => RC == MRC
        case _ => MRD == 0
      };
      if enough {
        IsDone := true;
        gaveUp := p.now;
      } else {
        Send(p);
      }
    }
  }

  // -- bounds -----------------------------------------------------------------

  lemma {:induction false} NonNegative(a: real, b: real)
    requires a >= 0.0 && b >= 0.0
    ensures a * b >= 0.0
  {
  }

  lemma {:induction false} JitterBounds(n: int, r: real)
    requires n >= 0 && Draw(r)
    ensures -0.1 * n as real <= Jitter(n, r) <= 0.1 * n as real
  {
    var x := n as real;
    NonNegative(x, r + 0.1);
    NonNegative(x, 0.1 - r);
    assert x * (r + 0.1) == x * r + 0.1 * x;
    assert x * (0.1 - r) == 0.1 * x - x * r;
  }

  lemma {:induction false} FloorMonotone(x: real, y: real)
    requires x <= y
    ensures x.Floor <= y.Floor
  {
  }

  lemma {:induction false} CastBounds(base: int, n: int, jitter: real)
    requires 0 <= n <= base && -0.1 * n as real <= jitter <= 0.1 * n as real
    ensures n >= 1 ==> Cast(0.5 + base as real + jitter) >= 1
    ensures base == n ==> Cast(0.5 + base as real + jitter) <= (0.5 + 1.1 * n as real).Floor
  {
    var x := 0.5 + base as real + jitter;
    assert x >= 0.5 + 0.9 * n as real;
    if n >= 1 {
      FloorMonotone(1.0, x);
    }
    if base == n {
      FloorMonotone(x, 0.5 + 1.1 * n as real);
    }
  }

  lemma {:induction false} SpreadBounds(base: int, n: int, r: real)
    requires 0 <= n <= base && Draw(r)
    ensures n >= 1 ==> Spread(base, n, r) >= 1
    ensures base == n ==> Spread(base, n, r) <= (0.5 + 1.1 * n as real).Floor
  {
    hide Jitter;
    JitterBounds(n, r);
    CastBounds(base, n, Jitter(n, r));
  }

  /** Whatever is drawn, a wait is at least one second and, when MRT is set, at
      most floor(0.5 + 1.1 MRT). */
  lemma {:induction false} UncappedBounds(t: Timing, r1: real, r2: real)
    requires WellFormed(t) && Draw(r1) && Draw(r2)
    ensures Uncapped(t, r1, r2) >= 1
    ensures t.mrt != 0 ==> Uncapped(t, r1, r2) <= (0.5 + 1.1 * t.mrt as real).Floor
  {
    hide Spread;
    SpreadBounds(t.irt, t.irt, r1);
    SpreadBounds(t.mrt, t.mrt, r2);
    if t.rc > 0 {
      SpreadBounds(2 * t.rt, t.rt, r1);
    }
    if t.mrt != 0 {
      assert t.mrt as real <= 0.5 + 1.1 * t.mrt as real;
    }
  }

  lemma {:induction false} SentBounds(t: Timing, r1: real, r2: real)
    requires WellFormed(t) && Draw(r1) && Draw(r2)
    ensures WellFormed(Sent(t, r1, r2))
    ensures Sent(t, r1, r2).rt >= 1
    ensures t.mrt != 0 ==> Sent(t, r1, r2).rt <= (0.5 + 1.1 * t.mrt as real).Floor
    ensures t.mrd > 0 ==> 0 <= Sent(t, r1, r2).mrd < t.mrd && Sent(t, r1, r2).mrd + Sent(t, r1, r2).rt == t.mrd
  {
    hide Uncapped;
    UncappedBounds(t, r1, r2);
  }

  // -- whole runs -------------------------------------------------------------

  ghost predicate HasBudget(kind: Kind) {
    kind.Renew? || kind.Rebind? || kind.Confirm?
  }

  /** What every poll keeps: `start` is the time of the first transmission and
      `budget` the initial MRD. */
  ghost predicate Running(kind: Kind, st: Status, start: int, budget: int) {
    var t := st.timing;
    && WellFormed(t) && t.rt >= 1
    && t == Initial(kind, budget).(mrd := t.mrd, rc := t.rc, rt := t.rt)
    && t.rc == |st.sends| >= 1
    && (t.mrt != 0 ==> t.rt <= (0.5 + 1.1 * t.mrt as real).Floor)
    && (HasBudget(kind) && budget > 0 ==>
        st.waited + t.mrd == (if kind.Confirm? then 10 else budget) && st.waited >= |st.sends|)
    && (!kind.Confirm? ==> st.last + t.rt >= start + st.waited)
    && (st.done ==> Exhausted(kind, t))
    && (st.done && !kind.Confirm? ==> st.gaveUp >= start + st.waited)
    && (kind.Release? || kind.Decline? ==> t.rc <= t.mrc)
    && (kind.Request? ==> t.rc <= t.mrc + 1)
  }

  lemma {:induction false} BornRunning(kind: Kind, budget: int, p: Poll)
    requires budget >= 0 && Draw(p.r1) && Draw(p.r2)
    ensures Running(kind, Born(Initial(kind, budget), p), p.now, budget)
  {
    SentBounds(Initial(kind, budget), p.r1, p.r2);
  }

  lemma {:induction false} StepRunning(kind: Kind, st: Status, p: Poll, start: int, budget: int)
    requires Running(kind, st, start, budget) && Draw(p.r1) && Draw(p.r2)
    ensures Running(kind, Step(kind, st, p), start, budget)
    ensures HasBudget(kind) && budget > 0 && Step(kind, st, p) != st && !Step(kind, st, p).done ==>
              0 <= Step(kind, st, p).timing.mrd < st.timing.mrd
  {
    SentBounds(st.timing, p.r1, p.r2);
  }

  lemma {:induction false} RunRunning(kind: Kind, st: Status, polls: seq<Poll>, start: int, budget: int)
    requires Running(kind, st, start, budget) && Polls(start, polls)
    ensures Running(kind, Run(kind, st, polls), start, budget)
    decreases |polls|
  {
    if polls != [] {
      StepRunning(kind, st, polls[0], start, budget);
      RunRunning(kind, Step(kind, st, polls[0]), polls[1..], start, budget);
    }
  }

  /** The state of a message of `kind` with initial MRD `mrd`, created at poll `p`,
      after any further polls. */
  function Life(kind: Kind, mrd: int, p: Poll, polls: seq<Poll>): Status {
    Run(kind, Born(Initial(kind, mrd), p), polls)
  }

  ghost predicate Scenario(mrd: int, p: Poll, polls: seq<Poll>) {
    mrd >= 0 && Draw(p.r1) && Draw(p.r2) && Polls(p.now, polls)
  }

  /** Budget: the waits chosen so far and the MRD left always add up to the initial
      MRD, and a message that gave up has spent all of it. */
  lemma {:induction false} BudgetConserved(kind: Kind, mrd: int, p: Poll, polls: seq<Poll>)
    requires Scenario(mrd, p, polls) && HasBudget(kind) && mrd > 0
    ensures var st := Life(kind, mrd, p, polls); var all := if kind.Confirm? then 10 else mrd;
            && st.waited + st.timing.mrd == all && st.timing.mrd >= 0
            && |st.sends| <= all
            && (st.done ==> st.waited == all)
  {
    BornRunning(kind, mrd, p);
    RunRunning(kind, Born(Initial(kind, mrd), p), polls, p.now, mrd);
  }

  /** RENEW and REBIND never give up before their MRD has gone by on the clock. */
  lemma {:induction false} NotBeforeMrd(kind: Kind, mrd: int, p: Poll, polls: seq<Poll>)
    requires Scenario(mrd, p, polls) && (kind.Renew? || kind.Rebind?)
    ensures var st := Life(kind, mrd, p, polls); st.done ==> st.gaveUp >= p.now + mrd
  {
    BornRunning(kind, mrd, p);
    RunRunning(kind, Born(Initial(kind, mrd), p), polls, p.now, mrd);
    RunWaited(kind, Born(Initial(kind, mrd), p), polls);
  }

  /** Time already waited is never given back. */
  lemma {:induction false} RunWaited(kind: Kind, st: Status, polls: seq<Poll>)
    requires WellFormed(st.timing)
    requires forall i :: 0 <= i < |polls| ==> Draw(polls[i].r1) && Draw(polls[i].r2)
    ensures Run(kind, st, polls).waited >= st.waited
    decreases |polls|
  {
    if polls != [] {
      SentBounds(st.timing, polls[0].r1, polls[0].r2);
      RunWaited(kind, Step(kind, st, polls[0]), polls[1..]);
    }
  }

  /** An unanswered RELEASE or DECLINE is transmitted MRC times, a REQUEST once more
      than MRC; no message is ever sent more often than that. */
  lemma {:induction false} TransmissionCount(kind: Kind, p: Poll, polls: seq<Poll>)
    requires Scenario(0, p, polls) && (kind.Release? || kind.Decline? || kind.Request?)
    ensures var st := Life(kind, 0, p, polls);
            var n := match kind { case Release => REL_MAX_RC case Decline => DEC_MAX_RC case _ => REQ_MAX_RC + 1 };
            |st.sends| <= n && (st.done ==> |st.sends| == n)
  {
    BornRunning(kind, 0, p);
    RunRunning(kind, Born(Initial(kind, 0), p), polls, p.now, 0);
  }

  /** The wait stays in bounds for every random draw, over any number of sends. */
  lemma {:induction false} WaitBounds(kind: Kind, mrd: int, p: Poll, polls: seq<Poll>)
    requires Scenario(mrd, p, polls)
    ensures var t := Life(kind, mrd, p, polls).timing;
            t.rt >= 1 && (t.mrt != 0 ==> t.rt <= (0.5 + 1.1 * t.mrt as real).Floor)
  {
    BornRunning(kind, mrd, p);
    RunRunning(kind, Born(Initial(kind, mrd), p), polls, p.now, mrd);
  }

  /** Every poll finds the message due (or already done). */
  ghost predicate AllDue(kind: Kind, st: Status, polls: seq<Poll>)
    decreases |polls|
  {
    polls == [] ||
    ((st.done || Timeout(kind, st, polls[0].now) == 0) && AllDue(kind, Step(kind, st, polls[0]), polls[1..]))
  }

  /** How many more due polls a message can take before it gives up. */
  ghost function Patience(kind: Kind, st: Status): int {
    if st.done then 0
    else match kind
      case Solicit => 0
      case Request => st.timing.mrc + 2 - st.timing.rc
      case Release => st.timing.mrc + 1 - st.timing.rc
      case Decline => st.timing.mrc + 1 - st.timing.rc
      case _ => st.timing.mrd + 1
  }

  /** Termination: unanswered, every message but a SOLICIT gives up after finitely
      many due polls, at most `Patience` of them. */
  lemma {:induction false} GivesUp(kind: Kind, st: Status, polls: seq<Poll>, start: int, budget: int)
    requires !kind.Solicit? && Running(kind, st, start, budget) && Polls(start, polls)
    requires AllDue(kind, st, polls) && |polls| >= Patience(kind, st)
    ensures Run(kind, st, polls).done
    decreases |polls|
  {
    if st.done {
      DoneStays(kind, st, polls);
    } else {
      var next := Step(kind, st, polls[0]);
      SentBounds(st.timing, polls[0].r1, polls[0].r2);
      StepRunning(kind, st, polls[0], start, budget);
      GivesUp(kind, next, polls[1..], start, budget);
    }
  }

  lemma {:induction false} DoneStays(kind: Kind, st: Status, polls: seq<Poll>)
    requires st.done
    ensures Run(kind, st, polls) == st
    decreases |polls|
  {
    if polls != [] {
      DoneStays(kind, st, polls[1..]);
    }
  }
}
