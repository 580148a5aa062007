/** The schedule of retransmissions in plain numbers, for every draw and every polling
    (section 14 of RFC 3315; the constants are those of its section 5.5). */
module Backoff {
  import opened Retransmission

  /** Tenths of seconds: `x` seconds lie between `low` and `high`, half a second either way. */
  predicate Near(x: int, low: int, high: int) {
    low - 5 < 10 * x <= high + 5
  }

  /** The longest retransmission time of each message; 0 is none. */
  function Cap(kind: Kind): int {
    match kind
    case Solicit => 120
    case Request => 30
    case Confirm => 4
    case Renew => 600
    case Rebind => 600
    case Release => 0
    case Decline => 0
  }

  lemma {:induction false} SpreadNear(base: int, n: int, r: real)
    requires 0 <= n <= base && Draw(r)
    ensures Near(Spread(base, n, r), 10 * base - n, 10 * base + n)
  {
    JitterBounds(n, r);
    var x := 0.5 + base as real + Jitter(n, r);
    hide Jitter;
    assert x >= 0.5 + 0.9 * n as real;
    assert x.Floor as real <= x < x.Floor as real + 1.0;
    Tenths(x.Floor, 10 * base - n - 5, x, base, n);
  }

  lemma {:induction false} Tenths(f: int, low: int, x: real, base: int, n: int)
    requires f as real <= x < f as real + 1.0 && low == 10 * base - n - 5
    requires 0.5 + base as real - 0.1 * n as real <= x <= 0.5 + base as real + 0.1 * n as real
    ensures low < 10 * f <= 10 * base + n + 5
  {
    assert (10 * f) as real == 10.0 * f as real;
    assert (10 * base + n + 5) as real == 10.0 * base as real + n as real + 5.0;
    assert (10 * base - n - 5) as real == 10.0 * base as real - n as real - 5.0;
  }

  /** The first wait: one second, for RENEW and REBIND 9 to 11, but not longer than MRD. */
  lemma {:induction false} FirstWait(kind: Kind, mrd: int, p: Poll)
    requires Scenario(mrd, p, [])
    ensures var st := Life(kind, mrd, p, []);
            && st.sends == [p.now] && st.last == p.now && !st.done && st.waited == st.timing.rt
            && (!(kind.Renew? || kind.Rebind?) ==> st.timing.rt == 1)
            && (kind.Renew? || kind.Rebind? ==>
                  || (9 <= st.timing.rt <= 11 && (mrd == 0 || st.timing.rt <= mrd))
                  || (st.timing.rt == mrd && 0 < mrd < 11))
  {
    var t := Initial(kind, mrd);
    SpreadNear(t.irt, t.irt, p.r1);
    hide Spread;
  }

  /** How long a message waits after it was sent again: between 1.9 and 2.1 times as long
      as before; if that can exceed the cap, perhaps 0.9 to 1.1 times the cap instead; and
      if either can exceed the MRD left, perhaps that. */
  ghost predicate BacksOff(kind: Kind, before: int, left: int, after: int) {
    || (Near(after, 19 * before, 21 * before) && (Cap(kind) == 0 || after <= Cap(kind)) && (left == 0 || after <= left))
    || (Cap(kind) != 0 && 21 * before + 5 >= 10 * (Cap(kind) + 1)
        && Near(after, 9 * Cap(kind), 11 * Cap(kind)) && (left == 0 || after <= left))
    || (left > 0 && after == left && 21 * before + 5 >= 10 * (left + 1))
    || (left > 0 && after == left && Cap(kind) != 0 && 21 * before + 5 >= 10 * (Cap(kind) + 1)
        && 11 * Cap(kind) + 5 >= 10 * (left + 1))
  }

  lemma {:induction false} SentBacksOff(kind: Kind, t: Timing, r1: real, r2: real)
    requires WellFormed(t) && t.rc > 0 && t.mrt == Cap(kind) && Draw(r1) && Draw(r2)
    ensures BacksOff(kind, t.rt, t.mrd, Sent(t, r1, r2).rt)
  {
    SpreadNear(2 * t.rt, t.rt, r1);
    SpreadNear(t.mrt, t.mrt, r2);
    hide Spread;
  }

  /** When a message has been sent often enough: a REQUEST 11 times, a RELEASE or DECLINE 5
      times, the others when the waits add up to the MRD, which is 10 for a CONFIRM. */
  ghost predicate Spent(kind: Kind, mrd: int, st: Status) {
    match kind
    case Solicit => false
    case Request => |st.sends| == 11
    case Release => |st.sends| == 5
    case Decline => |st.sends| == 5
    case Confirm => st.waited == 10
    case Renew => mrd == 0 || st.waited == mrd
    case Rebind => mrd == 0 || st.waited == mrd
  }

  lemma {:induction false} RunSnoc(kind: Kind, st: Status, polls: seq<Poll>, q: Poll)
    ensures Run(kind, st, polls + [q]) == Step(kind, Run(kind, st, polls), q)
    decreases |polls|
  {
    if polls == [] {
      assert (polls + [q])[1..] == [];
    } else {
      assert (polls + [q])[1..] == polls[1..] + [q];
      hide Step;
      RunSnoc(kind, Step(kind, st, polls[0]), polls[1..], q);
    }
  }

  /** What the next poll does to any unanswered message, however it came to be: nothing
      before its wait is over (a CONFIRM does not wait); then it gives up if it was sent
      often enough; and otherwise it is sent, and backs off. */
  lemma {:induction false} NextPoll(kind: Kind, mrd: int, p: Poll, polls: seq<Poll>, q: Poll)
    requires Scenario(mrd, p, polls) && Draw(q.r1) && Draw(q.r2)
    ensures var st, next := Life(kind, mrd, p, polls), Life(kind, mrd, p, polls + [q]);
            if st.done || (!kind.Confirm? && q.now < st.last + st.timing.rt) then next == st
            else if Spent(kind, mrd, st) then next == st.(done := true, gaveUp := q.now)
            else
              && next.sends == st.sends + [q.now] && next.last == q.now && !next.done
              && next.waited == st.waited + next.timing.rt
              && BacksOff(kind, st.timing.rt, st.timing.mrd, next.timing.rt)
  {
    var born, budget := Born(Initial(kind, mrd), p), if kind.Confirm? then 1 else mrd;
    BornRunning(kind, budget, p);
    RunRunning(kind, born, polls, p.now, budget);
    if mrd == 0 && !kind.Confirm? {
      BornWithout(kind, p);
      NoBudget(kind, born, polls);
    }
    RunSnoc(kind, born, polls, q);
    var st := Run(kind, born, polls);
    SpentExactly(kind, mrd, st, p.now, budget);
    SentBacksOff(kind, st.timing, q.r1, q.r2);
    hide Run, Sent, BacksOff, Spent, Exhausted, Initial;
  }

  lemma {:induction false} SpentExactly(kind: Kind, mrd: int, st: Status, start: int, budget: int)
    requires mrd >= 0 && Running(kind, st, start, budget) && budget == if kind.Confirm? then 1 else mrd
    requires mrd == 0 && !kind.Confirm? ==> st.timing.mrd == 0
    ensures Spent(kind, mrd, st) <==> Exhausted(kind, st.timing)
    ensures st.timing.rc > 0 && st.timing.mrt == Cap(kind)
  {
  }

  lemma {:induction false} BornWithout(kind: Kind, p: Poll)
    requires !kind.Confirm?
    ensures Born(Initial(kind, 0), p).timing.mrd == 0
  {
    hide Uncapped;
  }

  /** Without an MRD there never is one. */
  lemma {:induction false} NoBudget(kind: Kind, st: Status, polls: seq<Poll>)
    requires st.timing.mrd == 0
    ensures Run(kind, st, polls).timing.mrd == 0
    decreases |polls|
  {
    if polls != [] {
      hide Uncapped;
      NoBudget(kind, Step(kind, st, polls[0]), polls[1..]);
    }
  }
}
