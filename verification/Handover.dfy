/** ClntMsgRenew.cpp and ClntMsgRebind.cpp: how long a lease is renewed, and then rebound,
    before it is given up. */
module Handover {
  import opened Containers
  import opened Leases
  import opened AddressIA
  import opened LeaseDb
  import opened Replies
  import opened Transactions
  import R = Retransmission

  /** MRD is a signed long. */
  function AsLong(x: nat): int {
    if x < ULONG / 2 then x else x - ULONG
  }

  function T2Left(v: IAView, now: ulong): ulong {
    TimeLeft(v.timestamp, v.t2, now)
  }

  /** The MRD of a RENEW: what is left until T2 of the first IA, or else of the first PD. */
  function RenewMrd(ias: seq<IAView>, pds: seq<IAView>, now: ulong): int
    requires ias + pds != []
  {
    AsLong(T2Left(if ias != [] then ias[0] else pds[0], now))
  }

  /** The IA or PD of an option, if the database has it. */
  function Named(db: Db, b: Binding): Option<IAView> {
    match b
    case NA(id) => if IndexOfId(db.ias, id) < |db.ias| then Some(db.ias[IndexOfId(db.ias, id)]) else None
    case PD(id) => if IndexOfId(db.pds, id) < |db.pds| then Some(db.pds[IndexOfId(db.pds, id)]) else None
  }

  function LongestLease(db: Db, b: Binding, now: ulong): nat {
    match Named(db, b)
    case None => 0
    case Some(v) => MaxValid(v.addrs + v.prefixes, now)
  }

  /** The MRD of a REBIND before the cast: the longest valid time left in any IA it names. */
  function LongestOf(db: Db, opts: seq<Binding>, now: ulong): nat {
    if opts == [] then 0
    else
      var m, x := LongestOf(db, opts[..|opts| - 1], now), LongestLease(db, opts[|opts| - 1], now);
      if m < x then x else m
  }

  // -- the code ---------------------------------------------------------------------------

  method T2OfFirst(lst: Container<AddrIA>, now: ulong, ghost vs: seq<IAView>) returns (t: ulong)
    requires Shows(lst.lista, vs) && lst.lista != []
    modifies lst`it
    ensures t == T2Left(vs[0], now)
  {
    lst.First();
    var r := lst.Get();
    assert r.value.View() == vs[0];
    t := r.value.GetT2Timeout(now);
  }

  /** The RENEW's constructor: nothing is sent for no IAs and no PDs. */
  method NewRenew(IALst: Container<AddrIA>, PDLst: Container<AddrIA>, now: ulong, p: R.Poll, ghost ias: seq<IAView>,
                  ghost pds: seq<IAView>)
    returns (msg: Option<R.ClntMsg>)
    requires Shows(IALst.lista, ias) && Shows(PDLst.lista, pds)
    modifies IALst`it, PDLst`it
    ensures msg.None? <==> ias + pds == []
    ensures msg.Some? ==> fresh(msg.value) && msg.value.kind == R.Renew
    ensures msg.Some? ==> msg.value.View() == R.Born(R.Initial(R.Renew, RenewMrd(ias, pds, now)), p)
  {
    if |IALst.lista| + |PDLst.lista| == 0 {
      return None;
    }
    var t;
    if |IALst.lista| > 0 {
      t := T2OfFirst(IALst, now, ias);
    } else {
      t := T2OfFirst(PDLst, now, pds);
    }
    hide *;
    var m := new R.ClntMsg(R.Renew, AsLong(t), p);
    msg := Some(m);
  }

  method MaxValidAt(ghost ms: seq<AddrIA>, ghost k: nat, m: AddrIA, now: ulong, ghost vs: seq<IAView>)
    returns (t: ulong)
    requires Shows(ms, vs) && k < |ms| && ms[k] == m
    modifies m`AddrLst, m`PrefixLst
    ensures Shows(ms, vs) && t == MaxValid(vs[k].addrs + vs[k].prefixes, now)
  {
    assert m.View() == vs[k];
    t := m.GetMaxValidTimeout(now);
  }

  method LongestIn(lst: Container<AddrIA>, iaid: nat, now: ulong, ghost vs: seq<IAView>) returns (t: ulong)
    requires Shows(lst.lista, vs)
    modifies lst`it, Set(lst.lista)`AddrLst, Set(lst.lista)`PrefixLst
    ensures Shows(lst.lista, vs)
    ensures var k := IndexOfId(vs, iaid); t == if k < |vs| then MaxValid(vs[k].addrs + vs[k].prefixes, now) else 0
  {
    hide MaxValid, Shows;
    var r := GetById(lst, iaid, vs);
    if r.None? {
      return 0;
    }
    t := MaxValidAt(lst.lista, IndexOfId(vs, iaid), r.value, now, vs);
  }

  /** The REBIND's constructor, with the options of the RENEW. */
  method NewRebind(c: Client, opts: seq<Binding>, now: ulong, p: R.Poll, ghost db: Db) returns (msg: R.ClntMsg)
    requires c.Separated() && c.Is(db)
    modifies c.IAsLst`it, c.PDLst`it, c.Members()`AddrLst, c.Members()`PrefixLst
    ensures c.Is(db) && fresh(msg) && msg.kind == R.Rebind
    ensures msg.View() == R.Born(R.Initial(R.Rebind, AsLong(LongestOf(db, opts, now))), p)
  {
    hide Shows, MaxValid;
    var maxMRD: ulong := 0;
    assert opts[..0] == [];
    for i := 0 to |opts|
      invariant c.Is(db) && maxMRD == LongestOf(db, opts[..i], now)
    {
      assert opts[..i + 1][..i] == opts[..i];
      var t;
      match opts[i] {
        case NA(id) => t := LongestIn(c.IAsLst, id, now, db.ias);
        case PD(id) => t := LongestIn(c.PDLst, id, now, db.pds);
      }
      if maxMRD < t {
        maxMRD := t;
      }
    }
    assert opts[..|opts|] == opts;
    msg := new R.ClntMsg(R.Rebind, AsLong(maxMRD), p);
  }

  // -- when it ends -------------------------------------------------------------------------

  /** Lifetimes and timers are 32-bit on the wire, and the clock is far from wrapping. */
  predicate InRange(from: ulong, span: ulong, now: ulong) {
    from <= now < ULONG / 4 && span <= INFINITY
  }

  lemma {:induction false} LeftInRange(from: ulong, span: ulong, now: ulong)
    requires InRange(from, span, now)
    ensures 0 <= TimeLeft(from, span, now) <= INFINITY
    ensures AsLong(TimeLeft(from, span, now)) == TimeLeft(from, span, now) ==
            if from + span > now then from + span - now else 0
  {
    TimeLeftMeaning(from, span, now);
  }

  ghost predicate LeasesInRange(v: IAView, now: ulong) {
    forall l <- v.addrs + v.prefixes :: InRange(l.timestamp, l.valid, now)
  }

  /** A RENEW that stays unanswered hands over to REBIND no earlier than the T2 of its
      first IA, whatever is drawn and however late it is polled.  Messages are timed by
      the wall clock, leases by a clock that is `skew` behind it. */
  lemma {:induction false} RenewUntilT2(ias: seq<IAView>, pds: seq<IAView>, now: ulong, skew: int, p: R.Poll,
                                        polls: seq<R.Poll>)
    requires ias + pds != [] && p.now == now + skew
    requires var v := if ias != [] then ias[0] else pds[0]; InRange(v.timestamp, v.t2, now)
    requires R.Draw(p.r1) && R.Draw(p.r2) && R.Polls(p.now, polls)
    ensures var v := if ias != [] then ias[0] else pds[0]; var st := R.Life(R.Renew, RenewMrd(ias, pds, now), p, polls);
            st.done ==> st.gaveUp - skew >= v.timestamp + v.t2
  {
    var v := if ias != [] then ias[0] else pds[0];
    LeftInRange(v.timestamp, v.t2, now);
    R.NotBeforeMrd(R.Renew, RenewMrd(ias, pds, now), p, polls);
  }

  /** Polled the moment it is due. */
  function Prompt(kind: R.Kind, st: R.Status): (polls: seq<R.Poll>)
    requires R.HasBudget(kind) && R.WellFormed(st.timing) && st.timing.rt >= 1
    decreases st.timing.mrd
  {
    var q := R.Poll(st.last + st.timing.rt, 0.0, 0.0);
    R.SentBounds(st.timing, 0.0, 0.0);
    if st.timing.mrd == 0 then [q] else [q] + Prompt(kind, R.Transmit(st, q))
  }

  lemma {:induction false} PromptEnds(kind: R.Kind, st: R.Status, from: int)
    requires kind.Renew? || kind.Rebind?
    requires R.WellFormed(st.timing) && st.timing.rt >= 1 && !st.done && from <= st.last
    ensures var polls := Prompt(kind, st); var end := R.Run(kind, st, polls);
            && R.Polls(from, polls) && polls[0].now == st.last + st.timing.rt
            && end.done && end.gaveUp == st.last + st.timing.rt + st.timing.mrd
    decreases st.timing.mrd
  {
    hide R.Sent;
    var q := R.Poll(st.last + st.timing.rt, 0.0, 0.0);
    R.SentBounds(st.timing, 0.0, 0.0);
    var next := R.Step(kind, st, q);
    assert R.Timeout(kind, st, q.now) == 0;
    if st.timing.mrd == 0 {
      assert R.Run(kind, next, []) == next;
    } else {
      PromptEnds(kind, next, next.last);
      var rest := Prompt(kind, next);
      assert Prompt(kind, st) == [q] + rest;
      hide R.Step, Prompt;
      FirstPoll(kind, st, q, rest, from);
    }
  }

  lemma {:induction false} FirstPoll(kind: R.Kind, st: R.Status, q: R.Poll, rest: seq<R.Poll>, from: int)
    requires from <= q.now && R.Draw(q.r1) && R.Draw(q.r2) && R.Polls(q.now, rest)
    ensures R.Polls(from, [q] + rest) && R.Run(kind, st, [q] + rest) == R.Run(kind, R.Step(kind, st, q), rest)
  {
    var all := [q] + rest;
    assert all[1..] == rest && forall i :: 0 < i < |all| ==> all[i] == rest[i - 1];
    hide R.Step;
  }

  /** How long a RENEW or REBIND lasts at the least: its MRD or, if that is 0 from the
      start, its first wait. */
  function Lasts(kind: R.Kind, mrd: int, p: R.Poll): int {
    var t := R.Born(R.Initial(kind, mrd), p).timing;
    t.rt + t.mrd
  }

  lemma {:induction false} LastsMeaning(kind: R.Kind, mrd: int, p: R.Poll)
    requires (kind.Renew? || kind.Rebind?) && mrd >= 0 && R.Draw(p.r1) && R.Draw(p.r2)
    ensures mrd > 0 ==> Lasts(kind, mrd, p) == mrd
    ensures mrd == 0 ==> 9 <= Lasts(kind, mrd, p) <= 11
  {
    R.SentBounds(R.Initial(kind, mrd), p.r1, p.r2);
    if mrd == 0 {
      R.JitterBounds(10, p.r1);
    }
  }

  /** It never ends before that ... */
  lemma {:induction false} NotBefore(kind: R.Kind, mrd: int, p: R.Poll, polls: seq<R.Poll>)
    requires (kind.Renew? || kind.Rebind?) && R.Scenario(mrd, p, polls)
    ensures var st := R.Life(kind, mrd, p, polls); st.done ==> st.gaveUp >= p.now + Lasts(kind, mrd, p)
  {
    R.SentBounds(R.Initial(kind, mrd), p.r1, p.r2);
    if mrd > 0 {
      R.NotBeforeMrd(kind, mrd, p, polls);
    } else {
      var born := R.Born(R.Initial(kind, mrd), p);
      R.BornRunning(kind, mrd, p);
      R.RunRunning(kind, born, polls, p.now, mrd);
      R.RunWaited(kind, born, polls);
    }
  }

  /** ... and the bound is attained: polled promptly, it ends just then. */
  lemma {:induction false} EndsExactly(kind: R.Kind, mrd: int, p: R.Poll)
    requires (kind.Renew? || kind.Rebind?) && mrd >= 0 && R.Draw(p.r1) && R.Draw(p.r2)
    ensures exists polls :: && R.Polls(p.now, polls) && R.Life(kind, mrd, p, polls).done
                            && R.Life(kind, mrd, p, polls).gaveUp == p.now + Lasts(kind, mrd, p)
  {
    R.BornRunning(kind, mrd, p);
    R.SentBounds(R.Initial(kind, mrd), p.r1, p.r2);
    var born := R.Born(R.Initial(kind, mrd), p);
    PromptEnds(kind, born, p.now);
    var polls := Prompt(kind, born);
    assert R.Life(kind, mrd, p, polls).done;
  }

  /** A RENEW carries every IA but times only the first.  So another of its IAs is
      certain of being renewed until its own T2 exactly when the RENEW lasts that long:
      when its T2 is no later than the first one's or, for a RENEW begun after that, than
      the end of the first wait. */
  lemma {:induction false} OthersUntilT2(ias: seq<IAView>, pds: seq<IAView>, now: ulong, skew: int, p: R.Poll,
                                         w: IAView)
    requires w in ias + pds && p.now == now + skew && R.Draw(p.r1) && R.Draw(p.r2)
    requires forall v <- ias + pds :: InRange(v.timestamp, v.t2, now)
    ensures var v := if ias != [] then ias[0] else pds[0]; var mrd := RenewMrd(ias, pds, now);
            && ((forall polls :: R.Polls(p.now, polls) && R.Life(R.Renew, mrd, p, polls).done ==>
                   R.Life(R.Renew, mrd, p, polls).gaveUp - skew >= w.timestamp + w.t2)
                <==> w.timestamp + w.t2 <= now + Lasts(R.Renew, mrd, p))
            && (now < v.timestamp + v.t2 ==> now + Lasts(R.Renew, mrd, p) == v.timestamp + v.t2)
  {
    var v := if ias != [] then ias[0] else pds[0];
    assert v in ias + pds by {
      assert (ias + pds)[0] == v;
    }
    var mrd := RenewMrd(ias, pds, now);
    LeftInRange(v.timestamp, v.t2, now);
    LastsMeaning(R.Renew, mrd, p);
    hide Lasts;
    forall polls | R.Polls(p.now, polls) && R.Life(R.Renew, mrd, p, polls).done
      ensures R.Life(R.Renew, mrd, p, polls).gaveUp >= p.now + Lasts(R.Renew, mrd, p)
    {
      NotBefore(R.Renew, mrd, p, polls);
    }
    EndsExactly(R.Renew, mrd, p);
  }

  lemma {:induction false} LongestMeaning(db: Db, opts: seq<Binding>, now: ulong, b: Binding)
    requires b in opts
    ensures LongestLease(db, b, now) <= LongestOf(db, opts, now)
  {
    if b in opts[..|opts| - 1] {
      LongestMeaning(db, opts[..|opts| - 1], now, b);
    } else {
      assert opts == opts[..|opts| - 1] + [opts[|opts| - 1]];
    }
  }

  lemma {:induction false} LongestInRange(db: Db, opts: seq<Binding>, now: ulong)
    requires forall b <- opts :: Named(db, b).Some? ==> LeasesInRange(Named(db, b).value, now)
    ensures LongestOf(db, opts, now) <= INFINITY
    ensures LongestOf(db, opts, now) > 0 ==>
              exists b, l :: b in opts && Named(db, b).Some?
                             && l in Named(db, b).value.addrs + Named(db, b).value.prefixes
                             && ValidLeft(l, now) == LongestOf(db, opts, now)
  {
    if opts != [] {
      var n := |opts| - 1;
      LongestInRange(db, opts[..n], now);
      if Named(db, opts[n]).Some? {
        var v := Named(db, opts[n]).value;
        var s := v.addrs + v.prefixes;
        MaxValidMeaning(s, now);
        if MaxValid(s, now) > 0 {
          var i :| 0 <= i < |s| && ValidLeft(s[i], now) == MaxValid(s, now);
          LeftInRange(s[i].timestamp, s[i].valid, now);
        }
      }
    }
  }

  /** A REBIND that stays unanswered releases its IAs no earlier than the last of their
      leases has expired: by then every lease of every IA it names has. */
  lemma {:induction false} RebindOutlivesLeases(db: Db, opts: seq<Binding>, now: ulong, skew: int, p: R.Poll,
                                                polls: seq<R.Poll>, b: Binding, l: Lease, g: ulong)
    requires p.now == now + skew && R.Draw(p.r1) && R.Draw(p.r2) && R.Polls(p.now, polls)
    requires forall a <- opts :: Named(db, a).Some? ==> LeasesInRange(Named(db, a).value, now)
    requires b in opts && Named(db, b).Some? && l in Named(db, b).value.addrs + Named(db, b).value.prefixes
    requires var st := R.Life(R.Rebind, AsLong(LongestOf(db, opts, now)), p, polls); st.done && st.gaveUp == g + skew
    ensures Leases.Expired(l, g)
  {
    var s := Named(db, b).value.addrs + Named(db, b).value.prefixes;
    LongestInRange(db, opts, now);
    LongestMeaning(db, opts, now, b);
    MaxValidMeaning(s, now);
    var i :| 0 <= i < |s| && s[i] == l;
    LeftInRange(l.timestamp, l.valid, now);
    R.NotBeforeMrd(R.Rebind, LongestOf(db, opts, now), p, polls);
    TimeLeftMeaning(l.timestamp, l.valid, g);
  }
}
