/** ClntTransMgr.cpp `getTimeout` and the folds under it: how long the client may
    sleep.  The database is read on the monotonic clock (`now`), messages and option
    lifetimes on the wall clock (`wall`); each clock is read once. */
module Sleep {
  import opened Containers
  import opened Leases
  import opened AddressIA
  import opened LeaseDb
  import opened Timers
  import opened Decline
  import Retransmission

  const INACTIVE_MODE_INTERVAL := 3
  const UINT: int := 0x1_0000_0000

  type uint = x: int | 0 <= x < UINT

  /** An interface's option lifetime: when it was set and for how long. */
  datatype Lifetime = Lifetime(since: uint, span: uint)

  function LifetimeLeft(l: Lifetime, wall: uint): nat {
    if l.span == INFINITY then INFINITY
    else if wall > (l.since + l.span) % UINT then 0
    else (l.since + l.span) % UINT - wall
  }

  // -- timers of one member -----------------------------------------------------

  /** An IA waiting to be configured counts as 0; a PD in that state does not count. */
  function T1Timer(v: IAView, pd: bool, now: ulong): nat {
    if v.state == Configured then TimeLeft(v.timestamp, v.t1, now)
    else if v.state == NotConfigured && !pd then 0
    else INFINITY
  }

  function T2Timer(v: IAView, now: ulong): nat {
    if v.state == Configured then TimeLeft(v.timestamp, v.t2, now) else INFINITY
  }

  function T1Timers(vs: seq<IAView>, pd: bool, now: ulong): seq<nat> {
    seq(|vs|, i requires 0 <= i < |vs| => T1Timer(vs[i], pd, now))
  }

  function T2Timers(vs: seq<IAView>, now: ulong): seq<nat> {
    seq(|vs|, i requires 0 <= i < |vs| => T2Timer(vs[i], now))
  }

  function DadTimeouts(vs: seq<IAView>, now: ulong): seq<nat> {
    seq(|vs|, i requires 0 <= i < |vs| => DadTimeout(vs[i], now))
  }

  function LifetimesLeft(ls: seq<Lifetime>, wall: uint): seq<nat> {
    seq(|ls|, i requires 0 <= i < |ls| => LifetimeLeft(ls[i], wall))
  }

  // -- folds ----------------------------------------------------------------------

  lemma {:induction false} MinTimerNext(ts: seq<nat>, n: nat)
    requires n < |ts|
    ensures MinTimer(ts[..n + 1]) == Min(MinTimer(ts[..n]), ts[n])
  {
    assert ts[..n + 1][..n] == ts[..n];
  }

  method FoldT1(lst: Container<AddrIA>, pd: bool, start: nat, now: ulong, ghost vs: seq<IAView>) returns (ts: nat)
    requires Shows(lst.lista, vs) && start <= INFINITY
    modifies lst`it
    ensures ts == Min(start, MinTimer(T1Timers(vs, pd, now)))
  {
    hide MinTimer;
    ghost var timers := T1Timers(vs, pd, now);
    EmptyMin();
    ts := start;
    lst.First();
    while true
      invariant lst.Positioned() && Shows(lst.lista, vs)
      invariant ts <= INFINITY && ts == Min(start, MinTimer(timers[..lst.it]))
      decreases |lst.lista| - lst.it
    {
      var r := lst.Get();
      if r.None? {
        break;
      }
      ghost var k := lst.it - 1;
      assert r.value.View() == vs[k] && timers[k] == T1Timer(vs[k], pd, now);
      MinTimerNext(timers, k);
      if r.value.State == Configured {
        var t := r.value.GetT1Timeout(now);
        if ts > t {
          ts := t;
        }
      } else if r.value.State == NotConfigured && !pd {
        ts := 0;
      }
    }
    assert timers[..lst.it] == timers;
  }

  lemma {:induction false} EmptyMin()
    ensures MinTimer([]) == INFINITY
  {
  }

  method FoldT2(lst: Container<AddrIA>, start: nat, now: ulong, ghost vs: seq<IAView>) returns (ts: nat)
    requires Shows(lst.lista, vs) && start <= INFINITY
    modifies lst`it
    ensures ts == Min(start, MinTimer(T2Timers(vs, now)))
  {
    hide MinTimer;
    ghost var timers := T2Timers(vs, now);
    EmptyMin();
    ts := start;
    lst.First();
    while true
      invariant lst.Positioned() && Shows(lst.lista, vs)
      invariant ts <= INFINITY && ts == Min(start, MinTimer(timers[..lst.it]))
      decreases |lst.lista| - lst.it
    {
      var r := lst.Get();
      if r.None? {
        break;
      }
      ghost var k := lst.it - 1;
      assert r.value.View() == vs[k] && timers[k] == T2Timer(vs[k], now);
      MinTimerNext(timers, k);
      if r.value.State == Configured {
        var t := r.value.GetT2Timeout(now);
        if ts > t {
          ts := t;
        }
      }
    }
    assert timers[..lst.it] == timers;
  }

  method DadAt(ghost ms: seq<AddrIA>, ghost k: nat, m: AddrIA, d: Dad, ghost vs: seq<IAView>)
    returns (t: nat, ghost w: IAView)
    requires Shows(ms, vs) && NoDup(ms) && k < |ms| && ms[k] == m
    modifies m`Tentative, m`AddrLst
    ensures DadChecked(vs[k], w, d) && t == DadTimeout(w, d.now) <= INFINITY
    ensures Shows(ms, vs[k := w])
  {
    hide DadChecked, MinTimer;
    assert m.View() == vs[k];
    t := m.GetTentativeTimeout(d);
    w := m.View();
    MinTimerMeaning(DadTimers(w.addrs, d.now));
  }

  /** Asking for the DAD timeout also settles what can be settled. */
  method FoldDad(lst: Container<AddrIA>, d: Dad, ghost vs: seq<IAView>) returns (min: nat, ghost cur: seq<IAView>)
    requires Shows(lst.lista, vs) && NoDup(lst.lista)
    modifies lst`it, Set(lst.lista)`Tentative, Set(lst.lista)`AddrLst
    ensures Shows(lst.lista, cur) && Looked(vs, cur, d)
    ensures |cur| == |vs| && forall i :: 0 <= i < |vs| ==> DadChecked(vs[i], cur[i], d)
    ensures min == MinTimer(DadTimeouts(cur, d.now))
  {
    hide MinTimer, DadChecked, DadTimeout;
    EmptyMin();
    assert DadTimeouts(vs[..0], d.now) == [];
    min, cur := INFINITY, vs;
    lst.First();
    while true
      invariant lst.Positioned() && Shows(lst.lista, cur)
      invariant forall i :: 0 <= i < lst.it ==> DadChecked(vs[i], cur[i], d)
      invariant forall i :: lst.it <= i < |vs| ==> cur[i] == vs[i]
      invariant min <= INFINITY && min == MinTimer(DadTimeouts(cur[..lst.it], d.now))
      decreases |lst.lista| - lst.it
    {
      var r := lst.Get();
      if r.None? {
        break;
      }
      ghost var k := lst.it - 1;
      var tmp, w := DadAt(lst.lista, k, r.value, d, cur);
      DadNext(cur, k, w, d.now);
      cur := cur[k := w];
      if min > tmp {
        min := tmp;
      }
    }
    assert cur[..lst.it] == cur;
  }

  lemma {:induction false} DadNext(cur: seq<IAView>, k: nat, w: IAView, now: ulong)
    requires k < |cur|
    ensures MinTimer(DadTimeouts(cur[k := w][..k + 1], now)) ==
            Min(MinTimer(DadTimeouts(cur[..k], now)), DadTimeout(w, now))
  {
    hide DadTimeout;
    var ts := DadTimeouts(cur[k := w][..k + 1], now);
    assert ts[..k] == DadTimeouts(cur[..k], now);
    MinTimerNext(ts, k);
    assert ts[..k + 1] == ts;
  }

  method FoldLifetimes(lst: Container<Lifetime>, wall: uint) returns (min: nat)
    modifies lst`it
    ensures min == MinTimer(LifetimesLeft(lst.lista, wall))
  {
    hide MinTimer;
    ghost var timers := LifetimesLeft(lst.lista, wall);
    EmptyMin();
    min := INFINITY;
    lst.First();
    while true
      invariant lst.Positioned() && min == MinTimer(timers[..lst.it])
      decreases |lst.lista| - lst.it
    {
      var r := lst.Get();
      if r.None? {
        break;
      }
      MinTimerNext(timers, lst.it - 1);
      var tmp := LifetimeLeft(r.value, wall);
      if min > tmp {
        min := tmp;
      }
    }
    assert timers[..lst.it] == timers;
  }

  /** What `getTimeout` of each message returns. */
  ghost predicate Times(msgs: seq<Retransmission.ClntMsg>, wall: uint, ts: seq<nat>)
    reads set m | m in msgs
  {
    |ts| == |msgs| && forall i :: 0 <= i < |msgs| ==>
      ts[i] == Retransmission.Timeout(msgs[i].kind, msgs[i].View(), wall)
  }

  method FoldMessages(lst: Container<Retransmission.ClntMsg>, wall: uint, ghost ts: seq<nat>) returns (min: nat)
    requires Times(lst.lista, wall, ts)
    modifies lst`it
    ensures min == MinTimer(ts)
  {
    hide MinTimer;
    EmptyMin();
    min := INFINITY;
    lst.First();
    while true
      invariant lst.Positioned() && Times(lst.lista, wall, ts) && min == MinTimer(ts[..lst.it])
      decreases |lst.lista| - lst.it
    {
      var r := lst.Get();
      if r.None? {
        break;
      }
      MinTimerNext(ts, lst.it - 1);
      var tmp := r.value.GetTimeout(wall);
      if min > tmp {
        min := tmp;
      }
    }
    assert ts[..lst.it] == ts;
  }

  // -- the sleep time -----------------------------------------------------------------

  /** The timers of the address manager; `cur` are the IAs after the DAD checks. */
  function LeaseTimers(db: Db, cur: seq<IAView>, now: ulong): seq<nat> {
    T1Timers(db.ias, false, now) + T1Timers(db.pds, true, now) + T2Timers(db.ias, now) + T2Timers(db.pds, now)
    + AllValid(db.ias + db.tas + db.pds, now) + DadTimeouts(cur, now)
  }

  /** Every timer that can wake the client. */
  function AllTimers(db: Db, cur: seq<IAView>, lifetimes: seq<Lifetime>, msgs: seq<nat>, now: ulong,
                     wall: uint): seq<nat> {
    LeaseTimers(db, cur, now) + LifetimesLeft(lifetimes, wall) + msgs
  }

  function SleepTime(db: Db, cur: seq<IAView>, lifetimes: seq<Lifetime>, msgs: seq<nat>, inactive: nat, now: ulong,
                     wall: uint): nat {
    var min := MinTimer(AllTimers(db, cur, lifetimes, msgs, now, wall));
    if inactive > 0 then Min(min, INACTIVE_MODE_INTERVAL) else min
  }

  lemma {:induction false} MinOfAll(a: seq<nat>, b: seq<nat>, d: seq<nat>, e: seq<nat>, f: seq<nat>, g: seq<nat>)
    ensures MinTimer(a + b + d + e + f + g) ==
            Min(Min(Min(Min(Min(MinTimer(a), MinTimer(b)), MinTimer(d)), MinTimer(e)), MinTimer(f)), MinTimer(g))
  {
    hide MinTimer;
    MinTimerConcat(a, b);
    MinTimerConcat(a + b, d);
    MinTimerConcat(a + b + d, e);
    MinTimerConcat(a + b + d + e, f);
    MinTimerConcat(a + b + d + e + f, g);
  }

  /** `TClntAddrMgr::getTimeout`. */
  method AddrMgrTimeout(c: Client, now: ulong, ghost db: Db) returns (val: nat)
    requires c.Separated() && c.Is(db)
    modifies {c.IAsLst, c.TALst, c.PDLst}`it, c.Members()`AddrLst, c.Members()`PrefixLst
    ensures c.Is(db)
    ensures val == Min(Min(Min(MinTimer(T1Timers(db.ias, false, now)), MinTimer(T1Timers(db.pds, true, now))),
                           Min(MinTimer(T2Timers(db.ias, now)), MinTimer(T2Timers(db.pds, now)))),
                       MinTimer(AllValid(db.ias + db.tas + db.pds, now)))
  {
    hide MinTimer, AllValid, T1Timers, T2Timers, Shows;
    MinTimerMeaning(T1Timers(db.ias, false, now));
    var t1 := FoldT1(c.IAsLst, false, INFINITY, now, db.ias);
    t1 := FoldT1(c.PDLst, true, t1, now, db.pds);
    MinTimerMeaning(T2Timers(db.ias, now));
    var t2 := FoldT2(c.IAsLst, INFINITY, now, db.ias);
    t2 := FoldT2(c.PDLst, t2, now, db.pds);
    var valid := GetValidTimeout(c, now, db);
    val := t1;
    if t2 < val {
      val := t2;
    }
    if valid < val {
      val := valid;
    }
  }

  /** What `getTimeout` asks of the address manager: all timers, then the DAD windows. */
  method LeaseTimeout(c: Client, d: Dad, ghost db: Db) returns (timeout: nat, ghost cur: seq<IAView>)
    requires c.Separated() && c.Is(db)
    modifies {c.IAsLst, c.TALst, c.PDLst}`it
    modifies c.Members()`AddrLst, c.Members()`PrefixLst, Set(c.IAsLst.lista)`Tentative
    ensures c.Is(db.(ias := cur)) && Looked(db.ias, cur, d)
    ensures |cur| == |db.ias| && forall i :: 0 <= i < |cur| ==> DadChecked(db.ias[i], cur[i], d)
    ensures timeout == MinTimer(LeaseTimers(db, cur, d.now))
  {
    hide MinTimer, AllValid, T1Timers, T2Timers, DadTimeouts, DadChecked, Shows, Looked;
    timeout := AddrMgrTimeout(c, d.now, db);
    var tmp;
    tmp, cur := FoldDad(c.IAsLst, d, db.ias);
    if timeout > tmp {
      timeout := tmp;
    }
    MinOfAll(T1Timers(db.ias, false, d.now), T1Timers(db.pds, true, d.now),
             T2Timers(db.ias, d.now), T2Timers(db.pds, d.now),
             AllValid(db.ias + db.tas + db.pds, d.now), DadTimeouts(cur, d.now));
  }

  /** `TClntTransMgr::getTimeout`. */
  method GetTimeout(c: Client, lifetimes: Container<Lifetime>, transactions: Container<Retransmission.ClntMsg>,
                    isDone: bool, inactive: nat, d: Dad, wall: uint, ghost db: Db, ghost msgs: seq<nat>)
    returns (timeout: nat, ghost cur: seq<IAView>)
    requires c.Separated() && c.Is(db) && Times(transactions.lista, wall, msgs)
    modifies {c.IAsLst, c.TALst, c.PDLst}`it, lifetimes`it, transactions`it
    modifies c.Members()`AddrLst, c.Members()`PrefixLst, Set(c.IAsLst.lista)`Tentative
    ensures c.Is(db.(ias := cur)) && (isDone ==> timeout == 0)
    ensures !isDone ==> |cur| == |db.ias| && forall i :: 0 <= i < |cur| ==> DadChecked(db.ias[i], cur[i], d)
    ensures !isDone ==> timeout == SleepTime(db, cur, lifetimes.lista, msgs, inactive, d.now, wall)
  {
    hide MinTimer, LeaseTimers, DadChecked, Shows, LifetimesLeft, Looked;
    cur := db.ias;
    if isDone {
      return 0, cur;
    }
    timeout, cur := LeaseTimeout(c, d, db);
    var tmp := FoldLifetimes(lifetimes, wall);
    if timeout > tmp {
      timeout := tmp;
    }
    tmp := FoldMessages(transactions, wall, msgs);
    if timeout > tmp {
      timeout := tmp;
    }
    if inactive > 0 && timeout > INACTIVE_MODE_INTERVAL {
      timeout := INACTIVE_MODE_INTERVAL;
    }
    MinTimerConcat(LeaseTimers(db, cur, d.now), LifetimesLeft(lifetimes.lista, wall));
    MinTimerConcat(LeaseTimers(db, cur, d.now) + LifetimesLeft(lifetimes.lista, wall), msgs);
  }

  // -- what it means ------------------------------------------------------------------

  lemma {:induction false} AllValidHas(vs: seq<IAView>, k: nat, x: nat, now: ulong)
    requires k < |vs| && x in ValidOf(vs[k], now)
    ensures x in AllValid(vs, now)
  {
    hide ValidOf;
    if k < |vs| - 1 {
      AllValidHas(vs[..|vs| - 1], k, x, now);
    }
  }

  lemma {:induction false} SleepBelow(ts: seq<nat>, x: nat)
    requires x in ts
    ensures MinTimer(ts) <= x
  {
    MinTimerMeaning(ts);
  }

  /** Renewals: the client is awake by T1 and T2 of every configured IA and PD, and
      does not sleep at all while an IA waits to be configured. */
  lemma {:induction false} AwakeForRenewals(db: Db, cur: seq<IAView>, lifetimes: seq<Lifetime>, msgs: seq<nat>,
                                            inactive: nat, now: ulong, wall: uint, v: IAView)
    requires v in db.ias || v in db.pds
    ensures var s := SleepTime(db, cur, lifetimes, msgs, inactive, now, wall);
            && (v in db.ias && v.state == NotConfigured ==> s == 0)
            && (v.state == Configured && now <= v.timestamp + v.t1 < ULONG ==> now + s <= v.timestamp + v.t1)
            && (v.state == Configured && now <= v.timestamp + v.t2 < ULONG ==> now + s <= v.timestamp + v.t2)
  {
    hide MinTimer;
    var pd := v !in db.ias;
    var vs := if pd then db.pds else db.ias;
    var i :| 0 <= i < |vs| && vs[i] == v;
    var all := AllTimers(db, cur, lifetimes, msgs, now, wall);
    assert T1Timers(vs, pd, now)[i] == T1Timer(v, pd, now) && T2Timers(vs, now)[i] == T2Timer(v, now);
    assert T1Timer(v, pd, now) in T1Timers(vs, pd, now) && T2Timer(v, now) in T2Timers(vs, now);
    SleepBelow(all, T1Timer(v, pd, now));
    SleepBelow(all, T2Timer(v, now));
    TimeLeftMeaning(v.timestamp, v.t1, now);
    TimeLeftMeaning(v.timestamp, v.t2, now);
  }

  /** Expiry: the client is awake when any lease of any IA, TA or PD expires. */
  lemma {:induction false} AwakeForExpiry(db: Db, cur: seq<IAView>, lifetimes: seq<Lifetime>, msgs: seq<nat>,
                                          inactive: nat, now: ulong, wall: uint, v: IAView, l: Lease)
    requires v in db.All() && (l in v.addrs || l in v.prefixes)
    ensures var s := SleepTime(db, cur, lifetimes, msgs, inactive, now, wall);
            && s <= ValidLeft(l, now)
            && (now <= l.timestamp + l.valid < ULONG ==> now + s <= l.timestamp + l.valid)
  {
    hide MinTimer, AllValid;
    var vs := db.All();
    var k :| 0 <= k < |vs| && vs[k] == v;
    var leases := if l in v.addrs then v.addrs else v.prefixes;
    var j :| 0 <= j < |leases| && leases[j] == l;
    assert ValidTimers(leases, now)[j] == ValidLeft(l, now);
    assert ValidLeft(l, now) in ValidOf(v, now);
    AllValidHas(vs, k, ValidLeft(l, now), now);
    hide AllTimers;
    var all := AllTimers(db, cur, lifetimes, msgs, now, wall);
    assert ValidLeft(l, now) in all by { ValidAmong(db, cur, lifetimes, msgs, now, wall, ValidLeft(l, now)); }
    SleepBelow(all, ValidLeft(l, now));
    TimeLeftMeaning(l.timestamp, l.valid, now);
  }

  lemma {:induction false} ValidAmong(db: Db, cur: seq<IAView>, lifetimes: seq<Lifetime>, msgs: seq<nat>, now: ulong,
                                      wall: uint, x: nat)
    requires x in AllValid(db.ias + db.tas + db.pds, now)
    ensures x in AllTimers(db, cur, lifetimes, msgs, now, wall)
  {
    hide AllValid, T1Timers, T2Timers, DadTimeouts, LifetimesLeft;
  }

  lemma {:induction false} BelowTheRest(db: Db, cur: seq<IAView>, lifetimes: seq<Lifetime>, msgs: seq<nat>,
                                        inactive: nat, now: ulong, wall: uint)
    ensures var s := SleepTime(db, cur, lifetimes, msgs, inactive, now, wall);
            && (forall v <- cur :: s <= DadTimeout(v, now))
            && (forall l <- lifetimes :: s <= LifetimeLeft(l, wall))
            && (forall t <- msgs :: s <= t)
            && (inactive > 0 ==> s <= INACTIVE_MODE_INTERVAL)
  {
    var all := AllTimers(db, cur, lifetimes, msgs, now, wall);
    forall x | x in DadTimeouts(cur, now) || x in LifetimesLeft(lifetimes, wall) || x in msgs
      ensures MinTimer(all) <= x
    {
      RestAmong(db, cur, lifetimes, msgs, now, wall, x);
      SleepBelow(all, x);
    }
    hide MinTimer, AllTimers, DadTimeout, LifetimeLeft;
    forall v | v in cur
      ensures DadTimeout(v, now) in DadTimeouts(cur, now)
    {
      var i :| 0 <= i < |cur| && cur[i] == v;
      assert DadTimeouts(cur, now)[i] == DadTimeout(v, now);
    }
    forall l | l in lifetimes
      ensures LifetimeLeft(l, wall) in LifetimesLeft(lifetimes, wall)
    {
      var i :| 0 <= i < |lifetimes| && lifetimes[i] == l;
      assert LifetimesLeft(lifetimes, wall)[i] == LifetimeLeft(l, wall);
    }
  }

  /** An IA as `getTentative` left it is looked at again by the end of each open window,
      and at once if an address has failed. */
  lemma {:induction false} DadDeadline(v: IAView, w: IAView, d: Dad, l: Lease)
    requires DadChecked(v, w, d) && v.Sound() && l in w.addrs
    ensures l.tentative == Yes ==> DadTimeout(w, d.now) == 0
    ensures l.tentative == Unknown && d.now <= l.timestamp + DADTIMEOUT < ULONG ==>
              d.now + DadTimeout(w, d.now) <= l.timestamp + DADTIMEOUT
  {
    DadCheckedSound(v, w, d);
    var i :| 0 <= i < |w.addrs| && w.addrs[i] == l;
    if w.tentative == Unknown && l.tentative == Unknown {
      DadTimerNoWrap(v, w, d, i);
      assert DadTimers(w.addrs, d.now)[i] == DadTimer(l, d.now);
      MinTimerMeaning(DadTimers(w.addrs, d.now));
    }
  }

  /** Duplicate detection: the client is awake when the window of any address closes that
      is still unknown, and does not sleep at all when one has failed. */
  lemma {:induction false} AwakeForDad(db: Db, cur: seq<IAView>, lifetimes: seq<Lifetime>, msgs: seq<nat>,
                                       inactive: nat, d: Dad, wall: uint, i: nat, l: Lease)
    requires i < |db.ias| == |cur| && DadChecked(db.ias[i], cur[i], d) && db.ias[i].Sound() && l in cur[i].addrs
    ensures var s := SleepTime(db, cur, lifetimes, msgs, inactive, d.now, wall);
            && (l.tentative == Yes ==> s == 0)
            && (l.tentative == Unknown && d.now <= l.timestamp + DADTIMEOUT < ULONG ==>
                d.now + s <= l.timestamp + DADTIMEOUT)
  {
    BelowTheRest(db, cur, lifetimes, msgs, inactive, d.now, wall);
    DadDeadline(db.ias[i], cur[i], d, l);
    hide SleepTime, DadTimeout, DadChecked;
    assert cur[i] in cur;
  }

  /** Options and messages: awake when the lifetime of an interface's options ends, when a
      message is due and, in inactive mode, every 3 seconds. */
  lemma {:induction false} AwakeForTheRest(db: Db, cur: seq<IAView>, lifetimes: seq<Lifetime>, msgs: seq<nat>,
                                           inactive: nat, now: ulong, wall: uint)
    ensures var s := SleepTime(db, cur, lifetimes, msgs, inactive, now, wall);
            && (forall l <- lifetimes :: l.span != INFINITY && wall <= l.since + l.span < UINT ==>
                wall + s <= l.since + l.span)
            && (forall t <- msgs :: s <= t)
            && (inactive > 0 ==> s <= 3)
  {
    BelowTheRest(db, cur, lifetimes, msgs, inactive, now, wall);
    hide SleepTime;
  }

  lemma {:induction false} RestAmong(db: Db, cur: seq<IAView>, lifetimes: seq<Lifetime>, msgs: seq<nat>, now: ulong,
                                     wall: uint, x: nat)
    requires x in DadTimeouts(cur, now) || x in LifetimesLeft(lifetimes, wall) || x in msgs
    ensures x in AllTimers(db, cur, lifetimes, msgs, now, wall)
  {
    hide AllValid, T1Timers, T2Timers, DadTimeouts, LifetimesLeft;
  }

  // -- why it ends -----------------------------------------------------------------------

  /** In `s` seconds the deadline comes; it may have come already. */
  ghost predicate Comes(from: ulong, span: ulong, now: ulong, s: nat) {
    from + span < ULONG && if from + span <= now then s == 0 else now + s == from + span
  }

  ghost predicate RenewalComes(v: IAView, now: ulong, s: nat) {
    v.state == Configured && (Comes(v.timestamp, v.t1, now, s) || Comes(v.timestamp, v.t2, now, s))
  }

  ghost predicate ExpiryComes(v: IAView, now: ulong, s: nat) {
    exists l :: l in v.addrs + v.prefixes && Comes(l.timestamp, l.valid, now, s)
  }

  /** Of an IA after the check: an address has failed, or the window of an unknown one closes. */
  ghost predicate WindowCloses(v: IAView, now: ulong, s: nat) {
    || (v.tentative == Yes && s == 0)
    || (v.tentative == Unknown && exists l :: l in v.addrs && l.tentative == Unknown
                                              && now + s == (l.timestamp + DADTIMEOUT) % ULONG)
  }

  ghost predicate LifetimeEnds(l: Lifetime, wall: uint, s: nat) {
    var end := (l.since + l.span) % UINT;
    l.span != INFINITY && if wall > end then s == 0 else wall + s == end
  }

  /** What a sleep of `s` seconds waits for. */
  ghost predicate Awaits(db: Db, cur: seq<IAView>, lifetimes: seq<Lifetime>, msgs: seq<nat>, now: ulong, wall: uint,
                         s: nat) {
    || (s == 0 && exists v :: v in db.ias && v.state == NotConfigured)
    || (exists v :: v in db.ias + db.pds && RenewalComes(v, now, s))
    || (exists v :: v in db.All() && ExpiryComes(v, now, s))
    || (exists v :: v in cur && WindowCloses(v, now, s))
    || (exists l :: l in lifetimes && LifetimeEnds(l, wall, s))
    || s in msgs
    || s == INFINITY
  }

  lemma {:induction false} LeftComes(from: ulong, span: ulong, now: ulong)
    ensures TimeLeft(from, span, now) == INFINITY || Comes(from, span, now, TimeLeft(from, span, now))
  {
    TimeLeftMeaning(from, span, now);
  }

  lemma {:induction false} T1Comes(vs: seq<IAView>, pd: bool, now: ulong, x: nat)
    requires x in T1Timers(vs, pd, now)
    ensures x == INFINITY || (x == 0 && !pd && exists v :: v in vs && v.state == NotConfigured)
            || exists v :: v in vs && RenewalComes(v, now, x)
  {
    var i :| 0 <= i < |vs| && T1Timer(vs[i], pd, now) == x;
    LeftComes(vs[i].timestamp, vs[i].t1, now);
    hide Comes, TimeLeft;
    assert vs[i] in vs;
  }

  lemma {:induction false} T2Comes(vs: seq<IAView>, now: ulong, x: nat)
    requires x in T2Timers(vs, now)
    ensures x == INFINITY || exists v :: v in vs && RenewalComes(v, now, x)
  {
    var i :| 0 <= i < |vs| && T2Timer(vs[i], now) == x;
    LeftComes(vs[i].timestamp, vs[i].t2, now);
    hide Comes, TimeLeft;
    assert vs[i] in vs;
  }

  lemma {:induction false} ValidComes(vs: seq<IAView>, now: ulong, x: nat)
    requires x in AllValid(vs, now)
    ensures x == INFINITY || exists v :: v in vs && ExpiryComes(v, now, x)
  {
    var n := |vs| - 1;
    if x in AllValid(vs[..n], now) {
      ValidComes(vs[..n], now, x);
      assert forall v :: v in vs[..n] ==> v in vs;
    } else {
      var v := vs[n];
      var all := v.addrs + v.prefixes;
      var i :| 0 <= i < |all| && ValidOf(v, now)[i] == x;
      assert x == ValidLeft(all[i], now) && all[i] in all && v in vs;
      LeftComes(all[i].timestamp, all[i].valid, now);
    }
  }

  lemma {:induction false} DadCloses(db: Db, cur: seq<IAView>, d: Dad, x: nat)
    requires |cur| == |db.ias| && forall i :: 0 <= i < |cur| ==> DadChecked(db.ias[i], cur[i], d)
    requires x in DadTimeouts(cur, d.now)
    ensures x == INFINITY || exists v :: v in cur && WindowCloses(v, d.now, x)
  {
    hide DadChecked, MinTimer;
    var i :| 0 <= i < |cur| && DadTimeout(cur[i], d.now) == x;
    var v := cur[i];
    assert v in cur;
    if v.tentative == Unknown && x != INFINITY {
      MinTimerMeaning(DadTimers(v.addrs, d.now));
      var j :| 0 <= j < |v.addrs| && DadTimer(v.addrs[j], d.now) == x;
      DadTimerNoWrap(db.ias[i], v, d, j);
      assert v.addrs[j] in v.addrs;
    }
  }

  lemma {:induction false} LifetimeComes(lifetimes: seq<Lifetime>, wall: uint, x: nat)
    requires x in LifetimesLeft(lifetimes, wall)
    ensures x == INFINITY || exists l :: l in lifetimes && LifetimeEnds(l, wall, x)
  {
    var i :| 0 <= i < |lifetimes| && LifetimeLeft(lifetimes[i], wall) == x;
    assert lifetimes[i] in lifetimes;
  }

  /** Every timer stands for a deadline. */
  lemma {:induction false} TimerAwaits(db: Db, cur: seq<IAView>, lifetimes: seq<Lifetime>, msgs: seq<nat>, d: Dad,
                                       wall: uint, x: nat)
    requires |cur| == |db.ias| && forall i :: 0 <= i < |cur| ==> DadChecked(db.ias[i], cur[i], d)
    requires x in AllTimers(db, cur, lifetimes, msgs, d.now, wall)
    ensures Awaits(db, cur, lifetimes, msgs, d.now, wall, x)
  {
    var now := d.now;
    hide AllValid, T1Timers, T2Timers, DadTimeouts, LifetimesLeft, RenewalComes, ExpiryComes, WindowCloses;
    hide LifetimeEnds, DadChecked;
    assert forall v :: v in db.ias || v in db.pds ==> v in db.ias + db.pds;
    if x in T1Timers(db.ias, false, now) {
      T1Comes(db.ias, false, now, x);
    } else if x in T1Timers(db.pds, true, now) {
      T1Comes(db.pds, true, now, x);
    } else if x in T2Timers(db.ias, now) {
      T2Comes(db.ias, now, x);
    } else if x in T2Timers(db.pds, now) {
      T2Comes(db.pds, now, x);
    } else if x in AllValid(db.All(), now) {
      ValidComes(db.All(), now, x);
    } else if x in DadTimeouts(cur, now) {
      DadCloses(db, cur, d, x);
    } else if x in LifetimesLeft(lifetimes, wall) {
      LifetimeComes(lifetimes, wall, x);
    }
  }

  /** The sleep is not needlessly short: it ends with an IA to be configured, with T1 or T2 of
      a configured member, with a lease, with a detection window, with the lifetime of an
      interface's options or with a message, or it is the cap or infinite. */
  lemma {:induction false} SleepAttained(db: Db, cur: seq<IAView>, lifetimes: seq<Lifetime>, msgs: seq<nat>,
                                         inactive: nat, d: Dad, wall: uint)
    requires |cur| == |db.ias| && forall i :: 0 <= i < |cur| ==> DadChecked(db.ias[i], cur[i], d)
    ensures var s := SleepTime(db, cur, lifetimes, msgs, inactive, d.now, wall);
            || Awaits(db, cur, lifetimes, msgs, d.now, wall, s)
            || (inactive > 0 && s == 3)
  {
    var all := AllTimers(db, cur, lifetimes, msgs, d.now, wall);
    MinTimerMeaning(all);
    hide AllTimers, Awaits, DadChecked;
    var x := MinTimer(all);
    if x < INFINITY {
      TimerAwaits(db, cur, lifetimes, msgs, d, wall, x);
    } else {
      assert Awaits(db, cur, lifetimes, msgs, d.now, wall, INFINITY) by {
        NeverAwaits(db, cur, lifetimes, msgs, d.now, wall);
      }
    }
  }

  lemma {:induction false} NeverAwaits(db: Db, cur: seq<IAView>, lifetimes: seq<Lifetime>, msgs: seq<nat>, now: ulong,
                                       wall: uint)
    ensures Awaits(db, cur, lifetimes, msgs, now, wall, INFINITY)
  {
  }
}
