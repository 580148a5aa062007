/** ClntMsgRequest.cpp: what happens to a REQUEST that no server answers.  Every stored
    server is tried in turn, best first, and then the bindings are handed back, whatever
    other messages do meanwhile. */
module Failover {
  import opened Containers
  import opened Advertise
  import opened Transactions
  import R = Retransmission

  /** Transmissions to one server. */
  const TRIES := R.REQ_MAX_RC + 1

  /** The server of every transmission there will be: each one of `s`, TRIES times. */
  function Schedule(s: seq<Advert>): (r: seq<nat>)
    ensures |r| == TRIES * |s|
  {
    seq(TRIES * |s|, (i: nat) requires i < TRIES * |s| => s[i / TRIES].server)
  }

  function Servers(s: seq<Advert>): seq<nat> {
    seq(|s|, (i: nat) requires i < |s| => s[i].server)
  }

  ghost predicate Draws(es: seq<Env>) {
    forall i :: 0 <= i < |es| ==> R.Draw(es[i].poll.r1) && R.Draw(es[i].poll.r2)
  }

  function IsAsking(): Txn -> bool {
    (t: Txn) => Asks(t)
  }

  /** The live SOLICITs and REQUESTs. */
  function Asking(txns: seq<Txn>): seq<Txn> {
    Filter(txns, IsAsking())
  }

  /** One of them is due. */
  predicate AskDue(txns: seq<Txn>, p: R.Poll) {
    exists i :: 0 <= i < |txns| && Asks(txns[i]) && Due(txns[i], p)
  }

  function Passes(tm: TM, es: seq<Env>): TM
    requires Draws(es)
    decreases |es|
  {
    if es == [] then tm else Passes(Duties(tm, es[0]), es[1..])
  }

  /** How many of these passes find a SOLICIT or REQUEST due. */
  function DuePasses(tm: TM, es: seq<Env>): nat
    requires Draws(es)
    decreases |es|
  {
    if es == [] then 0 else (if AskDue(tm.txns, es[0].poll) then 1 else 0) + DuePasses(Duties(tm, es[0]), es[1..])
  }

  /** `c1` is `c0`, but for bindings that other messages freed. */
  ghost predicate OnlyFreed(c0: Cfg, c1: Cfg, effects: seq<Effect>) {
    && c0.Keys == c1.Keys
    && forall b :: b in c0 ==> c1[b] == c0[b] || (c1[b] == NotConfigured && Freed(b) in effects)
  }

  /** What other messages may do between two states. */
  ghost predicate Drifted(c0: Cfg, e0: seq<Effect>, tm: TM) {
    e0 <= tm.effects && OnlyFreed(c0, tm.cfg, tm.effects[|e0|..])
  }

  ghost predicate Drift(tm: TM, tm': TM) {
    && tm'.adverts == tm.adverts && tm'.log == tm.log && Asking(tm'.txns) == Asking(tm.txns)
    && Drifted(tm.cfg, tm.effects, tm')
  }

  lemma {:induction false} DriftedOn(c0: Cfg, e0: seq<Effect>, tm: TM, tm': TM)
    requires Drifted(c0, e0, tm) && Drifted(tm.cfg, tm.effects, tm')
    ensures Drifted(c0, e0, tm')
  {
    assert tm'.effects[|e0|..] == tm.effects[|e0|..] + tm'.effects[|tm.effects|..];
  }

  lemma {:induction false} DriftedSelf(tm: TM, tm': TM)
    requires tm'.cfg == tm.cfg && tm'.effects == tm.effects
    ensures Drifted(tm.cfg, tm.effects, tm')
  {
  }

  lemma {:induction false} DriftTrans(a: TM, b: TM, c: TM)
    requires Drift(a, b) && Drift(b, c)
    ensures Drift(a, c)
  {
    DriftedOn(a.cfg, a.effects, b, c);
  }

  // -- the other messages ------------------------------------------------------------------

  lemma {:induction false} AskingUpdate(txns: seq<Txn>, k: nat, u: Txn)
    requires k < |txns| && !Asks(txns[k]) && !Asks(u)
    ensures Asking(txns[k := u]) == Asking(txns)
  {
    FilterWithout(txns, k, IsAsking());
    FilterWithout(txns[k := u], k, IsAsking());
    assert Without(txns[k := u], k) == Without(txns, k);
  }

  lemma {:induction false} AskingAppend(txns: seq<Txn>, u: Txn)
    ensures Asking(txns + [u]) == Asking(txns) + if Asks(u) then [u] else []
  {
    FilterSplit(txns, [u], IsAsking());
    assert Filter([u], IsAsking()) == if Asks(u) then [u] else [];
  }

  lemma {:induction false} FreeOnly(cfg: Cfg, bs: seq<Binding>, known: set<Binding>)
    ensures OnlyFreed(cfg, Free(cfg, bs, known), FreedAll(bs))
  {
    forall b | b in bs
      ensures Freed(b) in FreedAll(bs)
    {
      var i :| 0 <= i < |bs| && bs[i] == b;
      assert FreedAll(bs)[i] == Freed(b);
    }
  }

  /** A message that gives up and is no SOLICIT or REQUEST. */
  lemma {:induction false} OtherGivesUp(tm: TM, t: Txn, e: Env)
    requires !t.kind.Solicit? && !t.kind.Request?
    ensures Drift(tm, GiveUp(tm, t, e))
  {
    var next := GiveUp(tm, t, e);
    FreeOnly(tm.cfg, t.bindings, e.left.Keys);
    AskingAppend(tm.txns, NewRebind(t, e));
    assert !Asks(NewRebind(t, e));
    hide Free, FreedAll, KeptAll, NewRebind, Asking, Asks;
    assert tm.effects <= next.effects;
    assert t.kind.Rebind? ==> next.effects[|tm.effects|..] == FreedAll(t.bindings);
    assert t.kind.Renew? ==> next.txns == tm.txns + [NewRebind(t, e)] && Asking(tm.txns) + [] == Asking(tm.txns);
  }

  lemma {:induction false} OtherActs(tm: TM, k: nat, e: Env)
    requires k < |tm.txns| && Due(tm.txns[k], e.poll) && !Asks(tm.txns[k])
    ensures Drift(tm, Act(tm, k, e))
  {
    var t := tm.txns[k];
    assert !t.kind.Solicit? && !t.kind.Request?;
    if Over(tm, t) {
      var tm' := tm.(txns := tm.txns[k := Finished(t, e.poll)]);
      AskingUpdate(tm.txns, k, Finished(t, e.poll));
      OtherGivesUp(tm', t, e);
      DriftedSelf(tm, tm');
      hide GiveUp, Asking, Finished, Over, Drifted;
      DriftTrans(tm, tm', Act(tm, k, e));
    } else {
      AskingUpdate(tm.txns, k, t.(st := R.Transmit(t.st, e.poll)));
      hide Asking, Over;
      DriftedSelf(tm, Act(tm, k, e));
    }
  }

  /** No message from `k` on both asks and is due, except perhaps `m`. */
  ghost predicate OnlyDue(tm: TM, k: nat, m: nat, p: R.Poll) {
    forall i :: k <= i < |tm.txns| && i != m ==> !(Asks(tm.txns[i]) && Due(tm.txns[i], p))
  }

  lemma {:induction false} OnlyDueNext(tm: TM, k: nat, m: nat, e: Env)
    requires k < |tm.txns| && k != m && Due(tm.txns[k], e.poll) && OnlyDue(tm, k, m, e.poll)
    requires R.Draw(e.poll.r1) && R.Draw(e.poll.r2)
    ensures var next := Act(tm, k, e);
            && |tm.txns| <= |next.txns| && OnlyDue(next, k + 1, m, e.poll)
            && (m < |tm.txns| ==> next.txns[m] == tm.txns[m])
  {
    ActProgress(tm, k, e);
    var t := tm.txns[k];
    GiveUpAppends(tm.(txns := tm.txns[k := Finished(t, e.poll)]), t, e);
    hide GiveUp, Due, Asks, Over;
  }

  lemma {:induction false} WalkDrifts(tm: TM, k: nat, e: Env)
    requires R.Draw(e.poll.r1) && R.Draw(e.poll.r2) && OnlyDue(tm, k, |tm.txns|, e.poll)
    ensures Drift(tm, Walk(tm, k, e))
    decreases DueCount(tm.txns, k, e.poll), |tm.txns| - k
  {
    hide Act, DueCount, Drift;
    if k >= |tm.txns| {
      DriftSelf(tm);
    } else if !Due(tm.txns[k], e.poll) {
      DueCountFrom(tm.txns, k, k + 1, e.poll);
      WalkDrifts(tm, k + 1, e);
    } else {
      ActProgress(tm, k, e);
      OtherActs(tm, k, e);
      AppendedQuiet(tm, k, e);
      var tm' := Act(tm, k, e);
      var k' := if k + 1 == |tm.txns| then |tm'.txns| else k + 1;
      DueCountFrom(tm'.txns, k + 1, k', e.poll);
      WalkDrifts(tm', k', e);
      DriftTrans(tm, tm', Walk(tm', k', e));
    }
  }

  lemma {:induction false} DriftSelf(tm: TM)
    ensures Drift(tm, tm)
  {
  }

  /** After a step at `k` no message behind it both asks and is due. */
  lemma {:induction false} AppendedQuiet(tm: TM, k: nat, e: Env)
    requires k < |tm.txns| && Due(tm.txns[k], e.poll) && OnlyDue(tm, k + 1, |tm.txns|, e.poll)
    requires R.Draw(e.poll.r1) && R.Draw(e.poll.r2)
    ensures var next := Act(tm, k, e); OnlyDue(next, k + 1, |next.txns|, e.poll)
  {
    ActProgress(tm, k, e);
    var t := tm.txns[k];
    GiveUpAppends(tm.(txns := tm.txns[k := Finished(t, e.poll)]), t, e);
    hide GiveUp, Due, Asks, Over;
  }

  /** The walk as far as the message `m`, which asks and is due. */
  lemma {:induction false} WalkTo(tm: TM, k: nat, m: nat, e: Env) returns (at: TM)
    requires R.Draw(e.poll.r1) && R.Draw(e.poll.r2) && k <= m < |tm.txns|
    requires OnlyDue(tm, k, m, e.poll) && Asks(tm.txns[m]) && Due(tm.txns[m], e.poll)
    ensures Drift(tm, at) && m < |at.txns| && at.txns[m] == tm.txns[m] && OnlyDue(at, m, m, e.poll)
    ensures Walk(tm, k, e) == Walk(at, m, e)
    decreases m - k
  {
    hide Act, DueCount, Drift, OnlyDue;
    if k == m {
      DriftSelf(tm);
      at := tm;
    } else if !Due(tm.txns[k], e.poll) {
      OnlyDueLater(tm, k, k + 1, m, e.poll);
      at := WalkTo(tm, k + 1, m, e);
    } else {
      NotTheOther(tm, k, m, e.poll);
      OtherActs(tm, k, e);
      OnlyDueNext(tm, k, m, e);
      var next := Act(tm, k, e);
      at := WalkTo(next, k + 1, m, e);
      DriftTrans(tm, next, at);
    }
  }

  lemma {:induction false} OnlyDueLater(tm: TM, k: nat, j: nat, m: nat, p: R.Poll)
    requires OnlyDue(tm, k, m, p) && k <= j
    ensures OnlyDue(tm, j, m, p)
  {
  }

  lemma {:induction false} NotTheOther(tm: TM, k: nat, m: nat, p: R.Poll)
    requires OnlyDue(tm, k, m, p) && k < m && k < |tm.txns| && Due(tm.txns[k], p)
    ensures !Asks(tm.txns[k])
  {
  }

  // -- one pass over one message that asks --------------------------------------------------

  lemma {:induction false} LiveAsking(txns: seq<Txn>)
    ensures Asking(Filter(txns, IsLive())) == Asking(txns)
  {
    FilterTwice(txns, IsLive(), IsAsking());
  }

  /** Nothing that asks is due: only the others act. */
  lemma {:induction false} PassOver(tm: TM, e: Env)
    requires R.Draw(e.poll.r1) && R.Draw(e.poll.r2) && !AskDue(tm.txns, e.poll)
    ensures Drift(tm, Duties(tm, e))
  {
    WalkDrifts(tm, 0, e);
    LiveAsking(Walk(tm, 0, e).txns);
    hide Asking, Walk;
  }

  /** Where the one message that asks stands. */
  lemma {:induction false} TheOne(txns: seq<Txn>, t: Txn) returns (m: nat)
    requires Asking(txns) == [t]
    ensures m < |txns| && txns[m] == t && Asks(t) && forall i :: 0 <= i < |txns| && i != m ==> !Asks(txns[i])
  {
    if Asks(txns[0]) {
      m := 0;
      assert Asking(txns) == [txns[0]] + Asking(txns[1..]);
      assert [t][0] == txns[0] && |Asking(txns[1..])| == 0;
      NoneAsks(txns[1..]);
      assert forall i :: 1 <= i < |txns| ==> txns[i] == txns[1..][i - 1];
    } else {
      var n := TheOne(txns[1..], t);
      m := n + 1;
      assert forall i :: 1 <= i < |txns| ==> txns[i] == txns[1..][i - 1];
    }
  }

  lemma {:induction false} NoneAsks(txns: seq<Txn>)
    ensures Asking(txns) == [] <==> forall i :: 0 <= i < |txns| ==> !Asks(txns[i])
  {
    FilterIn(txns, IsAsking());
    if Asking(txns) == [] {
      forall i | 0 <= i < |txns|
        ensures !Asks(txns[i])
      {
        assert txns[i] in txns && txns[i] !in Filter(txns, IsAsking());
        assert !IsAsking()(txns[i]);
      }
    } else {
      assert Asking(txns)[0] in Asking(txns);
    }
  }

  lemma {:induction false} OneUpdated(txns: seq<Txn>, m: nat, u: Txn)
    requires m < |txns| && Asking(txns) == [txns[m]] && Asks(txns[m])
    ensures Asking(txns[m := u]) == if Asks(u) then [u] else []
  {
    var n := TheOne(txns, txns[m]);
    assert n == m;
    var rest := Without(txns, m);
    assert forall i :: 0 <= i < |rest| ==> rest[i] == txns[if i < m then i else i + 1];
    NoneAsks(rest);
    assert Without(txns[m := u], m) == rest;
    if Asks(u) {
      FilterFirst(txns[m := u], m, IsAsking());
    } else {
      FilterWithout(txns[m := u], m, IsAsking());
    }
  }

  /** The pass: others, then `t`, then others. */
  lemma {:induction false} PassTo(tm: TM, t: Txn, e: Env) returns (at: TM, m: nat)
    requires R.Draw(e.poll.r1) && R.Draw(e.poll.r2) && Asking(tm.txns) == [t] && Due(t, e.poll)
    ensures AskDue(tm.txns, e.poll)
    ensures Drift(tm, at) && m < |at.txns| && at.txns[m] == t && Asks(t) && Drift(Act(at, m, e), Duties(tm, e))
  {
    m := TheOne(tm.txns, t);
    at := WalkTo(tm, 0, m, e);
    hide Drift, Asking, OnlyDue, Asks;
    ActProgress(at, m, e);
    var next := Act(at, m, e);
    AppendedQuietAt(at, m, e);
    var k := if m + 1 == |at.txns| then |next.txns| else m + 1;
    OnlyDueLater(next, m + 1, k, |next.txns|, e.poll);
    WalkDrifts(next, k, e);
    var w := Walk(next, k, e);
    assert Walk(tm, 0, e) == w;
    DroppedDone(next, w);
  }

  lemma {:induction false} AppendedQuietAt(tm: TM, m: nat, e: Env)
    requires m < |tm.txns| && Due(tm.txns[m], e.poll) && OnlyDue(tm, m, m, e.poll)
    requires R.Draw(e.poll.r1) && R.Draw(e.poll.r2)
    ensures var next := Act(tm, m, e); OnlyDue(next, m + 1, |next.txns|, e.poll)
  {
    AppendedQuiet(tm, m, e);
  }

  lemma {:induction false} DroppedDone(tm: TM, w: TM)
    requires Drift(tm, w)
    ensures Drift(tm, w.(txns := Filter(w.txns, IsLive())))
  {
    LiveAsking(w.txns);
  }

  /** The live message resends ... */
  lemma {:induction false} Resends(tm: TM, t: Txn, e: Env)
    requires R.Draw(e.poll.r1) && R.Draw(e.poll.r2) && Asking(tm.txns) == [t] && Due(t, e.poll)
    requires t.kind == R.Request && !R.Exhausted(t.kind, t.st.timing) && t.servers != []
    ensures var next := Duties(tm, e);
            && Asking(next.txns) == [t.(st := R.Transmit(t.st, e.poll))] && next.adverts == tm.adverts
            && next.log == tm.log + [t.servers[|t.servers| - 1]] && Drifted(tm.cfg, tm.effects, next)
  {
    var at, m := PassTo(tm, t, e);
    var u := t.(st := R.Transmit(t.st, e.poll));
    OneUpdated(at.txns, m, u);
    var next := Act(at, m, e);
    hide Duties, Asking, R.Exhausted, R.Transmit;
    assert next == at.(txns := at.txns[m := u], log := at.log + [t.servers[|t.servers| - 1]]);
    hide Act, Drifted;
    SameCfg(tm, at, next);
    DriftedOn(tm.cfg, tm.effects, next, Duties(tm, e));
  }

  lemma {:induction false} SameCfg(tm: TM, at: TM, next: TM)
    requires Drifted(tm.cfg, tm.effects, at) && next.cfg == at.cfg && next.effects == at.effects
    ensures Drifted(tm.cfg, tm.effects, next)
  {
  }

  /** ... or finishes, and `sendRequest` turns to the next server. */
  lemma {:induction false} MovesOn(tm: TM, t: Txn, e: Env)
    requires R.Draw(e.poll.r1) && R.Draw(e.poll.r2) && Asking(tm.txns) == [t] && Due(t, e.poll)
    requires t.kind == R.Request && R.Exhausted(t.kind, t.st.timing) && Sorted(tm.adverts) == tm.adverts
    ensures var next := Duties(tm, e);
            if tm.adverts == [] then
              && Asking(next.txns) == [] && next.adverts == [] && next.log == tm.log
              && Drifted(SetAll(tm.cfg, t.bindings, NotConfigured), tm.effects, next)
            else
              && Asking(next.txns) == [NewRequest(t.bindings, t.servers + [tm.adverts[0].server], e.poll)]
              && next.adverts == tm.adverts[1..] && next.log == tm.log + [tm.adverts[0].server]
              && Drifted(tm.cfg, tm.effects, next)
  {
    var at, m := PassTo(tm, t, e);
    var next := Act(at, m, e);
    var made :=
      if tm.adverts == [] then Stillborn(e.poll)
      else NewRequest(t.bindings, t.servers + [tm.adverts[0].server], e.poll);
    OneUpdated(at.txns, m, Finished(t, e.poll));
    AskingAppend(at.txns[m := Finished(t, e.poll)], made);
    NewAsks(t.bindings, t.servers, tm.adverts, e.poll);
    hide Sorted, Duties, Asking, R.Exhausted, NewRequest, Stillborn, Asks;
    assert next.txns == at.txns[m := Finished(t, e.poll)] + [made];
    if tm.adverts == [] {
      HandBackDrifted(tm, at, t.bindings, next);
      DriftedOn(SetAll(tm.cfg, t.bindings, NotConfigured), tm.effects, next, Duties(tm, e));
    } else {
      SameCfg(tm, at, next);
      DriftedOn(tm.cfg, tm.effects, next, Duties(tm, e));
    }
  }

  lemma {:induction false} NewAsks(bs: seq<Binding>, servers: seq<nat>, adverts: seq<Advert>, p: R.Poll)
    ensures !Asks(Stillborn(p))
    ensures adverts != [] ==> Asks(NewRequest(bs, servers + [adverts[0].server], p))
  {
    hide R.Sent;
  }

  lemma {:induction false} HandBackDrifted(tm: TM, at: TM, bs: seq<Binding>, next: TM)
    requires Drifted(tm.cfg, tm.effects, at)
    requires next.cfg == SetAll(at.cfg, bs, NotConfigured) && next.effects == at.effects
    ensures Drifted(SetAll(tm.cfg, bs, NotConfigured), tm.effects, next)
  {
  }

  // -- the whole failover ---------------------------------------------------------------

  /** The message of transmission number `n` (from 0): it asks server `n / TRIES`.  It
      still carries the SERVERID options of `base` and of every server tried before, in
      front of its own. */
  ghost predicate Asker(t: Txn, s: seq<Advert>, bs: seq<Binding>, base: seq<nat>, n: nat)
    requires n < TRIES * |s|
  {
    && t.kind == R.Request && t.bindings == bs && t.servers == base + Servers(s[..n / TRIES + 1])
    && t.Live() && R.WellFormed(t.st.timing)
    && t.st.timing.mrc == R.REQ_MAX_RC && t.st.timing.rc == n % TRIES + 1
  }

  /** After transmission number `n` since `tm0`: one live message asks, and nothing else
      has changed but what other messages did. */
  ghost predicate Trying(tm: TM, tm0: TM, bs: seq<Binding>, base: seq<nat>, n: nat) {
    var s := Sorted(tm0.adverts);
    && n < TRIES * |s|
    && tm.adverts == s[n / TRIES + 1..] && tm.log == tm0.log + Schedule(s)[..n + 1]
    && Drifted(tm0.cfg, tm0.effects, tm)
    && |Asking(tm.txns)| == 1 && Asker(Asking(tm.txns)[0], s, bs, base, n)
  }

  /** Every server has been tried; the bindings wait for the next SOLICIT. */
  ghost predicate HandedBack(tm: TM, tm0: TM, bs: seq<Binding>) {
    && Asking(tm.txns) == [] && tm.adverts == []
    && tm.log == tm0.log + Schedule(Sorted(tm0.adverts))
    && Drifted(SetAll(tm0.cfg, bs, NotConfigured), tm0.effects, tm)
  }

  ghost predicate At(tm: TM, tm0: TM, bs: seq<Binding>, base: seq<nat>, n: nat) {
    if n < TRIES * |tm0.adverts| then Trying(tm, tm0, bs, base, n)
    else n == TRIES * |tm0.adverts| && HandedBack(tm, tm0, bs)
  }

  lemma {:induction false} NextServer(s: seq<Advert>, i: nat)
    requires NonIncreasing(s) && i <= |s|
    ensures Sorted(s[i..]) == s[i..]
  {
    SortedAgain(s[i..]);
  }

  lemma {:induction false} OneMore(s: seq<Advert>, n: nat)
    requires n < TRIES * |s|
    ensures Schedule(s)[..n + 1] == Schedule(s)[..n] + [s[n / TRIES].server]
  {
  }

  lemma {:induction false} ServersSnoc(s: seq<Advert>, i: nat)
    requires i < |s|
    ensures Servers(s[..i + 1]) == Servers(s[..i]) + [s[i].server]
  {
  }

  lemma {:induction false} Turn(i: nat)
    ensures var n := TRIES * i + TRIES;
            (n - 1) / TRIES == i && (n - 1) % TRIES == TRIES - 1 && n / TRIES == i + 1 && n % TRIES == 0
  {
  }

  /** A new REQUEST has been sent once. */
  lemma {:induction false} Fresh(s: seq<Advert>, bs: seq<Binding>, servers: seq<nat>, base: seq<nat>, i: nat, p: R.Poll)
    requires R.Draw(p.r1) && R.Draw(p.r2) && i < |s| && servers == base + Servers(s[..i + 1])
    ensures Asker(NewRequest(bs, servers, p), s, bs, base, TRIES * i)
  {
    R.SentBounds(R.Initial(R.Request, 0), p.r1, p.r2);
    hide Servers, R.Sent;
    assert (TRIES * i) / TRIES == i && (TRIES * i) % TRIES == 0;
  }

  lemma {:induction false} Begins(tm0: TM, bs: seq<Binding>, base: seq<nat>, p: R.Poll)
    requires Asking(tm0.txns) == [] && R.Draw(p.r1) && R.Draw(p.r2)
    ensures At(SendRequest(tm0, bs, base, p), tm0, bs, base, 0)
  {
    var tm := SendRequest(tm0, bs, base, p);
    var s := Sorted(tm0.adverts);
    AskingAppend(tm0.txns, tm.txns[|tm0.txns|]);
    NewAsks(bs, base, s, p);
    assert s == [] ==> Schedule(s) == [] && tm0.log + [] == tm0.log;
    if s != [] {
      assert Schedule(s)[..1] == [s[0].server];
      assert Servers(s[..1]) == [s[0].server];
      Fresh(s, bs, base + [s[0].server], base, 0, p);
    }
    hide Sorted, Asks, Asking, NewRequest, Stillborn, Asker, Schedule;
  }

  /** The same server once more. */
  lemma {:induction false} Resent(tm: TM, tm0: TM, bs: seq<Binding>, base: seq<nat>, n: nat, e: Env)
    requires Trying(tm, tm0, bs, base, n) && R.Draw(e.poll.r1) && R.Draw(e.poll.r2)
    requires Due(Asking(tm.txns)[0], e.poll) && n % TRIES + 1 < TRIES
    ensures Trying(Duties(tm, e), tm0, bs, base, n + 1)
  {
    var s := Sorted(tm0.adverts);
    var t := Asking(tm.txns)[0];
    Again(t, s, bs, base, n, e.poll);
    OneMore(s, n + 1);
    assert (n + 1) / TRIES == n / TRIES;
    hide *;
    assert Asking(tm.txns) == [t];
    Resends(tm, t, e);
    ResentDrifts(tm, tm0, bs, base, n, Duties(tm, e));
    StillTrying(tm, tm0, bs, base, n, Duties(tm, e), t.(st := R.Transmit(t.st, e.poll)));
  }

  lemma {:induction false} ResentDrifts(tm: TM, tm0: TM, bs: seq<Binding>, base: seq<nat>, n: nat, next: TM)
    requires Trying(tm, tm0, bs, base, n) && Drifted(tm.cfg, tm.effects, next)
    ensures Drifted(tm0.cfg, tm0.effects, next)
  {
    hide Asker, Sorted, Asking;
    DriftedOn(tm0.cfg, tm0.effects, tm, next);
  }

  lemma {:induction false} StillTrying(tm: TM, tm0: TM, bs: seq<Binding>, base: seq<nat>, n: nat, next: TM, u: Txn)
    requires Trying(tm, tm0, bs, base, n) && Drifted(tm0.cfg, tm0.effects, next) &&
             n + 1 < TRIES * |Sorted(tm0.adverts)|
    requires (n + 1) / TRIES == n / TRIES && Asking(next.txns) == [u] && next.adverts == tm.adverts
    requires next.log == tm.log + [Sorted(tm0.adverts)[(n + 1) / TRIES].server]
    requires Asker(u, Sorted(tm0.adverts), bs, base, n + 1)
    ensures Trying(next, tm0, bs, base, n + 1)
  {
    hide Asker, Sorted, Asking, Drifted, Schedule;
    OneMore(Sorted(tm0.adverts), n + 1);
  }

  /** The message before and after it is sent again. */
  lemma {:induction false} Again(t: Txn, s: seq<Advert>, bs: seq<Binding>, base: seq<nat>, n: nat, p: R.Poll)
    requires n < TRIES * |s| && n % TRIES + 1 < TRIES && Asker(t, s, bs, base, n) && R.Draw(p.r1) && R.Draw(p.r2)
    ensures n + 1 < TRIES * |s| && !R.Exhausted(t.kind, t.st.timing)
    ensures t.servers != [] && t.servers[|t.servers| - 1] == s[n / TRIES].server
    ensures Asker(t.(st := R.Transmit(t.st, p)), s, bs, base, n + 1)
  {
    assert (n + 1) / TRIES == n / TRIES && (n + 1) % TRIES == n % TRIES + 1;
    ServersSnoc(s, n / TRIES);
    R.SentBounds(t.st.timing, p.r1, p.r2);
    hide Servers, R.Uncapped;
  }

  /** The last transmission to server `i` has timed out. */
  ghost predicate Spent(tm: TM, tm0: TM, bs: seq<Binding>, base: seq<nat>, i: nat, e: Env) {
    && Trying(tm, tm0, bs, base, TRIES * i + TRIES - 1)
    && R.Draw(e.poll.r1) && R.Draw(e.poll.r2) && Due(Asking(tm.txns)[0], e.poll)
  }

  /** What `sendRequest` then does. */
  lemma {:induction false} SpentNext(tm: TM, tm0: TM, bs: seq<Binding>, base: seq<nat>, i: nat, e: Env)
    requires Spent(tm, tm0, bs, base, i, e)
    ensures var s := Sorted(tm0.adverts); var t := Asking(tm.txns)[0]; var next := Duties(tm, e);
            if i + 1 == |s| then
              && Asking(next.txns) == [] && next.adverts == [] && next.log == tm.log
              && Drifted(SetAll(tm.cfg, bs, NotConfigured), tm.effects, next)
            else
              && i + 1 < |s| && t.servers == base + Servers(s[..i + 1])
              && Asking(next.txns) == [NewRequest(bs, t.servers + [s[i + 1].server], e.poll)]
              && next.adverts == s[i + 2..] && next.log == tm.log + [s[i + 1].server]
              && Drifted(tm.cfg, tm.effects, next)
  {
    var s := Sorted(tm0.adverts);
    var t := Asking(tm.txns)[0];
    Turn(i);
    SortedOrder(tm0.adverts);
    NextServer(s, i + 1);
    hide Sorted, Schedule, Servers, NewRequest, NonIncreasing, Drifted, Asking;
    assert tm.adverts == s[i + 1..] && i + 1 <= |s|;
    assert R.Exhausted(t.kind, t.st.timing) && t.kind == R.Request && t.bindings == bs;
    hide *;
    assert Asking(tm.txns) == [t];
    MovesOn(tm, t, e);
  }

  lemma {:induction false} MovedOut(tm: TM, tm0: TM, bs: seq<Binding>, base: seq<nat>, i: nat, e: Env)
    requires Spent(tm, tm0, bs, base, i, e) && i + 1 == |tm0.adverts|
    ensures HandedBack(Duties(tm, e), tm0, bs)
  {
    hide Sorted, Duties, Servers, Asking, Drifted, Due, Asker;
    SpentNext(tm, tm0, bs, base, i, e);
    var s := Sorted(tm0.adverts);
    assert Schedule(s)[..TRIES * i + TRIES] == Schedule(s);
    hide Schedule;
    OutDrifts(tm, tm0, bs, Duties(tm, e));
  }

  lemma {:induction false} OutDrifts(tm: TM, tm0: TM, bs: seq<Binding>, next: TM)
    requires Drifted(tm0.cfg, tm0.effects, tm) && Drifted(SetAll(tm.cfg, bs, NotConfigured), tm.effects, next)
    ensures Drifted(SetAll(tm0.cfg, bs, NotConfigured), tm0.effects, next)
  {
    assert next.effects[|tm0.effects|..] == tm.effects[|tm0.effects|..] + next.effects[|tm.effects|..];
  }

  lemma {:induction false} MovedOn(tm: TM, tm0: TM, bs: seq<Binding>, base: seq<nat>, i: nat, e: Env)
    requires Spent(tm, tm0, bs, base, i, e) && i + 1 < |tm0.adverts|
    ensures Trying(Duties(tm, e), tm0, bs, base, TRIES * i + TRIES)
  {
    SpentNext(tm, tm0, bs, base, i, e);
    var s := Sorted(tm0.adverts);
    var t := Asking(tm.txns)[0];
    hide Sorted, Duties, Schedule, Servers, Due, Asking, NewRequest;
    Turn(i);
    ServersSnoc(s, i + 1);
    OneMore(s, TRIES * i + TRIES);
    assert base + Servers(s[..i + 1]) + [s[i + 1].server] == base + Servers(s[..i + 2]);
    Fresh(s, bs, t.servers + [s[i + 1].server], base, i + 1, e.poll);
    DriftedOn(tm0.cfg, tm0.effects, tm, Duties(tm, e));
  }

  /** A pass in which the message is due is the next transmission, to the same server or,
      after TRIES, to the next best; any other pass leaves it alone. */
  lemma {:induction false} OnePass(tm: TM, tm0: TM, bs: seq<Binding>, base: seq<nat>, n: nat, e: Env)
    requires At(tm, tm0, bs, base, n) && R.Draw(e.poll.r1) && R.Draw(e.poll.r2)
    ensures At(Duties(tm, e), tm0, bs, base, if AskDue(tm.txns, e.poll) then n + 1 else n)
  {
    hide Sorted, Schedule, Servers, Asker, Duties, Drifted;
    if !AskDue(tm.txns, e.poll) {
      PassOver(tm, e);
      Stays(tm, tm0, bs, base, n, Duties(tm, e));
    } else if n < TRIES * |tm0.adverts| {
      DueOne(tm.txns, e.poll);
      if n % TRIES + 1 < TRIES {
        Resent(tm, tm0, bs, base, n, e);
      } else {
        assert n == TRIES * (n / TRIES) + TRIES - 1;
        if n / TRIES + 1 == |tm0.adverts| {
          MovedOut(tm, tm0, bs, base, n / TRIES, e);
        } else {
          MovedOn(tm, tm0, bs, base, n / TRIES, e);
        }
      }
    } else {
      NoneAsks(tm.txns);
    }
  }

  lemma {:induction false} Stays(tm: TM, tm0: TM, bs: seq<Binding>, base: seq<nat>, n: nat, next: TM)
    requires At(tm, tm0, bs, base, n) && Drift(tm, next)
    ensures At(next, tm0, bs, base, n)
  {
    hide Sorted, Schedule, Asker, Drifted, Asking, SetAll;
    if n < TRIES * |tm0.adverts| {
      DriftedOn(tm0.cfg, tm0.effects, tm, next);
    } else {
      DriftedOn(SetAll(tm0.cfg, bs, NotConfigured), tm0.effects, tm, next);
    }
  }

  lemma {:induction false} DueOne(txns: seq<Txn>, p: R.Poll)
    requires |Asking(txns)| == 1 && AskDue(txns, p)
    ensures Due(Asking(txns)[0], p)
  {
    var t := Asking(txns)[0];
    assert Asking(txns) == [t];
    var m := TheOne(txns, t);
  }

  lemma {:induction false} FromThere(tm: TM, tm0: TM, bs: seq<Binding>, base: seq<nat>, n: nat, es: seq<Env>)
    requires At(tm, tm0, bs, base, n) && Draws(es)
    ensures At(Passes(tm, es), tm0, bs, base, n + DuePasses(tm, es))
    decreases |es|
  {
    if es != [] {
      OnePass(tm, tm0, bs, base, n, es[0]);
      hide At, Duties, AskDue;
      FromThere(Duties(tm, es[0]), tm0, bs, base, if AskDue(tm.txns, es[0].poll) then n + 1 else n, es[1..]);
    }
  }

  /** Failover with no answers, for any passes whatever and next to any other messages.
      After `d` passes in which it was due, exactly the first `d + 1` transmissions of the
      schedule have been made: the servers in order of preference, each TRIES times.  With
      fewer than TRIES transmissions for every server the bindings are still asked for by
      one live REQUEST; then they are NOTCONFIGURED again, no server is left, and no
      message that asks is ever due again. */
  lemma {:induction false} NoAnswers(tm0: TM, bs: seq<Binding>, base: seq<nat>, p: R.Poll, es: seq<Env>)
    requires Asking(tm0.txns) == [] && R.Draw(p.r1) && R.Draw(p.r2) && Draws(es)
    ensures var start := SendRequest(tm0, bs, base, p); var d := DuePasses(start, es);
            var end := Passes(start, es); var plan := Schedule(Sorted(tm0.adverts));
            && d <= |plan|
            && end.log == tm0.log + (if d < |plan| then plan[..d + 1] else plan)
            && (d < |plan| ==> Trying(end, tm0, bs, base, d))
            && (d == |plan| ==> HandedBack(end, tm0, bs))
  {
    Begins(tm0, bs, base, p);
    hide SendRequest, Sorted, Schedule, Passes, DuePasses;
    FromThere(SendRequest(tm0, bs, base, p), tm0, bs, base, 0, es);
  }

  /** The longest wait of a REQUEST. */
  const LONGEST := 33

  /** The message that asks was last sent by `now` and waits no longer than that. */
  ghost predicate Clocked(tm: TM, now: int) {
    forall t <- Asking(tm.txns) ::
      t.kind == R.Request && t.st.last <= now && t.st.timing.rt <= LONGEST && t.st.timing.mrt == 30
  }

  lemma {:induction false} ClockedResend(tm: TM, tm0: TM, bs: seq<Binding>, base: seq<nat>, n: nat, now: int, e: Env)
    requires Trying(tm, tm0, bs, base, n) && Clocked(tm, now) && n % TRIES + 1 < TRIES
    requires R.Draw(e.poll.r1) && R.Draw(e.poll.r2) && Due(Asking(tm.txns)[0], e.poll)
    ensures Clocked(Duties(tm, e), e.poll.now)
  {
    var t := Asking(tm.txns)[0];
    Again(t, Sorted(tm0.adverts), bs, base, n, e.poll);
    R.SentBounds(t.st.timing, e.poll.r1, e.poll.r2);
    hide Duties, Sorted, Schedule, Servers, Drifted, Asking, R.Uncapped;
    assert Asking(tm.txns) == [t] && t in Asking(tm.txns);
    Resends(tm, t, e);
  }

  lemma {:induction false} ClockedNext(tm: TM, tm0: TM, bs: seq<Binding>, base: seq<nat>, n: nat, now: int, e: Env)
    requires Trying(tm, tm0, bs, base, n) && Clocked(tm, now) && e.poll.now >= now + LONGEST
    requires R.Draw(e.poll.r1) && R.Draw(e.poll.r2)
    ensures AskDue(tm.txns, e.poll) && Clocked(Duties(tm, e), e.poll.now)
  {
    var t := Asking(tm.txns)[0];
    assert Asking(tm.txns) == [t] && t in Asking(tm.txns);
    var m := TheOne(tm.txns, t);
    assert Due(t, e.poll);
    if n % TRIES + 1 < TRIES {
      ClockedResend(tm, tm0, bs, base, n, now, e);
    } else {
      assert n == TRIES * (n / TRIES) + TRIES - 1;
      hide Duties, Sorted, Schedule, Servers, Drifted, Asker, Asking, R.Uncapped;
      SpentNext(tm, tm0, bs, base, n / TRIES, e);
      R.SentBounds(R.Initial(R.Request, 0), e.poll.r1, e.poll.r2);
    }
  }

  ghost predicate Spaced(now: int, es: seq<Env>)
    decreases |es|
  {
    es == [] || (es[0].poll.now >= now + LONGEST && Spaced(es[0].poll.now, es[1..]))
  }

  lemma {:induction false} DueEveryTime(tm: TM, tm0: TM, bs: seq<Binding>, base: seq<nat>, n: nat, now: int,
                                        es: seq<Env>)
    requires At(tm, tm0, bs, base, n) && Clocked(tm, now) && Draws(es) && Spaced(now, es)
    ensures n + DuePasses(tm, es) >= TRIES * |tm0.adverts| || DuePasses(tm, es) == |es|
    decreases |es|
  {
    if es != [] && n < TRIES * |tm0.adverts| {
      OnePass(tm, tm0, bs, base, n, es[0]);
      ClockedNext(tm, tm0, bs, base, n, now, es[0]);
      hide At, Duties, Clocked, AskDue;
      DueEveryTime(Duties(tm, es[0]), tm0, bs, base, n + 1, es[0].poll.now, es[1..]);
    }
  }

  lemma {:induction false} ClockedFirst(tm0: TM, bs: seq<Binding>, base: seq<nat>, p: R.Poll)
    requires Asking(tm0.txns) == [] && R.Draw(p.r1) && R.Draw(p.r2)
    ensures Clocked(SendRequest(tm0, bs, base, p), p.now)
  {
    var tm := SendRequest(tm0, bs, base, p);
    AskingAppend(tm0.txns, tm.txns[|tm0.txns|]);
    R.SentBounds(R.Initial(R.Request, 0), p.r1, p.r2);
    hide Asking, Sorted, R.Uncapped;
  }

  /** Termination: after TRIES passes for every stored server, LONGEST seconds or more
      apart, all bindings have been handed back. */
  lemma {:induction false} HandedBackInTime(tm0: TM, bs: seq<Binding>, base: seq<nat>, p: R.Poll, es: seq<Env>)
    requires Asking(tm0.txns) == [] && R.Draw(p.r1) && R.Draw(p.r2) && Draws(es) && Spaced(p.now, es)
    requires |es| >= TRIES * |tm0.adverts|
    ensures HandedBack(Passes(SendRequest(tm0, bs, base, p), es), tm0, bs)
  {
    Begins(tm0, bs, base, p);
    ClockedFirst(tm0, bs, base, p);
    hide SendRequest, At, Clocked, HandedBack, Trying;
    DueEveryTime(SendRequest(tm0, bs, base, p), tm0, bs, base, 0, p.now, es);
    NoAnswers(tm0, bs, base, p, es);
  }

  /** The servers of the schedule: each stored advertisement once, best first, equals in
      order of arrival. */
  lemma {:induction false} ScheduleOrder(tm0: TM, i: nat, j: nat)
    requires i < j < TRIES * |tm0.adverts|
    ensures var s := Sorted(tm0.adverts);
            && multiset(s) == multiset(tm0.adverts)
            && Schedule(s)[i] == s[i / TRIES].server
            && s[i / TRIES].pref >= s[j / TRIES].pref
            && Filter(s, HasPref(s[i / TRIES].pref)) == Filter(tm0.adverts, HasPref(s[i / TRIES].pref))
  {
    var s := Sorted(tm0.adverts);
    Slots(s, i, j);
    hide Schedule, Sorted, Filter;
    SortedIn(tm0.adverts);
    SortedOrder(tm0.adverts);
    SortedStable(tm0.adverts, s[i / TRIES].pref);
  }

  lemma {:induction false} Slots(s: seq<Advert>, i: nat, j: nat)
    requires i < j < TRIES * |s|
    ensures i / TRIES <= j / TRIES < |s| && Schedule(s)[i] == s[i / TRIES].server
  {
  }

  /** What is tried has the SERVERIDs of all servers so far. */
  lemma {:induction false} FirstNamed(tm: TM, tm0: TM, bs: seq<Binding>, n: nat)
    requires Trying(tm, tm0, bs, [], n)
    ensures var s := Sorted(tm0.adverts);
            && |Asking(tm.txns)| == 1 && n < TRIES * |s| && |s| == |tm0.adverts|
            && var t := Asking(tm.txns)[0];
            && |t.servers| == n / TRIES + 1 && t.servers[0] == s[0].server && tm.log != []
            && (t.servers[0] == tm.log[|tm.log| - 1] <==> s[0].server == s[n / TRIES].server)
  {
    var s := Sorted(tm0.adverts);
    hide Drifted, Asking, Sorted;
    OneMore(s, n);
    hide Schedule;
  }

  /** `sendRequest` asks its callers for options without a server's DUID, but the REQUEST
      that gives up hands over all it has.  So in every failover, after any passes, the
      REQUEST leads with the SERVERID of the first server, which is the one `getServerID`
      returns; it is the server being asked if and only if no other was tried before it
      (or they are the same). */
  lemma {:induction false} FirstServerStays(tm0: TM, bs: seq<Binding>, p: R.Poll, es: seq<Env>)
    requires Asking(tm0.txns) == [] && R.Draw(p.r1) && R.Draw(p.r2) && Draws(es)
    requires DuePasses(SendRequest(tm0, bs, [], p), es) < TRIES * |tm0.adverts|
    ensures var s := Sorted(tm0.adverts); var start := SendRequest(tm0, bs, [], p);
            var d := DuePasses(start, es); var end := Passes(start, es);
            && |Asking(end.txns)| == 1
            && var t := Asking(end.txns)[0];
            && |t.servers| == d / TRIES + 1 && t.servers[0] == s[0].server && end.log != []
            && (t.servers[0] == end.log[|end.log| - 1] <==> s[0].server == s[d / TRIES].server)
  {
    var start := SendRequest(tm0, bs, [], p);
    NoAnswers(tm0, bs, [], p, es);
    hide *;
    FirstNamed(Passes(start, es), tm0, bs, DuePasses(start, es));
  }
}
