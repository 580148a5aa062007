/** What an ADVERTISE or a REPLY does to the transactions, and what the client asks of its
    own accord, in terms of what can be seen from outside: which messages end, which are
    made and for whom, and which states change. */
module Answers {
  import opened Containers
  import opened Advertise
  import opened Transactions
  import R = Retransmission
  import C = Conservation

  // -- the server that is asked -------------------------------------------------------------------

  /** The first of the advertisements of greatest preference. */
  ghost predicate Best(s: seq<Advert>, i: int) {
    && 0 <= i < |s|
    && forall j :: 0 <= j < |s| ==> s[j].pref <= s[i].pref && (j < i ==> s[j].pref < s[i].pref)
  }

  /** A REQUEST begins its life at the end of the list, and of the log, for these bindings,
      to the best of the advertisements `all`; the others are left. */
  ghost predicate Requested(tm: TM, next: TM, all: seq<Advert>, bs: seq<Binding>, servers: seq<nat>, p: R.Poll) {
    && |next.txns| == |tm.txns| + 1
    && var t := next.txns[|tm.txns|];
    && t.kind == R.Request && t.Live() && t.bindings == bs && t.st == R.Life(R.Request, 0, p, [])
    && exists i :: && Best(all, i) && t.servers == servers + [all[i].server] && next.log == tm.log + [all[i].server]
                   && multiset(next.adverts) + multiset{all[i]} == multiset(all)
  }

  /** No server is left: nobody is asked, and the bindings wait to be configured. */
  ghost predicate HandedBack(tm: TM, next: TM, bs: seq<Binding>) {
    && next.adverts == [] && next.log == tm.log
    && (forall i :: |tm.txns| <= i < |next.txns| ==> !next.txns[i].Live())
    && forall b :: b in bs && b in next.cfg ==> next.cfg[b] == NotConfigured
  }

  ghost predicate SameCfg(tm: TM, next: TM, bs: seq<Binding>) {
    next.cfg.Keys == tm.cfg.Keys && forall b :: b in tm.cfg && b !in bs ==> next.cfg[b] == tm.cfg[b]
  }

  /** `sendRequest`: the best server left is asked, or the bindings are handed back. */
  lemma {:induction false} RequestGoesToBest(tm: TM, bs: seq<Binding>, servers: seq<nat>, p: R.Poll)
    ensures var next := SendRequest(tm, bs, servers, p);
            && |tm.txns| <= |next.txns| && next.txns[..|tm.txns|] == tm.txns && next.effects == tm.effects
            && (tm.adverts != [] ==> Requested(tm, next, tm.adverts, bs, servers, p) && next.cfg == tm.cfg)
            && (tm.adverts == [] ==> HandedBack(tm, next, bs) && SameCfg(tm, next, bs))
  {
    var next := SendRequest(tm, bs, servers, p);
    if tm.adverts == [] {
      hide R.Born;
    } else {
      var i := BestIndex(tm.adverts);
      TheOthers(tm.adverts);
      BestIs(tm.adverts);
      NewlySent(bs, servers + [tm.adverts[i].server], p);
      hide Sorted, BestIndex, NewRequest, Best;
    }
  }

  lemma {:induction false} TheOthers(s: seq<Advert>)
    requires s != []
    ensures var r := Sorted(s); var i := BestIndex(s);
            r != [] && r[0] == s[i] && multiset(r[1..]) + multiset{s[i]} == multiset(s)
  {
    var i := BestIndex(s);
    SortedIn(Without(s, i));
    MultisetWithout(s, i);
    var rest := Sorted(Without(s, i));
    assert Sorted(s) == [s[i]] + rest;
    hide Sorted, BestIndex;
  }

  lemma {:induction false} NewlySent(bs: seq<Binding>, servers: seq<nat>, p: R.Poll)
    ensures var t := NewRequest(bs, servers, p);
            && t.kind == R.Request && t.Live() && t.bindings == bs && t.servers == servers
            && t.st == R.Life(R.Request, 0, p, [])
  {
    hide R.Sent;
  }

  lemma {:induction false} BestIs(s: seq<Advert>)
    requires s != []
    ensures Best(s, BestIndex(s))
  {
  }

  // -- an advertisement -----------------------------------------------------------------------------

  /** The message ended, the others are as they were. */
  ghost predicate Ended(tm: TM, next: TM, k: nat, p: R.Poll) {
    && k < |tm.txns| <= |next.txns|
    && next.txns[k].st == tm.txns[k].st.(done := true, gaveUp := p.now) && next.txns[k].kind == tm.txns[k].kind
    && forall i :: 0 <= i < |tm.txns| && i != k ==> next.txns[i] == tm.txns[i]
  }

  /** The client stops collecting advertisements exactly when one has preference 255 or the
      SOLICIT has been sent more than once: then the SOLICIT ends and the best server of all
      is asked for its bindings.  Otherwise the advertisement is only stored. */
  lemma {:induction false} AdvertiseExactly(tm: TM, k: nat, a: Advert, p: R.Poll, p0: R.Poll, polls: seq<R.Poll>)
    requires k < |tm.txns| && tm.txns[k].kind.Solicit?
    requires R.Scenario(0, p0, polls) && tm.txns[k].st == R.Life(R.Solicit, 0, p0, polls)
    ensures var t, all, next := tm.txns[k], tm.adverts + [a], GotAdvertise(tm, k, a, p);
            if a.pref == 255 || |t.st.sends| > 1 then
              && Ended(tm, next, k, p) && Requested(tm, next, all, t.bindings, t.servers, p)
              && next.cfg == tm.cfg && next.effects == tm.effects
            else next == tm.(adverts := all)
  {
    R.BornRunning(R.Solicit, 0, p0);
    R.RunRunning(R.Solicit, R.Born(R.Initial(R.Solicit, 0), p0), polls, p0.now, 0);
    var t, all := tm.txns[k], tm.adverts + [a];
    assert t.st.timing.rc == |t.st.sends|;
    var tm' := tm.(adverts := all, txns := tm.txns[k := Finished(t, p)]);
    RequestGoesToBest(tm', t.bindings, t.servers, p);
    hide SendRequest, Best, R.Life;
    var next := GotAdvertise(tm, k, a, p);
    if a.pref == 255 || t.st.timing.rc > 1 {
      assert forall i :: 0 <= i < |tm.txns| ==> next.txns[i] == next.txns[..|tm.txns|][i];
    }
  }

  /** A SOLICIT whose wait is over goes on to the best server if it has any, and is sent
      again if it has none. */
  lemma {:induction false} SolicitDue(tm: TM, k: nat, e: Env)
    requires k < |tm.txns| && tm.txns[k].kind.Solicit?
    ensures var t, next := tm.txns[k], Act(tm, k, e);
            && next.cfg == tm.cfg && next.effects == tm.effects
            && (tm.adverts != [] ==>
                  Ended(tm, next, k, e.poll) && Requested(tm, next, tm.adverts, t.bindings, t.servers, e.poll))
            && (tm.adverts == [] ==>
                  && |next.txns| == |tm.txns| && next.adverts == [] && next.log == tm.log
                  && next.txns[k].bindings == t.bindings && next.txns[k].st.sends == t.st.sends + [e.poll.now]
                  && next.txns[k].st.done == t.st.done
                  && forall i :: 0 <= i < |tm.txns| && i != k ==> next.txns[i] == tm.txns[i])
  {
    var t := tm.txns[k];
    var tm' := tm.(txns := tm.txns[k := Finished(t, e.poll)]);
    RequestGoesToBest(tm', t.bindings, t.servers, e.poll);
    hide SendRequest, Best, R.Sent;
    var next := Act(tm, k, e);
    if tm.adverts != [] {
      assert forall i :: 0 <= i < |tm.txns| ==> next.txns[i] == next.txns[..|tm.txns|][i];
    }
  }

  // -- a reply to a RENEW ---------------------------------------------------------------------------

  /** No option before number `n` says NoBinding. */
  ghost predicate BoundUntil(opts: seq<ReplyOpt>, n: int) {
    forall i :: 0 <= i < n && i < |opts| ==> !opts[i].code.NoBinding?
  }

  /** A Success option for the binding comes before any NoBinding. */
  ghost predicate RenewedBy(opts: seq<ReplyOpt>, b: Binding) {
    exists i :: 0 <= i < |opts| && opts[i].binding == b && opts[i].code.Success? && BoundUntil(opts, i)
  }

  lemma {:induction false} RenewAllExactly(cfg: Cfg, opts: seq<ReplyOpt>, known: set<Binding>, b: Binding)
    ensures var (r, lost) := RenewAll(cfg, opts, known);
            && r.Keys == cfg.Keys && (lost <==> !BoundUntil(opts, |opts|))
            && (b in cfg ==>
                  r[b] == if RenewedBy(opts, b) && (b.NA? ==> b in known) then Configured else cfg[b])
    decreases |opts|
  {
    if opts != [] {
      RenewAllExactly(Renew(cfg, opts[0], known), opts[1..], known, b);
      assert BoundUntil(opts, 0);
      if !opts[0].code.NoBinding? {
        forall n: nat
          ensures BoundUntil(opts, n + 1) <==> BoundUntil(opts[1..], n)
        {
          assert forall i :: 0 < i < |opts| ==> opts[1..][i - 1] == opts[i];
        }
        if i :| 0 <= i < |opts| && opts[i].binding == b && opts[i].code.Success? && BoundUntil(opts, i) {
          if i > 0 {
            assert opts[1..][i - 1] == opts[i] && BoundUntil(opts[1..], i - 1);
          }
        }
        if i :| 0 <= i < |opts[1..]| && opts[1..][i].binding == b && opts[1..][i].code.Success?
                && BoundUntil(opts[1..], i) {
          assert opts[i + 1] == opts[1..][i] && BoundUntil(opts, i + 1);
        }
      }
    }
  }

  /** Every REPLY ends a RENEW.  If some option says NoBinding, the best server left is asked
      for all its bindings, or they are handed back if there is none; otherwise no message
      is made.  What has a Success option before any NoBinding becomes CONFIGURED, an IA_NA
      if the database has it; all else stays as it was. */
  lemma {:induction false} RenewAnswered(tm: TM, k: nat, reply: Reply, insist: bool, e: Env)
    requires k < |tm.txns| && tm.txns[k].kind.Renew?
    ensures var t, next := tm.txns[k], GotReply(tm, k, reply, insist, e);
            var lost := exists i :: 0 <= i < |reply.opts| && reply.opts[i].code.NoBinding?;
            && Ended(tm, next, k, e.poll) && next.effects == tm.effects && next.cfg.Keys == tm.cfg.Keys
            && (!lost ==> |next.txns| == |tm.txns| && next.adverts == tm.adverts && next.log == tm.log)
            && (lost && tm.adverts != [] ==> Requested(tm, next, tm.adverts, t.bindings, t.servers, e.poll))
            && (lost && tm.adverts == [] ==> HandedBack(tm, next, t.bindings))
            && forall b :: b in tm.cfg && !(lost && tm.adverts == [] && b in t.bindings) ==>
                 next.cfg[b] == if RenewedBy(reply.opts, b) && (b.NA? ==> b in e.left) then Configured else tm.cfg[b]
  {
    var t, next := tm.txns[k], GotReply(tm, k, reply, insist, e);
    var (cfg, lost) := RenewAll(tm.cfg, reply.opts, e.left.Keys);
    RenewAllExactly(tm.cfg, reply.opts, e.left.Keys, NA(0));
    assert lost <==> exists i :: 0 <= i < |reply.opts| && reply.opts[i].code.NoBinding?;
    hide BoundUntil, RenewedBy;
    forall b | b in tm.cfg
      ensures cfg[b] == if RenewedBy(reply.opts, b) && (b.NA? ==> b in e.left.Keys) then Configured else tm.cfg[b]
    {
      RenewAllExactly(tm.cfg, reply.opts, e.left.Keys, b);
    }
    hide RenewAll, SendRequest, Best, Finished;
    var tm' := tm.(cfg := cfg, txns := tm.txns[k := Finished(t, e.poll)]);
    RequestGoesToBest(tm', t.bindings, t.servers, e.poll);
    FinishedEnds(t, e.poll);
    if lost {
      assert forall i :: 0 <= i < |tm.txns| ==> next.txns[i] == next.txns[..|tm.txns|][i];
    }
  }

  lemma {:induction false} FinishedEnds(t: Txn, p: R.Poll)
    ensures var u := Finished(t, p); u.st == t.st.(done := true, gaveUp := p.now) && u.kind == t.kind
  {
  }

  // -- a reply to a REQUEST -------------------------------------------------------------------------

  /** The reply grants the binding: some option for it says Success, and for an IA_PD it has
      a prefix, in insist mode a valid one. */
  ghost predicate Grants(opts: seq<ReplyOpt>, b: Binding, insist: bool) {
    exists i :: 0 <= i < |opts| && opts[i].binding == b && opts[i].code.Success?
                && (b.PD? ==> opts[i].prefixes != [] && (insist ==> true in opts[i].prefixes))
  }

  ghost predicate AskedAgain(tm: TM, next: TM, k: nat, bs: seq<Binding>, opts: seq<ReplyOpt>, insist: bool, e: Env)
    requires k < |tm.txns|
  {
    && (forall b :: b in bs <==> b in tm.txns[k].bindings && !Grants(opts, b, insist))
    && Ended(tm, next, k, e.poll) && next.effects == tm.effects && next.cfg.Keys == tm.cfg.Keys
    && (bs == [] ==> |next.txns| == |tm.txns| && next.adverts == tm.adverts && next.log == tm.log)
    && (bs != [] && tm.adverts != [] ==> Requested(tm, next, tm.adverts, bs, [], e.poll))
    && (bs != [] && tm.adverts == [] ==> HandedBack(tm, next, bs))
    && forall b :: b in tm.cfg && !(tm.adverts == [] && b in bs) ==>
         next.cfg[b] == if Grants(opts, b, insist) && (b.NA? ==> b in e.left) then Configured else tm.cfg[b]
  }

  /** A REPLY is ignored if it is not authentic, if the question has no SERVERID or, for a
      REQUEST, if it says NotOnLink.  Otherwise it ends the question.  What it grants is
      CONFIGURED, an IA_NA if the database has it.  What it does not grant (with no binding
      listed twice) is asked again of the best server left, without the old SERVERIDs, or
      handed back; if it grants all, nobody is asked. */
  lemma {:induction false} RequestAnswered(tm: TM, k: nat, reply: Reply, insist: bool, e: Env)
    requires k < |tm.txns| && (tm.txns[k].kind.Request? || tm.txns[k].kind.Rebind? || tm.txns[k].kind.Solicit?)
    requires NoDup(tm.txns[k].bindings)
    ensures var t, next := tm.txns[k], GotReply(tm, k, reply, insist, e);
            var ignored := !reply.authentic || t.servers == [] || (t.kind.Request? && reply.status.NotOnLink?);
            && (ignored ==> next == tm)
            && (!ignored ==> exists bs :: AskedAgain(tm, next, k, bs, reply.opts, insist, e))
  {
    var t, next := tm.txns[k], GotReply(tm, k, reply, insist, e);
    if Heard(t, reply) {
      var left := Left(t.bindings, reply.opts, insist);
      var cfg := CarryAll(tm.cfg, reply.opts, e.left.Keys, insist);
      var tm' := tm.(cfg := cfg, txns := tm.txns[k := Answered(t, left, e.poll)]);
      LeftOpen(tm.cfg, t.bindings, reply.opts, e, insist);
      RequestGoesToBest(tm', left, [], e.poll);
      assert next == if left == [] then tm' else SendRequest(tm', left, [], e.poll);
      hide CarryAll, Left, Grants, SendRequest, GotReply, AskedAgain;
      Asked(tm, tm', next, k, left, reply.opts, insist, e);
    }
  }

  /** What a reply leaves open, and what it configures. */
  lemma {:induction false} LeftOpen(cfg: Cfg, bs: seq<Binding>, opts: seq<ReplyOpt>, e: Env, insist: bool)
    requires NoDup(bs)
    ensures forall b :: b in Left(bs, opts, insist) <==> b in bs && !Grants(opts, b, insist)
    ensures var r := CarryAll(cfg, opts, e.left.Keys, insist);
            && r.Keys == cfg.Keys
            && forall b :: b in cfg ==>
                 r[b] == if Grants(opts, b, insist) && (b.NA? ==> b in e.left.Keys) then Configured else cfg[b]
  {
    C.CarryAllMeaning(cfg, opts, e.left.Keys, insist, NA(0));
    hide CarryAll, Left, Grants;
    forall b
      ensures b in Left(bs, opts, insist) <==> b in bs && !Grants(opts, b, insist)
      ensures b in cfg ==>
                CarryAll(cfg, opts, e.left.Keys, insist)[b] ==
                if Grants(opts, b, insist) && (b.NA? ==> b in e.left.Keys) then Configured else cfg[b]
    {
      C.CarryAllMeaning(cfg, opts, e.left.Keys, insist, b);
      C.LeftMeaning(bs, opts, insist, b);
      GrantsAccepted(opts, b, insist);
    }
  }

  lemma {:induction false} Asked(tm: TM, tm': TM, next: TM, k: nat, left: seq<Binding>, opts: seq<ReplyOpt>,
                                 insist: bool, e: Env)
    requires k < |tm.txns| && tm' == tm.(cfg := tm'.cfg, txns := tm.txns[k := Answered(tm.txns[k], left, e.poll)])
    requires forall b :: b in left <==> b in tm.txns[k].bindings && !Grants(opts, b, insist)
    requires tm'.cfg.Keys == tm.cfg.Keys
    requires forall b :: b in tm.cfg ==>
               tm'.cfg[b] == if Grants(opts, b, insist) && (b.NA? ==> b in e.left.Keys) then Configured else tm.cfg[b]
    requires next == if left == [] then tm' else SendRequest(tm', left, [], e.poll)
    ensures AskedAgain(tm, next, k, left, opts, insist, e)
  {
    RequestGoesToBest(tm', left, [], e.poll);
    hide SendRequest, Best, Grants;
    if left != [] {
      assert forall i :: 0 <= i < |tm.txns| ==> next.txns[i] == next.txns[..|tm.txns|][i];
    }
  }

  lemma {:induction false} GrantsAccepted(opts: seq<ReplyOpt>, b: Binding, insist: bool)
    ensures Grants(opts, b, insist) <==> C.AcceptedIn(opts, b, insist)
  {
    if i :| 0 <= i < |opts| && opts[i].binding == b && Accepts(opts[i], insist) {
      assert opts[i].code.Success?;
    }
  }

  // -- replies to the other messages ------------------------------------------------------------------

  /** A REPLY to a CONFIRM: success ends it and has the database keep each of its IAs in
      order; NotOnLink ends it and has them released; a missing status has them released but
      does not end it; any other status is ignored.  No message is made. */
  lemma {:induction false} ConfirmAnswered(tm: TM, k: nat, reply: Reply, insist: bool, e: Env)
    requires k < |tm.txns| && tm.txns[k].kind.Confirm?
    ensures var t, next := tm.txns[k], GotReply(tm, k, reply, insist, e); var n := |tm.effects|;
            var rejected := reply.status.NotOnLink? || reply.status.NoStatus?;
            && |next.txns| == |tm.txns| && next.adverts == tm.adverts && next.log == tm.log
            && (if reply.status.SuccessStatus? || reply.status.NotOnLink? then Ended(tm, next, k, e.poll)
                else next.txns == tm.txns)
            && tm.effects <= next.effects
            && |next.effects| == n + (if reply.status.OtherStatus? then 0 else |t.bindings|)
            && (forall i :: 0 <= i < |t.bindings| && reply.status.SuccessStatus? ==>
                  next.effects[n + i] == Kept(t.bindings[i]))
            && (forall i :: 0 <= i < |t.bindings| && rejected ==> next.effects[n + i] == Freed(t.bindings[i]))
            && next.cfg.Keys == tm.cfg.Keys
            && forall b :: b in tm.cfg ==>
                 next.cfg[b] == if rejected && b in t.bindings && (b.NA? ==> b in e.left) then NotConfigured
                                else tm.cfg[b]
  {
  }

  /** Any REPLY ends a RELEASE; one from the server asked ends a DECLINE, another is ignored.
      Nothing else changes. */
  lemma {:induction false} OtherAnswered(tm: TM, k: nat, reply: Reply, insist: bool, e: Env)
    requires k < |tm.txns| && (tm.txns[k].kind.Release? || tm.txns[k].kind.Decline?)
    ensures var t, next := tm.txns[k], GotReply(tm, k, reply, insist, e);
            var own := t.servers != [] && t.servers[0] == reply.server;
            && next == tm.(txns := next.txns) && |next.txns| == |tm.txns|
            && (if t.kind.Release? || own then Ended(tm, next, k, e.poll) else next == tm)
  {
  }

  /** A RELEASE or DECLINE that has been sent five times just ends when it is due again. */
  lemma {:induction false} QuietEnd(tm: TM, k: nat, e: Env, p0: R.Poll, polls: seq<R.Poll>)
    requires k < |tm.txns| && (tm.txns[k].kind.Release? || tm.txns[k].kind.Decline?)
    requires R.Scenario(0, p0, polls) && tm.txns[k].st == R.Life(tm.txns[k].kind, 0, p0, polls)
    requires |tm.txns[k].st.sends| == 5
    ensures var next := Act(tm, k, e);
            Ended(tm, next, k, e.poll) && |next.txns| == |tm.txns| && next == tm.(txns := next.txns)
  {
    var kind := tm.txns[k].kind;
    R.BornRunning(kind, 0, p0);
    R.RunRunning(kind, R.Born(R.Initial(kind, 0), p0), polls, p0.now, 0);
    hide R.Life;
  }

  /** A CONFIRM that nobody has answered when its ten seconds are spent ends, and the database
      is asked to keep each of its IAs, in order; until then it is sent at every pass. */
  lemma {:induction false} ConfirmDue(tm: TM, k: nat, e: Env, p0: R.Poll, polls: seq<R.Poll>)
    requires k < |tm.txns| && tm.txns[k].kind.Confirm? && tm.txns[k].Live()
    requires R.Scenario(0, p0, polls) && tm.txns[k].st == R.Life(R.Confirm, 0, p0, polls)
    ensures Due(tm.txns[k], e.poll)
    ensures var t, next := tm.txns[k], Act(tm, k, e); var n := |tm.effects|;
            && |next.txns| == |tm.txns| && next == tm.(txns := next.txns, effects := next.effects)
            && tm.effects <= next.effects
            && (t.st.waited == 10 ==>
                  && Ended(tm, next, k, e.poll) && |next.effects| == n + |t.bindings|
                  && forall i :: 0 <= i < |t.bindings| ==> next.effects[n + i] == Kept(t.bindings[i]))
            && (t.st.waited != 10 ==>
                  && next.effects == tm.effects && next.txns[k].Live() && next.txns[k].bindings == t.bindings
                  && next.txns[k].st.sends == t.st.sends + [e.poll.now]
                  && forall i :: 0 <= i < |tm.txns| && i != k ==> next.txns[i] == tm.txns[i])
  {
    R.BornRunning(R.Confirm, 1, p0);
    R.RunRunning(R.Confirm, R.Born(R.Initial(R.Confirm, 0), p0), polls, p0.now, 1);
    hide R.Life, R.Sent;
  }

  // -- what the client asks of its own accord -------------------------------------------------------

  /** The message begins its life, names no server and asks for something. */
  ghost predicate Begins(t: Txn, kind: R.Kind, p: R.Poll) {
    t.kind == kind && t.servers == [] && t.bindings != [] && t.st == R.Life(kind, 0, p, [])
  }

  /** A SOLICIT for bindings of one interface, all of which wait to be configured. */
  ghost predicate SolicitFor(t: Txn, cfg: Cfg, ifaces: seq<CfgIface>, p: R.Poll) {
    && Begins(t, R.Solicit, p)
    && exists f :: f in ifaces && !f.passive &&
         forall b :: b in t.bindings ==> b in f.order && b in cfg && cfg[b] == NotConfigured
  }

  lemma {:induction false} SolicitOnMakes(tm: TM, ifaces: seq<CfgIface>, i: nat, p: R.Poll)
    requires i < |ifaces|
    ensures var f := ifaces[i]; var next := SolicitOn(tm, f, p);
            && next == tm.(txns := next.txns, cfg := next.cfg) && tm.txns <= next.txns && next.cfg.Keys == tm.cfg.Keys
            && (forall b :: b in next.cfg && next.cfg[b] == NotConfigured ==> tm.cfg[b] == NotConfigured)
            && forall j :: |tm.txns| <= j < |next.txns| ==> SolicitFor(next.txns[j], tm.cfg, ifaces, p)
  {
    var bs := Filter(ifaces[i].order, Waiting(tm.cfg));
    FilterIn(ifaces[i].order, Waiting(tm.cfg));
    assert ifaces[i] in ifaces;
    hide R.Born;
  }

  /** `checkSolicit` makes SOLICITs only, each for one interface and for what waits there;
      what was there already goes on as it was. */
  lemma {:induction false} SolicitsExactly(tm: TM, ifaces: seq<CfgIface>, p: R.Poll, j: nat)
    ensures var next := CheckSolicit(tm, ifaces, p);
            && next == tm.(txns := next.txns, cfg := next.cfg) && tm.txns <= next.txns
            && (|tm.txns| <= j < |next.txns| ==> SolicitFor(next.txns[j], tm.cfg, ifaces, p))
    decreases |ifaces|
  {
    if ifaces != [] {
      var mid := SolicitOn(tm, ifaces[0], p);
      SolicitOnMakes(tm, ifaces, 0, p);
      hide SolicitOn, Begins;
      SolicitsExactly(mid, ifaces[1..], p, j);
      assert forall f :: f in ifaces[1..] ==> f in ifaces;
    }
  }

  /** A CONFIRM for IAs of the database that wait for it, all on one interface. */
  ghost predicate ConfirmFor(t: Txn, waiting: seq<Stored>, ifaces: seq<CfgIface>, p: R.Poll) {
    && Begins(t, R.Confirm, p)
    && exists f :: f in ifaces &&
         forall b :: b in t.bindings ==> exists x :: x in waiting && x.ifindex == f.ifindex && b == NA(x.iaid)
  }

  lemma {:induction false} ConfirmOnMakes(tm: TM, ifaces: seq<CfgIface>, waiting: seq<Stored>, p: R.Poll)
    requires ifaces != []
    ensures var next := ConfirmOn(tm, ifaces[0], waiting, p);
            && next == tm.(txns := next.txns, cfg := next.cfg) && tm.txns <= next.txns
            && forall j :: |tm.txns| <= j < |next.txns| ==> ConfirmFor(next.txns[j], waiting, ifaces, p)
  {
    var f := ifaces[0];
    var xs := Filter(waiting, IsOn(f.ifindex));
    FilterIn(waiting, IsOn(f.ifindex));
    forall b | b in Names(xs)
      ensures exists x :: x in waiting && x.ifindex == f.ifindex && b == NA(x.iaid)
    {
      var i :| 0 <= i < |xs| && Names(xs)[i] == b;
      assert xs[i] in xs;
    }
    assert f in ifaces;
    hide R.Born;
  }

  /** `checkConfirm` makes CONFIRMs only, each for one interface and for what waits there. */
  lemma {:induction false} ConfirmsExactly(tm: TM, ifaces: seq<CfgIface>, waiting: seq<Stored>, p: R.Poll, j: nat)
    ensures var next := CheckConfirm(tm, ifaces, waiting, p);
            && next == tm.(txns := next.txns, cfg := next.cfg) && tm.txns <= next.txns
            && (|tm.txns| <= j < |next.txns| ==> ConfirmFor(next.txns[j], waiting, ifaces, p))
    decreases |ifaces|
  {
    if ifaces != [] {
      var mid := ConfirmOn(tm, ifaces[0], waiting, p);
      ConfirmOnMakes(tm, ifaces, waiting, p);
      FilterIn(waiting, IsOff(ifaces[0].ifindex));
      var left := StillWaiting(ifaces[0], waiting);
      assert forall x :: x in left ==> x in waiting;
      hide ConfirmOn, Begins, StillWaiting;
      ConfirmsExactly(mid, ifaces[1..], left, p, j);
      assert forall f :: f in ifaces[1..] ==> f in ifaces;
    }
  }
}
