/** Which bindings the transactions leave in process with no message to see to them: by a
    reply, by a CONFIRM that ends, and for good. */
module LeftBehind {
  import opened Containers
  import opened Advertise
  import opened Transactions
  import opened Conservation
  import R = Retransmission

  /** Another message than `k` carries it. */
  ghost predicate CarriedElsewhere(txns: seq<Txn>, k: int, b: Binding) {
    exists i :: 0 <= i < |txns| && i != k && Carries(txns[i]) && b in txns[i].bindings
  }

  lemma {:induction false} ElsewhereUpdate(txns: seq<Txn>, k: nat, t: Txn, b: Binding)
    requires k < |txns|
    ensures Carried(txns[k := t], b) <==> CarriedElsewhere(txns, k, b) || (Carries(t) && b in t.bindings)
  {
    var s := txns[k := t];
    assert s[k] == t && forall i :: 0 <= i < |s| && i != k ==> s[i] == txns[i];
  }

  /** An authentic reply to a REQUEST leaves a binding in process behind, that only this
      message carried (once), exactly when it grants an IA_NA that the database does not
      have: it is taken off the message but not configured. */
  lemma {:induction false} LostExactly(tm: TM, k: nat, reply: Reply, insist: bool, e: Env, b: Binding)
    requires k < |tm.txns| && tm.txns[k].kind.Request? && Heard(tm.txns[k], reply)
    requires Pending(tm, b) && b in tm.txns[k].bindings && NoDup(tm.txns[k].bindings)
    requires !CarriedElsewhere(tm.txns, k, b)
    ensures Orphan(GotReply(tm, k, reply, insist, e), b) <==>
            AcceptedIn(reply.opts, b, insist) && !Known(b, e.left.Keys)
  {
    hide Sorted;
    var t := tm.txns[k];
    var left := Left(t.bindings, reply.opts, insist);
    var next := GotReply(tm, k, reply, insist, e);
    CarryAllMeaning(tm.cfg, reply.opts, e.left.Keys, insist, b);
    LeftMeaning(t.bindings, reply.opts, insist, b);
    hide CarryAll, Left, AcceptedIn;
    var txns := tm.txns[k := Answered(t, left, e.poll)];
    ElsewhereUpdate(tm.txns, k, Answered(t, left, e.poll), b);
    if left != [] {
      CarriedAppend(txns, next.txns[|txns|], b);
    }
  }

  /** A CONFIRM that is accepted, by its server or because nobody answers, leaves every
      state as it was: all it named that was in process stays so, carried or not by others. */
  lemma {:induction false} AcceptedLeaves(tm: TM, k: nat, reply: Reply, insist: bool, e: Env, b: Binding)
    requires k < |tm.txns| && tm.txns[k].kind.Confirm?
    ensures reply.status.SuccessStatus? ==>
              var next := GotReply(tm, k, reply, insist, e);
              next.cfg == tm.cfg && (Orphan(next, b) <==> Pending(tm, b) && !CarriedElsewhere(tm.txns, k, b))
    ensures tm.txns[k].st.timing.mrd == 0 ==>
              var next := Act(tm, k, e);
              next.cfg == tm.cfg && (Orphan(next, b) <==> Pending(tm, b) && !CarriedElsewhere(tm.txns, k, b))
  {
    ElsewhereUpdate(tm.txns, k, Finished(tm.txns[k], e.poll), b);
    hide Carried, CarriedElsewhere;
  }

  /** One that is rejected frees what it named, but not what the database lacks. */
  lemma {:induction false} RejectedLeaves(tm: TM, k: nat, reply: Reply, insist: bool, e: Env, b: Binding)
    requires k < |tm.txns| && tm.txns[k].kind.Confirm? && reply.status.NotOnLink?
    ensures Orphan(GotReply(tm, k, reply, insist, e), b) <==>
            && Pending(tm, b) && !CarriedElsewhere(tm.txns, k, b)
            && !(b in tm.txns[k].bindings && Known(b, e.left.Keys))
  {
    ElsewhereUpdate(tm.txns, k, Finished(tm.txns[k], e.poll), b);
    hide Carried, CarriedElsewhere;
  }

  // -- forgotten for good -------------------------------------------------------------------------

  /** In process, and no message so much as names it. */
  ghost predicate Forgotten(tm: TM, b: Binding) {
    Pending(tm, b) && forall i :: 0 <= i < |tm.txns| ==> b !in tm.txns[i].bindings
  }

  /** Nobody speaks of the binding: no reply has an option for it, no new message names it,
      it does not wait to be confirmed, and it has no lease that could run out. */
  ghost predicate Silent(s: Step, ifaces: seq<CfgIface>, b: Binding) {
    match s
    case Replied(k, reply, e) => forall i :: 0 <= i < |reply.opts| ==> reply.opts[i].binding != b
    case Confirms(waiting, p) => !Named(ifaces, waiting, b)
    case Starts(t) => b !in t.bindings
    case RunsOut(x) => x != b
    case _ => true
  }

  lemma {:induction false} RequestForgets(tm: TM, bs: seq<Binding>, servers: seq<nat>, p: R.Poll, b: Binding)
    requires Forgotten(tm, b) && b !in bs
    ensures Forgotten(SendRequest(tm, bs, servers, p), b)
  {
    hide Sorted;
  }

  lemma {:induction false} GiveUpForgets(tm: TM, t: Txn, e: Env, b: Binding)
    requires Forgotten(tm, b) && b !in t.bindings
    ensures Forgotten(GiveUp(tm, t, e), b)
  {
    RequestForgets(tm, t.bindings, t.servers, e.poll, b);
    hide SendRequest;
  }

  lemma {:induction false} WalkForgets(tm: TM, k: nat, e: Env, b: Binding)
    requires R.Draw(e.poll.r1) && R.Draw(e.poll.r2) && Forgotten(tm, b)
    ensures Forgotten(Walk(tm, k, e), b)
    decreases DueCount(tm.txns, k, e.poll), |tm.txns| - k
  {
    hide GiveUp, DueCount, Due, Over;
    if k < |tm.txns| {
      if !Due(tm.txns[k], e.poll) {
        DueCountFrom(tm.txns, k, k + 1, e.poll);
        WalkForgets(tm, k + 1, e, b);
      } else {
        ActProgress(tm, k, e);
        GiveUpForgets(tm.(txns := tm.txns[k := Finished(tm.txns[k], e.poll)]), tm.txns[k], e, b);
        var tm' := Act(tm, k, e);
        assert Forgotten(tm', b);
        var k' := if k + 1 == |tm.txns| then |tm'.txns| else k + 1;
        DueCountFrom(tm'.txns, k + 1, k', e.poll);
        hide Act;
        WalkForgets(tm', k', e, b);
      }
    }
  }

  lemma {:induction false} DutiesForget(tm: TM, e: Env, b: Binding)
    requires R.Draw(e.poll.r1) && R.Draw(e.poll.r2) && Forgotten(tm, b)
    ensures Forgotten(Duties(tm, e), b)
  {
    WalkForgets(tm, 0, e, b);
    hide Walk;
    var w := Walk(tm, 0, e);
    FilterIn(w.txns, IsLive());
    var live := Filter(w.txns, IsLive());
    forall i | 0 <= i < |live|
      ensures b !in live[i].bindings
    {
      assert live[i] in live && live[i] in w.txns;
    }
  }

  lemma {:induction false} RenewAllSkips(cfg: Cfg, opts: seq<ReplyOpt>, known: set<Binding>, b: Binding)
    requires b in cfg && forall i :: 0 <= i < |opts| ==> opts[i].binding != b
    ensures var (r, _) := RenewAll(cfg, opts, known); b in r && r[b] == cfg[b]
    decreases |opts|
  {
    if opts != [] && !opts[0].code.NoBinding? {
      RenewAllSkips(Renew(cfg, opts[0], known), opts[1..], known, b);
    }
  }

  lemma {:induction false} AnswerForgets(tm: TM, k: nat, reply: Reply, insist: bool, e: Env, b: Binding)
    requires Forgotten(tm, b) && k < |tm.txns| && forall i :: 0 <= i < |reply.opts| ==> reply.opts[i].binding != b
    ensures Forgotten(AnswerRequest(tm, k, reply, insist, e), b)
  {
    var t := tm.txns[k];
    var left := Left(t.bindings, reply.opts, insist);
    CarryAllMeaning(tm.cfg, reply.opts, e.left.Keys, insist, b);
    LeftMeaning(t.bindings, reply.opts, insist, b);
    hide SendRequest, CarryAll, Left, Heard;
    var asked := tm.(cfg := CarryAll(tm.cfg, reply.opts, e.left.Keys, insist),
                     txns := tm.txns[k := Answered(t, left, e.poll)]);
    RequestForgets(asked, left, [], e.poll, b);
  }

  lemma {:induction false} RenewForgets(tm: TM, k: nat, reply: Reply, e: Env, b: Binding)
    requires Forgotten(tm, b) && k < |tm.txns| && forall i :: 0 <= i < |reply.opts| ==> reply.opts[i].binding != b
    ensures Forgotten(AnswerRenew(tm, k, reply, e), b)
  {
    var t := tm.txns[k];
    RenewAllSkips(tm.cfg, reply.opts, e.left.Keys, b);
    var (cfg, _) := RenewAll(tm.cfg, reply.opts, e.left.Keys);
    hide SendRequest, RenewAll;
    var renewed := tm.(cfg := cfg, txns := tm.txns[k := Finished(t, e.poll)]);
    RequestForgets(renewed, t.bindings, t.servers, e.poll, b);
  }

  lemma {:induction false} EndForgets(tm: TM, tm': TM, k: nat, t: Txn, b: Binding)
    requires Forgotten(tm, b) && k < |tm.txns| && tm'.txns == tm.txns[k := t] && t.bindings == tm.txns[k].bindings
    requires Pending(tm', b)
    ensures Forgotten(tm', b)
  {
  }

  lemma {:induction false} ConfirmedForgets(tm: TM, k: nat, reply: Reply, e: Env, b: Binding)
    requires Forgotten(tm, b) && k < |tm.txns|
    ensures Forgotten(AnswerConfirm(tm, k, reply, e), b)
  {
    var t, next := tm.txns[k], AnswerConfirm(tm, k, reply, e);
    assert b !in t.bindings && tm.txns[k := t] == tm.txns;
    hide Forgotten, FreedAll, KeptAll;
    match reply.status
    case SuccessStatus => EndForgets(tm, next, k, Finished(t, e.poll), b);
    case NotOnLink => EndForgets(tm, next, k, Finished(t, e.poll), b);
    case NoStatus => EndForgets(tm, next, k, t, b);
    case OtherStatus =>
  }

  lemma {:induction false} ReplyForgets(tm: TM, k: nat, reply: Reply, insist: bool, e: Env, b: Binding)
    requires Forgotten(tm, b) && forall i :: 0 <= i < |reply.opts| ==> reply.opts[i].binding != b
    ensures Forgotten(GotReply(tm, k, reply, insist, e), b)
  {
    if k < |tm.txns| {
      var t := tm.txns[k];
      var done := tm.(txns := tm.txns[k := Finished(t, e.poll)]);
      hide AnswerRequest, AnswerRenew, AnswerConfirm;
      assert Pending(done, b);
      EndForgets(tm, done, k, Finished(t, e.poll), b);
      hide Forgotten, Finished;
      match t.kind
      case Renew => RenewForgets(tm, k, reply, e, b);
      case Confirm => ConfirmedForgets(tm, k, reply, e, b);
      case Release =>
      case Decline =>
      case _ => AnswerForgets(tm, k, reply, insist, e, b);
    }
  }

  lemma {:induction false} SolicitForgets(tm: TM, ifaces: seq<CfgIface>, p: R.Poll, b: Binding)
    requires Forgotten(tm, b)
    ensures Forgotten(CheckSolicit(tm, ifaces, p), b)
    decreases |ifaces|
  {
    if ifaces != [] {
      FilterIn(ifaces[0].order, Waiting(tm.cfg));
      SolicitForgets(SolicitOn(tm, ifaces[0], p), ifaces[1..], p, b);
    }
  }

  lemma {:induction false} ConfirmForgets(tm: TM, ifaces: seq<CfgIface>, waiting: seq<Stored>, p: R.Poll, b: Binding)
    requires Forgotten(tm, b) && !Named(ifaces, waiting, b)
    ensures Forgotten(CheckConfirm(tm, ifaces, waiting, p), b)
    decreases |ifaces|
  {
    if ifaces != [] {
      var f := ifaces[0];
      NamedSplit(ifaces, waiting, b);
      FilterIn(waiting, IsOn(f.ifindex));
      var next := ConfirmOn(tm, f, waiting, p);
      assert forall x :: x in Filter(waiting, IsOn(f.ifindex)) ==> FirstIA(f.order).None? || NA(x.iaid) != b;
      assert Forgotten(next, b);
      hide Forgotten, ConfirmOn, Named, StillWaiting;
      ConfirmForgets(next, ifaces[1..], StillWaiting(f, waiting), p, b);
    }
  }

  /** A binding that is in process and named by no message stays so for ever, as long as
      nobody speaks of it: the client itself never asks for it again. */
  lemma {:induction false} StaysForgotten(tm: TM, steps: seq<Step>, ifaces: seq<CfgIface>, insist: bool, b: Binding)
    requires Forgotten(tm, b) && forall s <- steps :: Silent(s, ifaces, b)
    ensures Forgotten(TakeAll(tm, steps, ifaces, insist), b)
    decreases |steps|
  {
    if steps != [] {
      TakeForgets(tm, steps[0], ifaces, insist, b);
      hide Forgotten, Silent, Take;
      StaysForgotten(Take(tm, steps[0], ifaces, insist), steps[1..], ifaces, insist, b);
    }
  }

  lemma {:induction false} TakeForgets(tm: TM, s: Step, ifaces: seq<CfgIface>, insist: bool, b: Binding)
    requires Forgotten(tm, b) && Silent(s, ifaces, b)
    ensures Forgotten(Take(tm, s, ifaces, insist), b)
  {
    hide Duties, SendRequest, GotReply, CheckSolicit, CheckConfirm, Named;
    match s
    case Pass(e) =>
      if R.Draw(e.poll.r1) && R.Draw(e.poll.r2) {
        DutiesForget(tm, e, b);
      }
    case Advertised(k, a, p) =>
      if k < |tm.txns| {
        var t := tm.txns[k];
        var tm' := tm.(adverts := tm.adverts + [a], txns := tm.txns[k := Finished(t, p)]);
        RequestForgets(tm', t.bindings, t.servers, p, b);
      }
    case Replied(k, reply, e) => ReplyForgets(tm, k, reply, insist, e, b);
    case Solicits(p) => SolicitForgets(tm, ifaces, p, b);
    case Confirms(waiting, p) => ConfirmForgets(tm, ifaces, waiting, p, b);
    case Starts(t) =>
    case RunsOut(x) =>
  }

  /** A client with IAs 1 and 2 on one interface and a lease file that has only IA 2. */
  const TWO_IAS: seq<CfgIface> := [CfgIface(1, [NA(1), NA(2)], false)]
  const BEGINNING: TM := TM([], [], map[NA(1) := NotConfigured, NA(2) := NotConfigured], [], [])

  /** Its first `checkConfirm` marks IA 1 for IA 2, so `checkSolicit` asks for IA 2, which
      is being confirmed, and never for IA 1, whatever happens afterwards. */
  lemma {:induction false} ForgottenExample(p: R.Poll, steps: seq<Step>, insist: bool)
    requires forall s <- steps :: Silent(s, TWO_IAS, NA(1))
    ensures var confirming := CheckConfirm(BEGINNING, TWO_IAS, [Stored(2, 1)], p);
            var asked := CheckSolicit(confirming, TWO_IAS, p);
            && |confirming.txns| == 1 && confirming.txns[0].kind == R.Confirm && confirming.txns[0].bindings == [NA(2)]
            && |asked.txns| == 2 && asked.txns[1].kind == R.Solicit && asked.txns[1].bindings == [NA(2)]
            && Forgotten(TakeAll(asked, steps, TWO_IAS, insist), NA(1))
  {
    var f, waiting := TWO_IAS[0], [Stored(2, 1)];
    assert TWO_IAS[1..] == [] && f.order[1..] == [NA(2)] && [NA(2)][1..] == [] && waiting[1..] == [];
    assert FirstIA(f.order) == Some(NA(1));
    assert Filter(waiting, IsOn(1)) == [Stored(2, 1)] by {
      assert Filter(waiting[1..], IsOn(1)) == [];
    }
    assert Names([Stored(2, 1)]) == [NA(2)];
    hide R.Born;
    var confirming := CheckConfirm(BEGINNING, TWO_IAS, waiting, p);
    assert confirming == ConfirmOn(BEGINNING, f, waiting, p);
    assert Filter([NA(2)], Waiting(confirming.cfg)) == [NA(2)] by {
      assert Filter([NA(2)][1..], Waiting(confirming.cfg)) == [];
    }
    assert Filter(f.order, Waiting(confirming.cfg)) == [NA(2)];
    var asked := CheckSolicit(confirming, TWO_IAS, p);
    assert asked == SolicitOn(confirming, f, p);
    StaysForgotten(asked, steps, TWO_IAS, insist, NA(1));
  }
}
