/** ClntTransMgr.cpp: the transaction manager object, proved against the step functions
    of `Transactions`. */
module TransactionManager {
  import opened Containers
  import opened Advertise
  import opened T = Transactions
  import R = Retransmission

  /** Giving up does not look at the message's own entry in the list. */
  lemma {:induction false} GiveUpElsewhere(tm: TM, k: nat, t: Txn, u: Txn, e: Env)
    requires k < |tm.txns|
    ensures var next := GiveUp(tm, t, e);
            && k < |next.txns| && GiveUp(tm.(txns := tm.txns[k := u]), t, e) == next.(txns := next.txns[k := u])
  {
    hide Sorted, SetAll, Free, NewRebind, NewRequest;
  }

  class TransMgr {
    var Transactions: Cursored<Txn>
    var AdvertiseLst: Cursored<Advert>
    var cfg: Cfg
    ghost var log: seq<nat>
    var effects: seq<Effect>

    ghost function View(): TM
      reads this
    {
      TM(Transactions.lista, AdvertiseLst.lista, cfg, log, effects)
    }

    /** `TClntMsgRequest::setState` and the states that the SOLICIT's constructor sets. */
    method SetState(options: seq<Binding>, state: CfgState)
      modifies this`cfg
      ensures cfg == SetAll(old(cfg), options, state)
    {
      assert cfg == SetAll(old(cfg), options[..0], state);
      for i := 0 to |options|
        invariant cfg == SetAll(old(cfg), options[..i], state)
      {
        assert options[..i + 1] == options[..i] + [options[i]];
        if options[i] in cfg {
          cfg := cfg[options[i] := state];
        }
      }
      assert options[..|options|] == options;
    }

    /** `sendRequest` and the constructor of the REQUEST. */
    method SendRequest(bs: seq<Binding>, servers: seq<nat>, p: R.Poll)
      modifies this
      ensures View() == T.SendRequest(old(View()), bs, servers, p)
      ensures Transactions == old(Transactions).Append(View().txns[|View().txns| - 1])
    {
      AdvertiseLst := SortAdvertiseLst(AdvertiseLst);
      var msg;
      if |AdvertiseLst.lista| == 0 {
        SetState(bs, NotConfigured);
        msg := Stillborn(p);
      } else {
        AdvertiseLst := AdvertiseLst.First();
        var server := AdvertiseLst.Peek().value.server;
        AdvertiseLst := AdvertiseLst.DelFirst();
        msg := NewRequest(bs, servers + [server], p);
        log := log + [server];
      }
      Transactions := Transactions.Append(msg);
    }

    /** The REBIND's constructor: its options are the RENEW's, without the SERVERID, and
        it lasts as long as the longest lease in them. */
    method SendRebind(t: Txn, e: Env)
      modifies this`Transactions
      ensures Transactions == old(Transactions).Append(NewRebind(t, e))
    {
      var maxMRD := 0;
      assert t.bindings[..0] == [];
      for i := 0 to |t.bindings|
        invariant maxMRD == Longest(e.left, t.bindings[..i])
      {
        assert t.bindings[..i + 1][..i] == t.bindings[..i];
        if t.bindings[i] in e.left && maxMRD < e.left[t.bindings[i]] {
          maxMRD := e.left[t.bindings[i]];
        }
      }
      assert t.bindings[..|t.bindings|] == t.bindings;
      var msg := Txn(R.Rebind, t.bindings, AfterServerId(t.servers), R.Born(R.Initial(R.Rebind, maxMRD), e.poll));
      Transactions := Transactions.Append(msg);
    }

    /** `releaseIA` of every IA_NA of a message and `setState` of every IA_PD. */
    method ReleaseAll(bs: seq<Binding>, known: set<Binding>)
      modifies this`cfg, this`effects
      ensures cfg == Free(old(cfg), bs, known) && effects == old(effects) + FreedAll(bs)
    {
      assert cfg == Free(old(cfg), bs[..0], known) && effects == old(effects) + FreedAll(bs[..0]);
      for i := 0 to |bs|
        invariant cfg == Free(old(cfg), bs[..i], known) && effects == old(effects) + FreedAll(bs[..i])
      {
        assert bs[..i + 1] == bs[..i] + [bs[i]];
        if bs[i] in cfg && Known(bs[i], known) {
          cfg := cfg[bs[i] := NotConfigured];
        }
        effects := effects + [Freed(bs[i])];
      }
      assert bs[..|bs|] == bs;
    }

    /** `addrsAccepted`. */
    method AcceptAll(bs: seq<Binding>)
      modifies this`effects
      ensures effects == old(effects) + KeptAll(bs)
    {
      for i := 0 to |bs|
        invariant effects == old(effects) + KeptAll(bs[..i])
      {
        assert bs[..i + 1] == bs[..i] + [bs[i]];
        effects := effects + [Kept(bs[i])];
      }
      assert bs[..|bs|] == bs;
    }

    /** What a message does when it gives up, apart from being done. */
    method MsgGivesUp(msg: Txn, e: Env)
      modifies this
      ensures View() == GiveUp(old(View()), msg, e)
      ensures Transactions.it ==
              if old(Transactions.it) == |old(Transactions.lista)| then |Transactions.lista| else old(Transactions.it)
    {
      hide T.SendRequest, Free, NewRebind;
      match msg.kind {
        case Solicit => SendRequest(msg.bindings, msg.servers, e.poll);
        case Request => SendRequest(msg.bindings, msg.servers, e.poll);
        case Renew => SendRebind(msg, e);
        case Rebind => ReleaseAll(msg.bindings, e.left.Keys);
        case Confirm => AcceptAll(msg.bindings);
        case _ =>
      }
    }

    /** `doDuties` of the message `k`, which is due. */
    method MsgDuties(k: nat, e: Env)
      requires k < |Transactions.lista|
      modifies this
      ensures View() == Act(old(View()), k, e)
      ensures Transactions.it ==
              if old(Transactions.it) == |old(Transactions.lista)| then |Transactions.lista| else old(Transactions.it)
    {
      var msg := Transactions.lista[k];
      var over := if msg.kind.Solicit? then |AdvertiseLst.lista| > 0 else R.Exhausted(msg.kind, msg.st.timing);
      assert over == Over(View(), msg);
      hide Over, GiveUp, Finished, R.Transmit;
      if over {
        GiveUpElsewhere(View(), k, msg, Finished(msg, e.poll), e);
        MsgGivesUp(msg, e);
        Transactions := Transactions.SetAt(k, Finished(msg, e.poll));
      } else {
        Transactions := Transactions.SetAt(k, msg.(st := R.Transmit(msg.st, e.poll)));
        if msg.kind.Request? && msg.servers != [] {
          log := log + [msg.servers[|msg.servers| - 1]];
        }
      }
    }

    /** `TClntTransMgr::doDuties`. */
    method DoDuties(e: Env)
      requires R.Draw(e.poll.r1) && R.Draw(e.poll.r2)
      modifies this
      ensures View() == Duties(old(View()), e)
    {
      hide Act, Due, T.SendRequest;
      Transactions := Transactions.First();
      while true
        invariant Transactions.Positioned()
        invariant Walk(View(), Transactions.it, e) == Walk(old(View()), 0, e)
        decreases DueCount(View().txns, Transactions.it, e.poll), |Transactions.lista| - Transactions.it
      {
        var r := Transactions.Peek();
        if r.None? {
          break;
        }
        var k := Transactions.it;
        ghost var tm := View();
        DueCountFrom(tm.txns, k, k + 1, e.poll);
        Transactions := Transactions.Next();
        if Due(r.value, e.poll) {
          ActProgress(tm, k, e);
          MsgDuties(k, e);
          DueCountFrom(View().txns, k + 1, Transactions.it, e.poll);
        }
      }
      DropDone();
    }

    /** The loop that deletes the finished messages. */
    method DropDone()
      modifies this`Transactions
      ensures View() == old(View()).(txns := Filter(old(Transactions.lista), IsLive()))
    {
      Transactions := Transactions.First();
      while true
        invariant Transactions.Positioned()
        invariant Filter(Transactions.lista, IsLive()) == Filter(old(Transactions.lista), IsLive())
        invariant forall i :: 0 <= i < Transactions.it ==> Transactions.lista[i].Live()
        decreases |Transactions.lista|, |Transactions.lista| - Transactions.it
      {
        var r := Transactions.Peek();
        if r.None? {
          break;
        }
        Transactions := Transactions.Next();
        if r.value.st.done {
          FilterWithout(Transactions.lista, Transactions.it - 1, IsLive());
          Transactions := Transactions.Del();
        }
      }
      FilterAll(Transactions.lista, IsLive());
    }

    /** `TClntMsg::answer` of message `k`, and what `TClntMsgRequest::answer` tests first. */
    method OnAnswer(k: nat, reply: Reply, insist: bool, e: Env)
      requires k < |Transactions.lista|
      modifies this
      ensures View() == AnswerRequest(old(View()), k, reply, insist, e)
    {
      hide Accepts, Carry, Sorted, SetAll, NewRequest, Heard;
      var msg := Transactions.lista[k];
      if !Heard(msg, reply) {
        return;
      }
      var options := msg.bindings;
      for i := 0 to |reply.opts|
        invariant Transactions == old(Transactions) && AdvertiseLst == old(AdvertiseLst)
        invariant log == old(log) && effects == old(effects)
        invariant CarryAll(cfg, reply.opts[i..], e.left.Keys, insist) ==
                  CarryAll(old(cfg), reply.opts, e.left.Keys, insist)
        invariant Left(options, reply.opts[i..], insist) == Left(msg.bindings, reply.opts, insist)
      {
        var o := reply.opts[i];
        assert reply.opts[i..][0] == o && reply.opts[i..][1..] == reply.opts[i + 1..];
        cfg := Carry(cfg, o, e.left.Keys, insist);
        if Accepts(o, insist) {
          options := Erase(options, o.binding);
        }
      }
      assert reply.opts[|reply.opts|..] == [];
      if options != [] {
        SendRequest(options, [], e.poll);
      }
      Transactions := Transactions.SetAt(k, Answered(msg, options, e.poll));
    }

    /** `TClntMsgRenew::answer`. */
    method OnAnswerRenew(k: nat, reply: Reply, e: Env)
      requires k < |Transactions.lista|
      modifies this
      ensures View() == AnswerRenew(old(View()), k, reply, e)
    {
      hide T.Renew, Sorted, SetAll, NewRequest;
      var msg := Transactions.lista[k];
      for i := 0 to |reply.opts|
        invariant View() == old(View()).(cfg := cfg)
        invariant Transactions == old(Transactions)
        invariant RenewAll(cfg, reply.opts[i..], e.left.Keys) == RenewAll(old(cfg), reply.opts, e.left.Keys)
      {
        var o := reply.opts[i];
        assert reply.opts[i..][0] == o && reply.opts[i..][1..] == reply.opts[i + 1..];
        if o.code.NoBinding? {
          SendRequest(msg.bindings, msg.servers, e.poll);
          Transactions := Transactions.SetAt(k, Finished(msg, e.poll));
          return;
        }
        cfg := T.Renew(cfg, o, e.left.Keys);
      }
      assert reply.opts[|reply.opts|..] == [];
      Transactions := Transactions.SetAt(k, Finished(msg, e.poll));
    }

    /** `TClntMsgConfirm::answer`. */
    method OnAnswerConfirm(k: nat, reply: Reply, e: Env)
      requires k < |Transactions.lista|
      modifies this
      ensures View() == AnswerConfirm(old(View()), k, reply, e)
    {
      var msg := Transactions.lista[k];
      if reply.status.SuccessStatus? {
        AcceptAll(msg.bindings);
        Transactions := Transactions.SetAt(k, Finished(msg, e.poll));
      } else if reply.status.NotOnLink? {
        ReleaseAll(msg.bindings, e.left.Keys);
        Transactions := Transactions.SetAt(k, Finished(msg, e.poll));
      } else if reply.status.NoStatus? {
        ReleaseAll(msg.bindings, e.left.Keys);
      }
    }

    /** `handleResponse` for a REPLY: each kind of message answers in its own way. */
    method AnswerReply(k: nat, reply: Reply, insist: bool, e: Env)
      modifies this
      ensures View() == GotReply(old(View()), k, reply, insist, e)
    {
      hide AnswerRequest, AnswerRenew, AnswerConfirm;
      if k >= |Transactions.lista| {
        return;
      }
      var msg := Transactions.lista[k];
      match msg.kind {
        case Renew => OnAnswerRenew(k, reply, e);
        case Confirm => OnAnswerConfirm(k, reply, e);
        case Release => Transactions := Transactions.SetAt(k, Finished(msg, e.poll));
        case Decline =>
          if msg.servers != [] && msg.servers[0] == reply.server {
            Transactions := Transactions.SetAt(k, Finished(msg, e.poll));
          }
        case _ => OnAnswer(k, reply, insist, e);
      }
    }

    /** `TClntMsgSolicit::answer` to an ADVERTISE that it does not reject. */
    method AnswerAdvertise(k: nat, a: Advert, p: R.Poll)
      modifies this
      ensures View() == GotAdvertise(old(View()), k, a, p)
    {
      hide Sorted, SetAll, NewRequest;
      if k >= |Transactions.lista| || !Transactions.lista[k].kind.Solicit? {
        return;
      }
      var msg := Transactions.lista[k];
      AdvertiseLst := AdvertiseLst.Append(a);
      if a.pref == 255 || msg.st.timing.rc > 1 {
        SendRequest(msg.bindings, msg.servers, p);
        Transactions := Transactions.SetAt(k, Finished(msg, p));
      }
    }

    /** The turn of `checkSolicit` for one interface, and the constructor of the SOLICIT. */
    method SolicitOn(f: CfgIface, p: R.Poll)
      modifies this
      ensures View() == T.SolicitOn(old(View()), f, p)
    {
      if f.passive {
        return;
      }
      var lst: seq<Binding> := [];
      for i := 0 to |f.order|
        invariant View() == old(View())
        invariant lst == Filter(f.order[..i], Waiting(cfg))
      {
        assert f.order[..i + 1] == f.order[..i] + [f.order[i]];
        FilterSplit(f.order[..i], [f.order[i]], Waiting(cfg));
        if f.order[i] in cfg && cfg[f.order[i]] == NotConfigured {
          lst := lst + [f.order[i]];
        }
      }
      assert f.order[..|f.order|] == f.order;
      if |lst| > 0 {
        Transactions := Transactions.Append(NewSolicit(lst, p));
        SetState(lst, InProcess);
      }
    }

    /** `checkSolicit`. */
    method CheckSolicit(ifaces: seq<CfgIface>, p: R.Poll)
      modifies this
      ensures View() == T.CheckSolicit(old(View()), ifaces, p)
    {
      hide T.SolicitOn;
      for i := 0 to |ifaces|
        invariant T.CheckSolicit(View(), ifaces[i..], p) == T.CheckSolicit(old(View()), ifaces, p)
      {
        assert ifaces[i..][0] == ifaces[i] && ifaces[i..][1..] == ifaces[i + 1..];
        SolicitOn(ifaces[i], p);
      }
      assert ifaces[|ifaces|..] == [];
    }
  }

  /** Erases the first IA option with that IAID. */
  method Erase(bs: seq<Binding>, b: Binding) returns (r: seq<Binding>)
    ensures r == DropFirst(bs, b)
  {
    for i := 0 to |bs|
      invariant DropFirst(bs, b) == bs[..i] + DropFirst(bs[i..], b)
    {
      if bs[i] == b {
        return bs[..i] + bs[i + 1..];
      }
      assert bs[..i] + ([bs[i]] + DropFirst(bs[i + 1..], b)) == bs[..i + 1] + DropFirst(bs[i + 1..], b);
    }
    r := bs;
  }
}
