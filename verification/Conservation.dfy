/** Where every binding that is to be configured is at any time, over whole runs of the
    transactions: nothing is lost, but where the code itself leaves a binding behind. */
module Conservation {
  import opened Containers
  import opened Advertise
  import opened Transactions
  import R = Retransmission

  /** A live message that will see to its bindings. */
  predicate Carries(t: Txn) {
    t.Live() && (t.kind.Solicit? || t.kind.Request? || t.kind.Confirm?)
  }

  predicate Carried(txns: seq<Txn>, b: Binding) {
    exists i :: 0 <= i < |txns| && Carries(txns[i]) && b in txns[i].bindings
  }

  predicate Pending(tm: TM, b: Binding) {
    b in tm.cfg && tm.cfg[b] == InProcess
  }

  /** In process, but no message will see to it. */
  predicate Orphan(tm: TM, b: Binding) {
    Pending(tm, b) && !Carried(tm.txns, b)
  }

  /** What accepted CONFIRMs have left in process: `kept`, when the database had been asked
      `upTo` things, and all that it was asked to keep since. */
  datatype Past = Past(kept: set<Binding>, upTo: nat)

  ghost predicate WasKept(effects: seq<Effect>, past: Past, b: Binding) {
    b in past.kept || Kept(b) in effects[if past.upTo <= |effects| then past.upTo else 0..]
  }

  /** A binding in process is carried by a live SOLICIT, REQUEST or CONFIRM, or else the
      addresses of its IA were kept when a CONFIRM that named it was accepted.  The
      bindings `bs` have just been taken out of a message. */
  ghost predicate SafeBut(tm: TM, past: Past, bs: seq<Binding>) {
    past.upTo <= |tm.effects| && forall b :: Orphan(tm, b) && b !in bs ==> WasKept(tm.effects, past, b)
  }

  ghost predicate Safe(tm: TM, past: Past) {
    SafeBut(tm, past, [])
  }

  lemma {:induction false} CarriedAppend(txns: seq<Txn>, t: Txn, b: Binding)
    ensures Carried(txns + [t], b) <==> Carried(txns, b) || (Carries(t) && b in t.bindings)
  {
    var s := txns + [t];
    if i :| 0 <= i < |txns| && Carries(txns[i]) && b in txns[i].bindings {
      assert s[i] == txns[i];
    } else if Carries(t) && b in t.bindings {
      assert s[|txns|] == t;
    }
    if i :| 0 <= i < |s| && Carries(s[i]) && b in s[i].bindings {
      assert i < |txns| ==> s[i] == txns[i];
    }
  }

  lemma {:induction false} CarriedUpdate(txns: seq<Txn>, k: nat, t: Txn, b: Binding)
    requires k < |txns| && Carried(txns, b)
    requires Carries(txns[k]) && b in txns[k].bindings ==> Carries(t) && b in t.bindings
    ensures Carried(txns[k := t], b)
  {
    var i :| 0 <= i < |txns| && Carries(txns[i]) && b in txns[i].bindings;
    assert Carries(txns[k := t][i]) && b in txns[k := t][i].bindings;
  }

  lemma {:induction false} KeptOn(e: seq<Effect>, e': seq<Effect>, past: Past, b: Binding)
    requires e <= e' && past.upTo <= |e| && WasKept(e, past, b)
    ensures WasKept(e', past, b)
  {
    assert e'[past.upTo..] == e[past.upTo..] + e'[|e|..];
  }

  lemma {:induction false} KeptNow(e: seq<Effect>, past: Past, bs: seq<Binding>, b: Binding)
    requires past.upTo <= |e| && b in bs
    ensures WasKept(e + KeptAll(bs), past, b)
  {
    var i :| 0 <= i < |bs| && bs[i] == b;
    var e' := e + KeptAll(bs);
    assert KeptAll(bs)[i] == Kept(b);
    assert e'[past.upTo..] == e[past.upTo..] + KeptAll(bs);
  }

  /** `sendRequest` puts the bindings it is given into a new message or hands them back. */
  lemma {:induction false} SendRequestSafe(tm: TM, past: Past, bs: seq<Binding>, servers: seq<nat>, p: R.Poll)
    requires SafeBut(tm, past, bs)
    ensures Safe(SendRequest(tm, bs, servers, p), past)
  {
    hide Sorted, WasKept;
    var next := SendRequest(tm, bs, servers, p);
    forall b | Orphan(next, b)
      ensures WasKept(tm.effects, past, b)
    {
      CarriedAppend(tm.txns, next.txns[|tm.txns|], b);
    }
  }

  /** A message may end if its own bindings, should it carry them, are seen to. */
  lemma {:induction false} EndSafeBut(tm: TM, tm': TM, past: Past, k: nat, t: Txn, bs: seq<Binding>)
    requires Safe(tm, past) && k < |tm.txns| && tm'.txns == tm.txns[k := t] && tm.effects <= tm'.effects
    requires forall b :: Pending(tm', b) ==> Pending(tm, b)
    requires Carries(tm.txns[k]) ==>
               forall b :: b in tm.txns[k].bindings && Pending(tm', b) ==> b in bs || WasKept(tm'.effects, past, b)
    ensures SafeBut(tm', past, bs)
  {
    hide WasKept;
    forall b | Orphan(tm', b) && b !in bs
      ensures WasKept(tm'.effects, past, b)
    {
      if Carried(tm.txns, b) {
        if !(Carries(tm.txns[k]) && b in tm.txns[k].bindings) {
          CarriedUpdate(tm.txns, k, t, b);
        }
      } else {
        KeptOn(tm.effects, tm'.effects, past, b);
      }
    }
  }

  lemma {:induction false} SafeAppend(tm: TM, past: Past, t: Txn)
    requires Safe(tm, past)
    ensures Safe(tm.(txns := tm.txns + [t]), past)
  {
    hide WasKept;
    forall b
      ensures Carried(tm.txns, b) ==> Carried(tm.txns + [t], b)
    {
      CarriedAppend(tm.txns, t, b);
    }
  }

  // -- one pass -----------------------------------------------------------------------------

  lemma {:induction false} GiveUpSafe(tm: TM, past: Past, k: nat, e: Env)
    requires Safe(tm, past) && k < |tm.txns|
    ensures Safe(GiveUp(tm.(txns := tm.txns[k := Finished(tm.txns[k], e.poll)]), tm.txns[k], e), past)
  {
    var t := tm.txns[k];
    var u := Finished(t, e.poll);
    var tm' := tm.(txns := tm.txns[k := u]);
    hide WasKept, Sorted, Free, NewRebind;
    match t.kind
    case Solicit =>
      EndSafeBut(tm, tm', past, k, u, t.bindings);
      SendRequestSafe(tm', past, t.bindings, t.servers, e.poll);
    case Request =>
      EndSafeBut(tm, tm', past, k, u, t.bindings);
      SendRequestSafe(tm', past, t.bindings, t.servers, e.poll);
    case Renew =>
      EndSafeBut(tm, tm', past, k, u, []);
      SafeAppend(tm', past, NewRebind(t, e));
    case Rebind =>
      assert GiveUp(tm', t, e).cfg == Free(tm.cfg, t.bindings, e.left.Keys);
      FreePending(tm.cfg, t.bindings, e.left.Keys);
      EndSafeBut(tm, GiveUp(tm', t, e), past, k, u, []);
    case Confirm =>
      forall b | b in t.bindings
        ensures WasKept(tm.effects + KeptAll(t.bindings), past, b)
      {
        KeptNow(tm.effects, past, t.bindings, b);
      }
      EndSafeBut(tm, GiveUp(tm', t, e), past, k, u, []);
    case _ => EndSafeBut(tm, tm', past, k, u, []);
  }

  lemma {:induction false} FreePending(cfg: Cfg, bs: seq<Binding>, known: set<Binding>)
    ensures var r := Free(cfg, bs, known);
            r.Keys == cfg.Keys && forall b :: b in cfg && r[b] == InProcess ==> cfg[b] == InProcess
  {
  }

  lemma {:induction false} ActSafe(tm: TM, past: Past, k: nat, e: Env)
    requires Safe(tm, past) && k < |tm.txns|
    ensures Safe(Act(tm, k, e), past)
  {
    var t := tm.txns[k];
    if Over(tm, t) {
      GiveUpSafe(tm, past, k, e);
    } else {
      hide WasKept, R.Transmit;
      forall b | Carried(tm.txns, b)
        ensures Carried(Act(tm, k, e).txns, b)
      {
        CarriedUpdate(tm.txns, k, t.(st := R.Transmit(t.st, e.poll)), b);
      }
    }
  }

  lemma {:induction false} WalkSafe(tm: TM, past: Past, k: nat, e: Env)
    requires R.Draw(e.poll.r1) && R.Draw(e.poll.r2) && Safe(tm, past)
    ensures Safe(Walk(tm, k, e), past)
    decreases DueCount(tm.txns, k, e.poll), |tm.txns| - k
  {
    hide Act, Safe, DueCount;
    if k < |tm.txns| {
      if !Due(tm.txns[k], e.poll) {
        DueCountFrom(tm.txns, k, k + 1, e.poll);
        WalkSafe(tm, past, k + 1, e);
      } else {
        ActProgress(tm, k, e);
        ActSafe(tm, past, k, e);
        var tm' := Act(tm, k, e);
        var k' := if k + 1 == |tm.txns| then |tm'.txns| else k + 1;
        DueCountFrom(tm'.txns, k + 1, k', e.poll);
        WalkSafe(tm', past, k', e);
      }
    }
  }

  lemma {:induction false} DutiesSafe(tm: TM, past: Past, e: Env)
    requires R.Draw(e.poll.r1) && R.Draw(e.poll.r2) && Safe(tm, past)
    ensures Safe(Duties(tm, e), past)
  {
    WalkSafe(tm, past, 0, e);
    hide Walk, WasKept;
    var w := Walk(tm, 0, e);
    var live := Filter(w.txns, IsLive());
    FilterIn(w.txns, IsLive());
    forall b | Carried(w.txns, b)
      ensures Carried(live, b)
    {
      var i :| 0 <= i < |w.txns| && Carries(w.txns[i]) && b in w.txns[i].bindings;
      assert w.txns[i] in live;
      var j :| 0 <= j < |live| && live[j] == w.txns[i];
    }
  }

  // -- answers --------------------------------------------------------------------------------

  ghost predicate AcceptedIn(opts: seq<ReplyOpt>, b: Binding, insist: bool) {
    exists i :: 0 <= i < |opts| && opts[i].binding == b && Accepts(opts[i], insist)
  }

  lemma {:induction false} AcceptedSplit(opts: seq<ReplyOpt>, b: Binding, insist: bool)
    requires opts != []
    ensures AcceptedIn(opts, b, insist) <==>
            (opts[0].binding == b && Accepts(opts[0], insist)) || AcceptedIn(opts[1..], b, insist)
  {
    if i :| 0 <= i < |opts[1..]| && opts[1..][i].binding == b && Accepts(opts[1..][i], insist) {
      assert opts[i + 1].binding == b;
    }
    if i :| 0 <= i < |opts| && opts[i].binding == b && Accepts(opts[i], insist) {
      if i > 0 {
        assert opts[1..][i - 1].binding == b;
      }
    }
  }

  /** A reply configures exactly the known bindings it grants. */
  lemma {:induction false} CarryAllMeaning(cfg: Cfg, opts: seq<ReplyOpt>, known: set<Binding>, insist: bool, b: Binding)
    ensures CarryAll(cfg, opts, known, insist).Keys == cfg.Keys
    ensures b in cfg ==>
              CarryAll(cfg, opts, known, insist)[b] ==
                (if AcceptedIn(opts, b, insist) && Known(b, known) then Configured else cfg[b])
    decreases |opts|
  {
    if opts != [] {
      AcceptedSplit(opts, b, insist);
      CarryAllMeaning(Carry(cfg, opts[0], known, insist), opts[1..], known, insist, b);
    }
  }

  lemma {:induction false} DropFirstMeaning(bs: seq<Binding>, a: Binding)
    ensures forall b :: b != a ==> (b in DropFirst(bs, a) <==> b in bs)
    ensures NoDup(bs) ==> NoDup(DropFirst(bs, a)) && a !in DropFirst(bs, a)
    ensures forall b :: b in DropFirst(bs, a) ==> b in bs
  {
    if bs != [] && bs[0] != a {
      DropFirstMeaning(bs[1..], a);
      if NoDup(bs) {
        NoDupConcat([bs[0]], DropFirst(bs[1..], a));
      }
    }
  }

  /** A reply takes exactly the granted bindings off the question (each listed once). */
  lemma {:induction false} LeftMeaning(bs: seq<Binding>, opts: seq<ReplyOpt>, insist: bool, b: Binding)
    ensures b in bs && !AcceptedIn(opts, b, insist) ==> b in Left(bs, opts, insist)
    ensures NoDup(bs) && AcceptedIn(opts, b, insist) ==> b !in Left(bs, opts, insist)
    ensures b !in bs ==> b !in Left(bs, opts, insist)
    decreases |opts|
  {
    if opts != [] {
      AcceptedSplit(opts, b, insist);
      DropFirstMeaning(bs, opts[0].binding);
      var next := if Accepts(opts[0], insist) then DropFirst(bs, opts[0].binding) else bs;
      LeftMeaning(next, opts[1..], insist, b);
    }
  }

  lemma {:induction false} AnswerRequestSafe(tm: TM, past: Past, k: nat, reply: Reply, insist: bool, e: Env)
    requires Safe(tm, past) && k < |tm.txns| && forall b :: b in tm.cfg ==> Known(b, e.left.Keys)
    ensures Safe(AnswerRequest(tm, k, reply, insist, e), past)
  {
    var t := tm.txns[k];
    if Heard(t, reply) {
      var known := e.left.Keys;
      var left := Left(t.bindings, reply.opts, insist);
      var cfg := CarryAll(tm.cfg, reply.opts, known, insist);
      var tm' := tm.(cfg := cfg, txns := tm.txns[k := Answered(t, left, e.poll)]);
      CarryAllMeaning(tm.cfg, reply.opts, known, insist, NA(0));
      forall b | Pending(tm', b)
        ensures Pending(tm, b) && (b in t.bindings ==> b in left)
      {
        CarryAllMeaning(tm.cfg, reply.opts, known, insist, b);
        LeftMeaning(t.bindings, reply.opts, insist, b);
      }
      hide CarryAll, Left, WasKept;
      EndSafeBut(tm, tm', past, k, Answered(t, left, e.poll), left);
      SendRequestSafe(tm', past, left, [], e.poll);
    }
  }

  lemma {:induction false} RenewAllMeaning(cfg: Cfg, opts: seq<ReplyOpt>, known: set<Binding>)
    ensures var (r, _) := RenewAll(cfg, opts, known);
            r.Keys == cfg.Keys && forall b :: b in cfg ==> r[b] == cfg[b] || r[b] == Configured
    decreases |opts|
  {
    if opts != [] && !opts[0].code.NoBinding? {
      RenewAllMeaning(Renew(cfg, opts[0], known), opts[1..], known);
    }
  }

  lemma {:induction false} AnswerRenewSafe(tm: TM, past: Past, k: nat, reply: Reply, e: Env)
    requires Safe(tm, past) && k < |tm.txns| && tm.txns[k].kind.Renew?
    ensures Safe(AnswerRenew(tm, k, reply, e), past)
  {
    var t := tm.txns[k];
    RenewAllMeaning(tm.cfg, reply.opts, e.left.Keys);
    var (cfg, lost) := RenewAll(tm.cfg, reply.opts, e.left.Keys);
    var tm' := tm.(cfg := cfg, txns := tm.txns[k := Finished(t, e.poll)]);
    hide RenewAll, WasKept;
    EndSafeBut(tm, tm', past, k, Finished(t, e.poll), []);
    EndSafeBut(tm, tm', past, k, Finished(t, e.poll), t.bindings);
    SendRequestSafe(tm', past, t.bindings, t.servers, e.poll);
  }

  /** A rejected CONFIRM needs the IAs it names in the database: otherwise it leaves their
      bindings in process. */
  lemma {:induction false} AnswerConfirmSafe(tm: TM, past: Past, k: nat, reply: Reply, e: Env)
    requires Safe(tm, past) && k < |tm.txns| && tm.txns[k].kind.Confirm?
    requires forall b :: b in tm.cfg ==> Known(b, e.left.Keys)
    ensures Safe(AnswerConfirm(tm, k, reply, e), past)
  {
    var t := tm.txns[k];
    var u := Finished(t, e.poll);
    var next := AnswerConfirm(tm, k, reply, e);
    FreePending(tm.cfg, t.bindings, e.left.Keys);
    hide WasKept;
    match reply.status
    case SuccessStatus =>
      forall b | b in t.bindings
        ensures WasKept(tm.effects + KeptAll(t.bindings), past, b)
      {
        KeptNow(tm.effects, past, t.bindings, b);
      }
      EndSafeBut(tm, next, past, k, u, []);
    case NotOnLink => EndSafeBut(tm, next, past, k, u, []);
    case NoStatus => EndSafeBut(tm, next, past, k, t, []);
    case OtherStatus =>
  }

  /** A reply loses no binding, whatever message it answers, if the database has every
      configured IA_NA. */
  lemma {:induction false} GotReplySafe(tm: TM, past: Past, k: nat, reply: Reply, insist: bool, e: Env)
    requires Safe(tm, past) && forall b :: b in tm.cfg ==> Known(b, e.left.Keys)
    ensures Safe(GotReply(tm, k, reply, insist, e), past)
  {
    hide AnswerRequest, AnswerRenew, AnswerConfirm, WasKept;
    if k < |tm.txns| {
      var t := tm.txns[k];
      var u := Finished(t, e.poll);
      match t.kind
      case Renew => AnswerRenewSafe(tm, past, k, reply, e);
      case Confirm => AnswerConfirmSafe(tm, past, k, reply, e);
      case Release => EndSafeBut(tm, tm.(txns := tm.txns[k := u]), past, k, u, []);
      case Decline => EndSafeBut(tm, tm.(txns := tm.txns[k := u]), past, k, u, []);
      case _ => AnswerRequestSafe(tm, past, k, reply, insist, e);
    }
  }

  lemma {:induction false} GotAdvertiseSafe(tm: TM, past: Past, k: nat, a: Advert, p: R.Poll)
    requires Safe(tm, past)
    ensures Safe(GotAdvertise(tm, k, a, p), past)
  {
    hide WasKept;
    if k < |tm.txns| && tm.txns[k].kind.Solicit? {
      var t := tm.txns[k];
      var tm' := tm.(adverts := tm.adverts + [a], txns := tm.txns[k := Finished(t, p)]);
      EndSafeBut(tm, tm', past, k, Finished(t, p), t.bindings);
      SendRequestSafe(tm', past, t.bindings, t.servers, p);
      hide SendRequest;
    }
  }

  // -- the checks -----------------------------------------------------------------------------

  lemma {:induction false} SolicitOnSafe(tm: TM, past: Past, f: CfgIface, p: R.Poll)
    requires Safe(tm, past)
    ensures Safe(SolicitOn(tm, f, p), past)
  {
    hide WasKept;
    var bs := Filter(f.order, Waiting(tm.cfg));
    var next := SolicitOn(tm, f, p);
    if !f.passive && bs != [] {
      forall b | Orphan(next, b)
        ensures Orphan(tm, b)
      {
        CarriedAppend(tm.txns, NewSolicit(bs, p), b);
      }
    }
  }

  lemma {:induction false} CheckSolicitSafe(tm: TM, past: Past, ifaces: seq<CfgIface>, p: R.Poll)
    requires Safe(tm, past)
    ensures Safe(CheckSolicit(tm, ifaces, p), past)
    decreases |ifaces|
  {
    if ifaces != [] {
      SolicitOnSafe(tm, past, ifaces[0], p);
      hide Safe, SolicitOn;
      CheckSolicitSafe(SolicitOn(tm, ifaces[0], p), past, ifaces[1..], p);
    }
  }

  lemma {:induction false} SolicitOnTakes(tm: TM, f: CfgIface, p: R.Poll, b: Binding)
    requires b in tm.cfg
    ensures var next := SolicitOn(tm, f, p); var asked := tm.cfg[b] == NotConfigured && !f.passive && b in f.order;
            b in next.cfg && next.cfg[b] == if asked then InProcess else tm.cfg[b]
  {
    FilterIn(f.order, Waiting(tm.cfg));
  }

  /** `checkSolicit` puts in process exactly what waits and is configured on an interface
      it looks at; nothing else changes. */
  lemma {:induction false} CheckSolicitTakesAll(tm: TM, ifaces: seq<CfgIface>, p: R.Poll, b: Binding)
    requires b in tm.cfg
    ensures var next := CheckSolicit(tm, ifaces, p);
            var asked := tm.cfg[b] == NotConfigured && exists f :: f in ifaces && b in f.order && !f.passive;
            b in next.cfg && next.cfg[b] == if asked then InProcess else tm.cfg[b]
    decreases |ifaces|
  {
    if ifaces != [] {
      SolicitOnTakes(tm, ifaces[0], p, b);
      hide SolicitOn;
      CheckSolicitTakesAll(SolicitOn(tm, ifaces[0], p), ifaces[1..], p, b);
      assert forall f :: f in ifaces <==> f == ifaces[0] || f in ifaces[1..];
    }
  }

  /** The first IA_NA of the interface is put in process if any IA waits there ... */
  ghost predicate Marks(f: CfgIface, waiting: seq<Stored>, b: Binding) {
    FirstIA(f.order) == Some(b) && exists x :: x in waiting && x.ifindex == f.ifindex
  }

  /** ... and those that wait are named. */
  ghost predicate NamedOn(f: CfgIface, waiting: seq<Stored>, b: Binding) {
    FirstIA(f.order).Some? && exists x :: x in waiting && x.ifindex == f.ifindex && b == NA(x.iaid)
  }

  lemma {:induction false} ConfirmOnExactly(tm: TM, f: CfgIface, waiting: seq<Stored>, p: R.Poll, b: Binding)
    ensures var next := ConfirmOn(tm, f, waiting, p);
            && next.cfg.Keys == tm.cfg.Keys && next.effects == tm.effects
            && (b in tm.cfg ==> next.cfg[b] == if Marks(f, waiting, b) then InProcess else tm.cfg[b])
            && (Carried(next.txns, b) <==> Carried(tm.txns, b) || NamedOn(f, waiting, b))
  {
    var xs := Filter(waiting, IsOn(f.ifindex));
    FilterIn(waiting, IsOn(f.ifindex));
    if xs != [] {
      assert xs[0] in xs;
      CarriedAppend(tm.txns, NewConfirm(Names(xs), p), b);
      if x :| x in xs && b == NA(x.iaid) {
        var i :| 0 <= i < |xs| && xs[i] == x;
        assert Names(xs)[i] == b;
      }
    }
  }

  /** `b` is the first configured IA_NA of an interface on which some IA waits.  (Of two
      interfaces with one index the first would take them all.) */
  ghost predicate Marked(ifaces: seq<CfgIface>, waiting: seq<Stored>, b: Binding) {
    exists i :: 0 <= i < |ifaces| && Marks(ifaces[i], waiting, b) && Foremost(ifaces, i)
  }

  ghost predicate Foremost(ifaces: seq<CfgIface>, i: int)
    requires 0 <= i < |ifaces|
  {
    forall j :: 0 <= j < i && FirstIA(ifaces[j].order).Some? ==> ifaces[j].ifindex != ifaces[i].ifindex
  }

  /** `b` is itself one of those that wait, on an interface with an IA_NA. */
  ghost predicate Named(ifaces: seq<CfgIface>, waiting: seq<Stored>, b: Binding) {
    exists f :: f in ifaces && NamedOn(f, waiting, b)
  }

  lemma {:induction false} MarkedSplit(ifaces: seq<CfgIface>, waiting: seq<Stored>, b: Binding)
    requires ifaces != []
    ensures Marked(ifaces, waiting, b) <==>
            Marks(ifaces[0], waiting, b) || Marked(ifaces[1..], StillWaiting(ifaces[0], waiting), b)
  {
    var f, rest, left := ifaces[0], ifaces[1..], StillWaiting(ifaces[0], waiting);
    FilterIn(waiting, IsOff(f.ifindex));
    hide FirstIA;
    if i :| 0 <= i < |ifaces| && Marks(ifaces[i], waiting, b) && Foremost(ifaces, i) {
      if i > 0 {
        assert rest[i - 1] == ifaces[i];
        assert Marks(rest[i - 1], left, b);
        assert forall j :: 0 <= j < i - 1 ==> rest[j] == ifaces[j + 1];
        assert Foremost(rest, i - 1);
      }
    }
    if i :| 0 <= i < |rest| && Marks(rest[i], left, b) && Foremost(rest, i) {
      assert Marks(ifaces[i + 1], waiting, b);
      assert forall j :: 0 < j < i + 1 ==> rest[j - 1] == ifaces[j];
      assert Foremost(ifaces, i + 1);
    }
    if Marks(f, waiting, b) {
      assert Foremost(ifaces, 0);
    }
  }

  lemma {:induction false} NamedSplit(ifaces: seq<CfgIface>, waiting: seq<Stored>, b: Binding)
    requires ifaces != []
    ensures Named(ifaces, waiting, b) <==>
            NamedOn(ifaces[0], waiting, b) || Named(ifaces[1..], StillWaiting(ifaces[0], waiting), b)
  {
    FilterIn(waiting, IsOff(ifaces[0].ifindex));
    hide FirstIA;
    assert forall f :: f in ifaces <==> f == ifaces[0] || f in ifaces[1..];
    if f :| f in ifaces[1..] && NamedOn(f, waiting, b) && !NamedOn(ifaces[0], waiting, b) {
      assert NamedOn(f, StillWaiting(ifaces[0], waiting), b);
    }
    if f :| f in ifaces[1..] && NamedOn(f, StillWaiting(ifaces[0], waiting), b) {
      assert NamedOn(f, waiting, b);
    }
  }

  /** What `checkConfirm` does to one binding. */
  lemma {:induction false} CheckConfirmExactly(tm: TM, ifaces: seq<CfgIface>, waiting: seq<Stored>, p: R.Poll,
                                               b: Binding)
    ensures var next := CheckConfirm(tm, ifaces, waiting, p);
            && next.cfg.Keys == tm.cfg.Keys && next.effects == tm.effects
            && (b in tm.cfg ==> next.cfg[b] == if Marked(ifaces, waiting, b) then InProcess else tm.cfg[b])
            && (Carried(next.txns, b) <==> Carried(tm.txns, b) || Named(ifaces, waiting, b))
    decreases |ifaces|
  {
    if ifaces != [] {
      var f, left := ifaces[0], StillWaiting(ifaces[0], waiting);
      MarkedSplit(ifaces, waiting, b);
      NamedSplit(ifaces, waiting, b);
      ConfirmOnExactly(tm, f, waiting, p, b);
      hide ConfirmOn, StillWaiting, Marked, Named, Marks, NamedOn, Carried;
      CheckConfirmExactly(ConfirmOn(tm, f, waiting, p), ifaces[1..], left, p, b);
    }
  }

  /** When `checkConfirm` leaves a binding behind: exactly when it is the first configured
      IA_NA of an interface on which some IA waits, does not wait itself, and no message
      carried it before. */
  lemma {:induction false} ConfirmLosesExactly(tm: TM, ifaces: seq<CfgIface>, waiting: seq<Stored>, p: R.Poll,
                                               b: Binding)
    requires b in tm.cfg && !Orphan(tm, b)
    ensures Orphan(CheckConfirm(tm, ifaces, waiting, p), b) <==>
            Marked(ifaces, waiting, b) && !Named(ifaces, waiting, b) && !Carried(tm.txns, b)
  {
    CheckConfirmExactly(tm, ifaces, waiting, p, b);
    hide CheckConfirm, Marked, Named, Carried;
  }

  /** No binding is left behind that was not so before. */
  ghost predicate NoneForgotten(tm: TM, ifaces: seq<CfgIface>, waiting: seq<Stored>) {
    forall b :: b in tm.cfg && Marked(ifaces, waiting, b) ==>
      Named(ifaces, waiting, b) || Carried(tm.txns, b) || Pending(tm, b)
  }

  lemma {:induction false} CheckConfirmSafe(tm: TM, past: Past, ifaces: seq<CfgIface>, waiting: seq<Stored>, p: R.Poll)
    requires Safe(tm, past) && NoneForgotten(tm, ifaces, waiting)
    ensures Safe(CheckConfirm(tm, ifaces, waiting, p), past)
  {
    var next := CheckConfirm(tm, ifaces, waiting, p);
    CheckConfirmExactly(tm, ifaces, waiting, p, NA(0));
    hide CheckConfirm, Marked, Named, Carried, WasKept;
    forall b | Orphan(next, b)
      ensures Orphan(tm, b)
    {
      CheckConfirmExactly(tm, ifaces, waiting, p, b);
    }
  }

  // -- runs -----------------------------------------------------------------------------------

  lemma {:induction false} ActKeys(tm: TM, k: nat, e: Env)
    requires k < |tm.txns|
    ensures Act(tm, k, e).cfg.Keys == tm.cfg.Keys
  {
    hide Sorted, Over;
  }

  lemma {:induction false} WalkKeys(tm: TM, k: nat, e: Env)
    requires R.Draw(e.poll.r1) && R.Draw(e.poll.r2)
    ensures Walk(tm, k, e).cfg.Keys == tm.cfg.Keys
    decreases DueCount(tm.txns, k, e.poll), |tm.txns| - k
  {
    hide Act, DueCount;
    if k < |tm.txns| {
      if !Due(tm.txns[k], e.poll) {
        DueCountFrom(tm.txns, k, k + 1, e.poll);
        WalkKeys(tm, k + 1, e);
      } else {
        ActProgress(tm, k, e);
        ActKeys(tm, k, e);
        var tm' := Act(tm, k, e);
        var k' := if k + 1 == |tm.txns| then |tm'.txns| else k + 1;
        DueCountFrom(tm'.txns, k + 1, k', e.poll);
        WalkKeys(tm', k', e);
      }
    }
  }

  lemma {:induction false} AnswerRequestKeys(tm: TM, k: nat, reply: Reply, insist: bool, e: Env)
    requires k < |tm.txns|
    ensures AnswerRequest(tm, k, reply, insist, e).cfg.Keys == tm.cfg.Keys
  {
    CarryAllMeaning(tm.cfg, reply.opts, e.left.Keys, insist, NA(0));
    hide Sorted, Left, CarryAll, Heard, Answered;
  }

  lemma {:induction false} AnswerRenewKeys(tm: TM, k: nat, reply: Reply, e: Env)
    requires k < |tm.txns|
    ensures AnswerRenew(tm, k, reply, e).cfg.Keys == tm.cfg.Keys
  {
    RenewAllMeaning(tm.cfg, reply.opts, e.left.Keys);
    hide Sorted, RenewAll;
  }

  lemma {:induction false} GotReplyKeys(tm: TM, k: nat, reply: Reply, insist: bool, e: Env)
    ensures GotReply(tm, k, reply, insist, e).cfg.Keys == tm.cfg.Keys
  {
    hide AnswerRequest, AnswerRenew;
    if k < |tm.txns| {
      AnswerRequestKeys(tm, k, reply, insist, e);
      AnswerRenewKeys(tm, k, reply, e);
    }
  }

  lemma {:induction false} SolicitKeys(tm: TM, ifaces: seq<CfgIface>, p: R.Poll)
    ensures CheckSolicit(tm, ifaces, p).cfg.Keys == tm.cfg.Keys
    decreases |ifaces|
  {
    if ifaces != [] {
      SolicitKeys(SolicitOn(tm, ifaces[0], p), ifaces[1..], p);
    }
  }

  /** No step configures anything that was not configured to be asked for. */
  lemma {:induction false} TakeKeys(tm: TM, s: Step, ifaces: seq<CfgIface>, insist: bool)
    ensures Take(tm, s, ifaces, insist).cfg.Keys == tm.cfg.Keys
  {
    hide Walk, GotReply, Sorted, CheckConfirm, CheckSolicit;
    match s
    case Pass(e) =>
      if R.Draw(e.poll.r1) && R.Draw(e.poll.r2) {
        WalkKeys(tm, 0, e);
      }
    case Replied(k, reply, e) => GotReplyKeys(tm, k, reply, insist, e);
    case Solicits(p) => SolicitKeys(tm, ifaces, p);
    case Confirms(waiting, p) => CheckConfirmExactly(tm, ifaces, waiting, p, NA(0));
    case _ =>
  }

  ghost predicate KnowsAll(tm: TM, known: set<Binding>) {
    forall b :: b in tm.cfg ==> Known(b, known)
  }

  /** When a reply comes, the database has the IA of every configured IA_NA; and
      `checkConfirm` leaves none behind. */
  ghost predicate Provided(tm: TM, s: Step, ifaces: seq<CfgIface>) {
    && (s.Replied? ==> KnowsAll(tm, s.e.left.Keys))
    && (s.Confirms? ==> NoneForgotten(tm, ifaces, s.waiting))
  }

  lemma {:induction false} RunsOutSafe(tm: TM, past: Past, b: Binding)
    requires Safe(tm, past)
    ensures b in tm.cfg ==> Safe(tm.(cfg := tm.cfg[b := NotConfigured]), past)
  {
    hide WasKept, Carried;
  }

  lemma {:induction false} TakeSafe(tm: TM, past: Past, s: Step, ifaces: seq<CfgIface>, insist: bool)
    requires Safe(tm, past) && Provided(tm, s, ifaces)
    ensures Safe(Take(tm, s, ifaces, insist), past)
  {
    hide Safe, Duties, GotAdvertise, GotReply, CheckSolicit, CheckConfirm, NoneForgotten;
    match s
    case Pass(e) =>
      if R.Draw(e.poll.r1) && R.Draw(e.poll.r2) {
        DutiesSafe(tm, past, e);
      }
    case Advertised(k, a, p) => GotAdvertiseSafe(tm, past, k, a, p);
    case Replied(k, reply, e) => GotReplySafe(tm, past, k, reply, insist, e);
    case Solicits(p) => CheckSolicitSafe(tm, past, ifaces, p);
    case Confirms(waiting, p) => CheckConfirmSafe(tm, past, ifaces, waiting, p);
    case Starts(t) => SafeAppend(tm, past, t);
    case RunsOut(b) => RunsOutSafe(tm, past, b);
  }

  /** Every binding in process is carried, but for `kept`. */
  ghost predicate Covered(tm: TM, kept: set<Binding>) {
    forall b :: Orphan(tm, b) ==> b in kept
  }

  /** The bindings named by a CONFIRM when it was accepted and in process ever since. */
  function StillKept(tm: TM, tm': TM, kept: set<Binding>): set<Binding> {
    set b | b in tm'.cfg && tm'.cfg[b] == InProcess && (b in kept || Kept(b) in NewEffects(tm, tm')) :: b
  }

  function KeptAfter(tm: TM, steps: seq<Step>, ifaces: seq<CfgIface>, insist: bool, kept: set<Binding>): set<Binding>
    decreases |steps|
  {
    if steps == [] then kept
    else
      var next := Take(tm, steps[0], ifaces, insist);
      KeptAfter(next, steps[1..], ifaces, insist, StillKept(tm, next, kept))
  }

  ghost predicate AllProvided(tm: TM, steps: seq<Step>, ifaces: seq<CfgIface>, insist: bool)
    decreases |steps|
  {
    || steps == []
    || (Provided(tm, steps[0], ifaces) && AllProvided(Take(tm, steps[0], ifaces, insist), steps[1..], ifaces, insist))
  }

  lemma {:induction false} TakeCovered(tm: TM, s: Step, ifaces: seq<CfgIface>, insist: bool, kept: set<Binding>)
    requires Covered(tm, kept) && Provided(tm, s, ifaces)
    ensures var next := Take(tm, s, ifaces, insist); Covered(next, StillKept(tm, next, kept))
  {
    var past := Past(kept, |tm.effects|);
    TakeSafe(tm, past, s, ifaces, insist);
    hide Take, Provided, Carried;
  }

  /** No requested binding is lost: after any sequence of answers, timeouts, expiries,
      SOLICITs, CONFIRMs and other messages, every binding in process is carried by a live
      SOLICIT, REQUEST or CONFIRM, or its addresses were kept when a CONFIRM was accepted
      and it has been in process since.  When the provisos fail a binding can be lost: see
      `LeftBehind.LostExactly` for replies, `ConfirmLosesExactly` for `checkConfirm`. */
  lemma {:induction false} NoBindingLost(tm: TM, steps: seq<Step>, ifaces: seq<CfgIface>, insist: bool,
                                         kept: set<Binding>)
    requires Covered(tm, kept) && AllProvided(tm, steps, ifaces, insist)
    ensures Covered(TakeAll(tm, steps, ifaces, insist), KeptAfter(tm, steps, ifaces, insist, kept))
    decreases |steps|
  {
    if steps != [] {
      TakeCovered(tm, steps[0], ifaces, insist, kept);
      hide Covered, Take, Provided;
      var next := Take(tm, steps[0], ifaces, insist);
      NoBindingLost(next, steps[1..], ifaces, insist, StillKept(tm, next, kept));
    }
  }
}
