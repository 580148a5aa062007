/** ClntTransMgr.cpp, ClntMsg.cpp and the messages' `doDuties` and `answer`: the list of
    transactions, server failover, the handover from RENEW to REBIND, and where every
    binding that has to be configured is at any time. */
module Transactions {
  import opened Containers
  import opened Advertise
  import R = Retransmission

  /** An IA_NA or IA_PD of the configuration. */
  datatype Binding = NA(iaid: nat) | PD(iaid: nat)

  datatype CfgState = NotConfigured | InProcess | Configured | OtherState

  /** What a pass sees: the clock and two draws, and for each IA and PD in the database
      the longest valid time left in it. */
  datatype Env = Env(poll: R.Poll, left: map<Binding, nat>)

  /** What messages ask of the database: `releaseIA` and its like for an IA whose leases
      are lost, or the confirmation of its addresses. */
  datatype Effect = Freed(b: Binding) | Kept(b: Binding)

  /** A transaction: the IA options it still carries and its SERVERID options in
      order.  Of the other options nothing matters here. */
  datatype Txn = Txn(kind: R.Kind, bindings: seq<Binding>, servers: seq<nat>, st: R.Status)
  {
    predicate Live() {
      !st.done
    }
  }

  type Cfg = map<Binding, CfgState>

  /** Transactions, stored advertisements, configured states, the server of each REQUEST
      transmission so far, and what the database was asked so far. */
  datatype TM = TM(txns: seq<Txn>, adverts: seq<Advert>, cfg: Cfg, log: seq<nat>, effects: seq<Effect>)

  // -- what one step does -------------------------------------------------------------

  function SetAll(cfg: Cfg, bs: seq<Binding>, s: CfgState): Cfg {
    map b | b in cfg :: if b in bs then s else cfg[b]
  }

  /** The finished message that is left when no server remains. */
  function Stillborn(p: R.Poll): Txn {
    Txn(R.Request, [], [], R.Status(R.Initial(R.Request, 0), p.now, [], 0, 0, true))
  }

  function NewRequest(bs: seq<Binding>, servers: seq<nat>, p: R.Poll): Txn {
    Txn(R.Request, bs, servers, R.Born(R.Initial(R.Request, 0), p))
  }

  /** `sendRequest`: the best server left gets a REQUEST with all options, the old
      SERVERID options included; with no server left the bindings are handed back. */
  function SendRequest(tm: TM, bs: seq<Binding>, servers: seq<nat>, p: R.Poll): TM {
    var a := Sorted(tm.adverts);
    if a == [] then tm.(txns := tm.txns + [Stillborn(p)], adverts := [], cfg := SetAll(tm.cfg, bs, NotConfigured))
    else tm.(txns := tm.txns + [NewRequest(bs, servers + [a[0].server], p)], adverts := a[1..],
             log := tm.log + [a[0].server])
  }

  predicate Due(t: Txn, p: R.Poll) {
    t.Live() && R.Timeout(t.kind, t.st, p.now) == 0
  }

  function Finished(t: Txn, p: R.Poll): Txn {
    t.(st := t.st.(done := true, gaveUp := p.now))
  }

  /** A binding that the database has, if it is an IA_NA. */
  predicate Known(b: Binding, known: set<Binding>) {
    b.NA? ==> b in known
  }

  /** `releaseIA` of each IA_NA in the database, `setState` of each PD. */
  function Free(cfg: Cfg, bs: seq<Binding>, known: set<Binding>): Cfg {
    map b | b in cfg :: if b in bs && Known(b, known) then NotConfigured else cfg[b]
  }

  function FreedAll(bs: seq<Binding>): seq<Effect> {
    seq(|bs|, (i: nat) requires i < |bs| => Freed(bs[i]))
  }

  function KeptAll(bs: seq<Binding>): seq<Effect> {
    seq(|bs|, (i: nat) requires i < |bs| => Kept(bs[i]))
  }

  /** `delOption` erases the first SERVERID. */
  function AfterServerId(servers: seq<nat>): seq<nat> {
    if servers == [] then [] else servers[1..]
  }

  /** The longest valid time left in any of the bindings that the database has. */
  function Longest(left: map<Binding, nat>, bs: seq<Binding>): nat {
    if bs == [] then 0
    else
      var m, b := Longest(left, bs[..|bs| - 1]), bs[|bs| - 1];
      if b in left && m < left[b] then left[b] else m
  }

  /** The REBIND that takes over from a RENEW. */
  function NewRebind(t: Txn, e: Env): Txn {
    Txn(R.Rebind, t.bindings, AfterServerId(t.servers),
      R.Born(R.Initial(R.Rebind, Longest(e.left, t.bindings)), e.poll))
  }

  predicate Over(tm: TM, t: Txn) {
    if t.kind.Solicit? then tm.adverts != [] else R.Exhausted(t.kind, t.st.timing)
  }

  /** The message has waited long enough: what comes instead of it. */
  function GiveUp(tm: TM, t: Txn, e: Env): TM {
    match t.kind
    case Solicit => SendRequest(tm, t.bindings, t.servers, e.poll)
    case Request => SendRequest(tm, t.bindings, t.servers, e.poll)
    case Renew => tm.(txns := tm.txns + [NewRebind(t, e)])
    case Rebind => tm.(cfg := Free(tm.cfg, t.bindings, e.left.Keys), effects := tm.effects + FreedAll(t.bindings))
    case Confirm => tm.(effects := tm.effects + KeptAll(t.bindings))
    case Release => tm
    case Decline => tm
  }

  /** `doDuties` of transaction `k`, which is due. */
  function Act(tm: TM, k: nat, e: Env): TM
    requires k < |tm.txns|
  {
    var t := tm.txns[k];
    if Over(tm, t) then GiveUp(tm.(txns := tm.txns[k := Finished(t, e.poll)]), t, e)
    else
      tm.(txns := tm.txns[k := t.(st := R.Transmit(t.st, e.poll))],
          log := if t.kind.Request? && t.servers != [] then tm.log + [t.servers[|t.servers| - 1]] else tm.log)
  }

  /** How many transactions from `k` on are due. */
  function DueCount(txns: seq<Txn>, k: nat, p: R.Poll): nat
    decreases |txns| - k
  {
    if k >= |txns| then 0 else (if Due(txns[k], p) then 1 else 0) + DueCount(txns, k + 1, p)
  }

  lemma {:induction false} DueCountSame(s: seq<Txn>, t: seq<Txn>, k: nat, p: R.Poll)
    requires |s| <= |t| && forall i :: k <= i < |s| ==> t[i] == s[i]
    requires forall i :: |s| <= i < |t| ==> !Due(t[i], p)
    ensures DueCount(t, k, p) == DueCount(s, k, p)
    decreases |t| - k
  {
    if k < |t| {
      DueCountSame(s, t, k + 1, p);
    }
  }

  /** A transaction made during a pass is not due in it. */
  lemma {:induction false} NewNotDue(bs: seq<Binding>, servers: seq<nat>, t: Txn, e: Env)
    requires R.Draw(e.poll.r1) && R.Draw(e.poll.r2)
    ensures !Due(NewRequest(bs, servers, e.poll), e.poll) &&
            !Due(Stillborn(e.poll), e.poll) && !Due(NewRebind(t, e), e.poll)
  {
    hide Longest, R.Sent;
    R.SentBounds(R.Initial(R.Request, 0), e.poll.r1, e.poll.r2);
    R.SentBounds(R.Initial(R.Rebind, Longest(e.left, t.bindings)), e.poll.r1, e.poll.r2);
  }

  /** Giving up appends at most one message, which is not due, and changes no other. */
  lemma {:induction false} GiveUpAppends(tm: TM, t: Txn, e: Env)
    requires R.Draw(e.poll.r1) && R.Draw(e.poll.r2)
    ensures var next := GiveUp(tm, t, e);
            && |tm.txns| <= |next.txns| && next.txns[..|tm.txns|] == tm.txns
            && forall i :: |tm.txns| <= i < |next.txns| ==> !Due(next.txns[i], e.poll)
  {
    var a := Sorted(tm.adverts);
    NewNotDue(t.bindings, t.servers + (if a == [] then [] else [a[0].server]), t, e);
    hide Sorted, NewRequest, Stillborn, NewRebind, Due;
  }

  lemma {:induction false} ActProgress(tm: TM, k: nat, e: Env)
    requires k < |tm.txns| && Due(tm.txns[k], e.poll) && R.Draw(e.poll.r1) && R.Draw(e.poll.r2)
    ensures |tm.txns| <= |Act(tm, k, e).txns|
    ensures DueCount(Act(tm, k, e).txns, k + 1, e.poll) ==
            DueCount(tm.txns, k + 1, e.poll) < DueCount(tm.txns, k, e.poll)
    ensures forall i :: 0 <= i < |tm.txns| && i != k ==> Act(tm, k, e).txns[i] == tm.txns[i]
  {
    var t := tm.txns[k];
    var next := Act(tm, k, e);
    var tm' := tm.(txns := tm.txns[k := Finished(t, e.poll)]);
    GiveUpAppends(tm', t, e);
    hide GiveUp, Due, Over, Finished;
    if Over(tm, t) {
      assert forall i :: 0 <= i < |tm.txns| ==> next.txns[i] == next.txns[..|tm.txns|][i];
    }
    DueCountSame(tm.txns, next.txns, k + 1, e.poll);
  }

  /** The walk over the transactions.  A REQUEST appended on the way is walked over
      too, unless the cursor already stood at the end. */
  function Walk(tm: TM, k: nat, e: Env): TM
    requires R.Draw(e.poll.r1) && R.Draw(e.poll.r2)
    decreases DueCount(tm.txns, k, e.poll), |tm.txns| - k
  {
    if k >= |tm.txns| then tm
    else if !Due(tm.txns[k], e.poll) then Walk(tm, k + 1, e)
    else
      ActProgress(tm, k, e);
      var tm' := Act(tm, k, e);
      var k' := if k + 1 == |tm.txns| then |tm'.txns| else k + 1;
      DueCountFrom(tm'.txns, k + 1, k', e.poll);
      Walk(tm', k', e)
  }

  lemma {:induction false} DueCountFrom(s: seq<Txn>, k: nat, n: nat, p: R.Poll)
    requires k <= n
    ensures DueCount(s, n, p) <= DueCount(s, k, p)
    decreases n - k
  {
    if k < n {
      DueCountFrom(s, k + 1, n, p);
    }
  }

  function IsLive(): Txn -> bool {
    (t: Txn) => t.Live()
  }

  /** One pass: every due transaction acts, then finished ones are dropped. */
  function Duties(tm: TM, e: Env): TM
    requires R.Draw(e.poll.r1) && R.Draw(e.poll.r2)
  {
    var w := Walk(tm, 0, e);
    w.(txns := Filter(w.txns, IsLive()))
  }

  // -- answers --------------------------------------------------------------------------

  datatype Code = Success | NoBinding | Failure

  datatype MsgStatus = NoStatus | SuccessStatus | NotOnLink | OtherStatus

  /** An IA option of a REPLY: its status and, for a PD, for each of its prefixes
      whether the lifetimes are valid. */
  datatype ReplyOpt = ReplyOpt(binding: Binding, code: Code, prefixes: seq<bool>)

  /** A REPLY: whether authentication succeeded, its server, its own status and its IA
      options. */
  datatype Reply = Reply(authentic: bool, server: nat, status: MsgStatus, opts: seq<ReplyOpt>)

  /** The option is carried out; otherwise it is ignored. */
  predicate Accepts(o: ReplyOpt, insist: bool) {
    && o.code.Success?
    && (o.binding.PD? ==> o.prefixes != [] && (insist ==> true in o.prefixes))
  }

  /** Removes the first option with that IAID. */
  function DropFirst(bs: seq<Binding>, b: Binding): seq<Binding> {
    if bs == [] then [] else if bs[0] == b then bs[1..] else [bs[0]] + DropFirst(bs[1..], b)
  }

  /** One option: an IA_NA is configured only if the database has that IA. */
  function Carry(cfg: Cfg, o: ReplyOpt, known: set<Binding>, insist: bool): Cfg {
    if Accepts(o, insist) && o.binding in cfg && Known(o.binding, known) then cfg[o.binding := Configured] else cfg
  }

  function CarryAll(cfg: Cfg, opts: seq<ReplyOpt>, known: set<Binding>, insist: bool): Cfg
    decreases |opts|
  {
    if opts == [] then cfg else CarryAll(Carry(cfg, opts[0], known, insist), opts[1..], known, insist)
  }

  /** The bindings of the question that the reply left open. */
  function Left(bs: seq<Binding>, opts: seq<ReplyOpt>, insist: bool): seq<Binding>
    decreases |opts|
  {
    if opts == [] then bs
    else Left(if Accepts(opts[0], insist) then DropFirst(bs, opts[0].binding) else bs, opts[1..], insist)
  }

  /** The reply is not dropped.  The server's DUID is looked up in the question, so a
      question without a SERVERID option (a SOLICIT, a REBIND) ignores every REPLY. */
  predicate Heard(t: Txn, reply: Reply) {
    !(t.kind.Request? && reply.status.NotOnLink?) && t.servers != [] && reply.authentic
  }

  /** What an answered question still holds. */
  function Answered(t: Txn, left: seq<Binding>, p: R.Poll): Txn {
    Finished(t, p).(bindings := left, servers := [])
  }

  /** `TClntMsg::answer`.  A REPLY carries one SERVERID, and an option that appears in
      the reply is taken off the question, so what is asked again names no server. */
  function AnswerRequest(tm: TM, k: nat, reply: Reply, insist: bool, e: Env): TM
    requires k < |tm.txns|
  {
    var t := tm.txns[k];
    if !Heard(t, reply) then tm
    else
      var left := Left(t.bindings, reply.opts, insist);
      var tm' := tm.(cfg := CarryAll(tm.cfg, reply.opts, e.left.Keys, insist),
                     txns := tm.txns[k := Answered(t, left, e.poll)]);
      if left == [] then tm' else SendRequest(tm', left, [], e.poll)
  }

  /** An IA option of the REPLY to a RENEW is carried out without a look at prefixes. */
  function Renew(cfg: Cfg, o: ReplyOpt, known: set<Binding>): Cfg {
    if o.code.Success? && o.binding in cfg && Known(o.binding, known) then cfg[o.binding := Configured] else cfg
  }

  /** The options in order, as far as the first whose binding the server does not know. */
  function RenewAll(cfg: Cfg, opts: seq<ReplyOpt>, known: set<Binding>): (Cfg, bool)
    decreases |opts|
  {
    if opts == [] then (cfg, false)
    else if opts[0].code.NoBinding? then (cfg, true)
    else RenewAll(Renew(cfg, opts[0], known), opts[1..], known)
  }

  /** `TClntMsgRenew::answer`: without a binding at the server everything is requested. */
  function AnswerRenew(tm: TM, k: nat, reply: Reply, e: Env): TM
    requires k < |tm.txns|
  {
    var t := tm.txns[k];
    var (cfg, lost) := RenewAll(tm.cfg, reply.opts, e.left.Keys);
    var tm' := tm.(cfg := cfg, txns := tm.txns[k := Finished(t, e.poll)]);
    if lost then SendRequest(tm', t.bindings, t.servers, e.poll) else tm'
  }

  /** `TClntMsgConfirm::answer`: a reply without a status rejects but does not end it. */
  function AnswerConfirm(tm: TM, k: nat, reply: Reply, e: Env): TM
    requires k < |tm.txns|
  {
    var t := tm.txns[k];
    var done := tm.(txns := tm.txns[k := Finished(t, e.poll)]);
    match reply.status
    case SuccessStatus => done.(effects := tm.effects + KeptAll(t.bindings))
    case NotOnLink => done.(cfg := Free(tm.cfg, t.bindings, e.left.Keys), effects := tm.effects + FreedAll(t.bindings))
    case NoStatus => tm.(cfg := Free(tm.cfg, t.bindings, e.left.Keys), effects := tm.effects + FreedAll(t.bindings))
    case OtherStatus => tm
  }

  /** A REPLY to transaction `k`. */
  function GotReply(tm: TM, k: nat, reply: Reply, insist: bool, e: Env): TM {
    if k >= |tm.txns| then tm
    else
      var t := tm.txns[k];
      match t.kind
      case Solicit => AnswerRequest(tm, k, reply, insist, e)
      case Request => AnswerRequest(tm, k, reply, insist, e)
      case Rebind => AnswerRequest(tm, k, reply, insist, e)
      case Renew => AnswerRenew(tm, k, reply, e)
      case Confirm => AnswerConfirm(tm, k, reply, e)
      case Release => tm.(txns := tm.txns[k := Finished(t, e.poll)])
      case Decline =>
        if t.servers != [] && t.servers[0] == reply.server then tm.(txns := tm.txns[k := Finished(t, e.poll)]) else tm
  }

  /** `TClntMsgSolicit::answer` to an ADVERTISE that is not rejected. */
  function GotAdvertise(tm: TM, k: nat, a: Advert, p: R.Poll): TM {
    if k >= |tm.txns| || !tm.txns[k].kind.Solicit? then tm
    else
      var t := tm.txns[k];
      var tm' := tm.(adverts := tm.adverts + [a]);
      if a.pref == 255 || t.st.timing.rc > 1 then
        SendRequest(tm'.(txns := tm.txns[k := Finished(t, p)]), t.bindings, t.servers, p)
      else tm'
  }

  /** A configured interface: its index, its IA_NAs and then its IA_PDs, and whether it is
      left alone by `checkSolicit` (no-config or stateless). */
  datatype CfgIface = CfgIface(ifindex: nat, order: seq<Binding>, passive: bool)

  function Waiting(cfg: Cfg): Binding -> bool {
    b => b in cfg && cfg[b] == NotConfigured
  }

  function NewSolicit(bs: seq<Binding>, p: R.Poll): Txn {
    Txn(R.Solicit, bs, [], R.Born(R.Initial(R.Solicit, 0), p))
  }

  /** One SOLICIT for everything on the interface that waits to be configured. */
  function SolicitOn(tm: TM, f: CfgIface, p: R.Poll): TM {
    var bs := Filter(f.order, Waiting(tm.cfg));
    if f.passive || bs == [] then tm
    else tm.(txns := tm.txns + [NewSolicit(bs, p)], cfg := SetAll(tm.cfg, bs, InProcess))
  }

  /** `checkSolicit`: each configured interface in turn. */
  function CheckSolicit(tm: TM, ifaces: seq<CfgIface>, p: R.Poll): TM
    decreases |ifaces|
  {
    if ifaces == [] then tm else CheckSolicit(SolicitOn(tm, ifaces[0], p), ifaces[1..], p)
  }

  /** An IA of the database in CONFIRMME: its IAID and its interface. */
  datatype Stored = Stored(iaid: nat, ifindex: nat)

  /** The first IA_NA of an interface. */
  function FirstIA(order: seq<Binding>): Option<Binding> {
    if order == [] then None else if order[0].NA? then Some(order[0]) else FirstIA(order[1..])
  }

  function IsOn(ifindex: nat): Stored -> bool {
    (x: Stored) => x.ifindex == ifindex
  }

  function IsOff(ifindex: nat): Stored -> bool {
    (x: Stored) => x.ifindex != ifindex
  }

  function Names(xs: seq<Stored>): seq<Binding> {
    seq(|xs|, (i: nat) requires i < |xs| => NA(xs[i].iaid))
  }

  function NewConfirm(bs: seq<Binding>, p: R.Poll): Txn {
    Txn(R.Confirm, bs, [], R.Born(R.Initial(R.Confirm, 0), p))
  }

  /** One CONFIRM for the waiting IAs of the interface.  The search does not compare
      IAIDs: whichever IAs it finds, it is the first configured IA that is put in process. */
  function ConfirmOn(tm: TM, f: CfgIface, waiting: seq<Stored>, p: R.Poll): TM {
    var xs := Filter(waiting, IsOn(f.ifindex));
    var first := FirstIA(f.order);
    if first.None? || xs == [] then tm
    else tm.(txns := tm.txns + [NewConfirm(Names(xs), p)], cfg := SetAll(tm.cfg, [first.value], InProcess))
  }

  /** The IAs that still wait after that interface. */
  function StillWaiting(f: CfgIface, waiting: seq<Stored>): seq<Stored> {
    if FirstIA(f.order).None? then waiting else Filter(waiting, IsOff(f.ifindex))
  }

  /** `checkConfirm`: each configured interface in turn. */
  function CheckConfirm(tm: TM, ifaces: seq<CfgIface>, waiting: seq<Stored>, p: R.Poll): TM
    decreases |ifaces|
  {
    if ifaces == [] then tm
    else CheckConfirm(ConfirmOn(tm, ifaces[0], waiting, p), ifaces[1..], StillWaiting(ifaces[0], waiting), p)
  }

  /** A live SOLICIT or REQUEST: a message that asks for bindings. */
  predicate Asks(t: Txn) {
    t.Live() && (t.kind.Solicit? || t.kind.Request?)
  }

  // -- runs -----------------------------------------------------------------------------------

  /** What can happen: a pass, an ADVERTISE, a REPLY, `checkSolicit`, `checkConfirm` with
      the IAs that wait for it, any other message being started (a RENEW, DECLINE or
      RELEASE, or the REQUEST after a DECLINE), an IA running out. */
  datatype Step =
    | Pass(e: Env)
    | Advertised(k: nat, a: Advert, p: R.Poll)
    | Replied(k: nat, reply: Reply, e: Env)
    | Solicits(p: R.Poll)
    | Confirms(waiting: seq<Stored>, p: R.Poll)
    | Starts(t: Txn)
    | RunsOut(b: Binding)

  function Take(tm: TM, s: Step, ifaces: seq<CfgIface>, insist: bool): TM {
    match s
    case Pass(e) => if R.Draw(e.poll.r1) && R.Draw(e.poll.r2) then Duties(tm, e) else tm
    case Advertised(k, a, p) => GotAdvertise(tm, k, a, p)
    case Replied(k, reply, e) => GotReply(tm, k, reply, insist, e)
    case Solicits(p) => CheckSolicit(tm, ifaces, p)
    case Confirms(waiting, p) => CheckConfirm(tm, ifaces, waiting, p)
    case Starts(t) => tm.(txns := tm.txns + [t])
    case RunsOut(b) => if b in tm.cfg then tm.(cfg := tm.cfg[b := NotConfigured]) else tm
  }

  function TakeAll(tm: TM, steps: seq<Step>, ifaces: seq<CfgIface>, insist: bool): TM
    decreases |steps|
  {
    if steps == [] then tm else TakeAll(Take(tm, steps[0], ifaces, insist), steps[1..], ifaces, insist)
  }

  /** What the database was asked between two states. */
  function NewEffects(tm: TM, tm': TM): seq<Effect> {
    if |tm.effects| <= |tm'.effects| then tm'.effects[|tm.effects|..] else []
  }

  lemma {:induction false} GiveUpEffects(tm: TM, t: Txn, e: Env)
    ensures tm.effects <= GiveUp(tm, t, e).effects
  {
    hide Sorted, Free;
  }

  lemma {:induction false} ActEffects(tm: TM, k: nat, e: Env)
    requires k < |tm.txns|
    ensures tm.effects <= Act(tm, k, e).effects
  {
    var t := tm.txns[k];
    GiveUpEffects(tm.(txns := tm.txns[k := Finished(t, e.poll)]), t, e);
    hide GiveUp, Over;
  }

  lemma {:induction false} WalkEffects(tm: TM, k: nat, e: Env)
    requires R.Draw(e.poll.r1) && R.Draw(e.poll.r2)
    ensures tm.effects <= Walk(tm, k, e).effects
    decreases DueCount(tm.txns, k, e.poll), |tm.txns| - k
  {
    hide Act, DueCount, Due;
    if k < |tm.txns| {
      if !Due(tm.txns[k], e.poll) {
        DueCountFrom(tm.txns, k, k + 1, e.poll);
        WalkEffects(tm, k + 1, e);
      } else {
        ActProgress(tm, k, e);
        ActEffects(tm, k, e);
        var tm' := Act(tm, k, e);
        var k' := if k + 1 == |tm.txns| then |tm'.txns| else k + 1;
        DueCountFrom(tm'.txns, k + 1, k', e.poll);
        WalkEffects(tm', k', e);
      }
    }
  }
}
