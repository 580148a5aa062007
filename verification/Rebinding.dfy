/** The transactions and the database together: from the RENEW that gives up, over a
    REBIND that nobody can answer, to the release of its IAs. */
module Rebinding {
  import opened Containers
  import opened Leases
  import opened AddressIA
  import opened LeaseDb
  import opened Replies
  import opened T = Transactions
  import opened Advertise
  import opened Handover
  import opened Coupling
  import opened Confirming
  import R = Retransmission

  datatype World = World(tm: TM, db: Db)

  /** For each IA_NA and IA_PD of the database the longest valid time left. */
  function LeftOf(db: Db, now: ulong): map<Binding, nat> {
    map b | b in Bindings(db) :: LongestLease(db, b, now)
  }

  function Bindings(db: Db): set<Binding> {
    (set v | v in db.ias :: NA(v.iaid)) + (set v | v in db.pds :: PD(v.iaid))
  }

  /** The time stamp of a confirmed IA: wall clock less T1, as unsigned arithmetic has it. */
  function Stamp(v: IAView, wall: int): ulong {
    (wall % 0x1_0000_0000 - v.t1) % ULONG
  }

  /** What an effect does to the database; only IA_NAs are followed here. */
  function Apply(db: Db, x: Effect, wall: int): Db {
    match x
    case Freed(NA(id)) => Release(db, id)
    case Kept(NA(id)) =>
      var k := IndexOfId(db.ias, id);
      if k == |db.ias| then db else Accept(db, id, Stamp(db.ias[k], wall))
    case _ => db
  }

  function ApplyAll(db: Db, xs: seq<Effect>, wall: int): Db
    decreases |xs|
  {
    if xs == [] then db else ApplyAll(Apply(db, xs[0], wall), xs[1..], wall)
  }

  // -- the code -----------------------------------------------------------------------------

  method ConfirmIA(c: Client, iaid: nat, wall: int, ghost db: Db)
    requires c.Separated() && c.Is(db)
    modifies c.IAsLst`it, c.iface, Set(c.IAsLst.lista)`AddrLst, Set(c.IAsLst.lista)`State, Set(c.IAsLst.lista)`Timestamp
    ensures c.Is(Apply(db, Kept(NA(iaid)), wall))
  {
    hide Addrs, Restamped;
    var r := GetById(c.IAsLst, iaid, db.ias);
    if r.None? {
      return;
    }
    assert r.value.View() == db.ias[IndexOfId(db.ias, iaid)];
    AcceptIA(c, iaid, (wall % 0x1_0000_0000 - r.value.T1) % ULONG, db);
  }

  /** Carries out what the messages ask of the database. */
  method CarryOut(c: Client, xs: seq<Effect>, wall: int, ghost db: Db)
    requires c.Separated() && c.Is(db) && Good(db)
    modifies c`cfgIA, c.IAsLst`it, c.iface
    modifies Set(c.IAsLst.lista)`AddrLst, Set(c.IAsLst.lista)`State, Set(c.IAsLst.lista)`Timestamp
    ensures c.Separated() && c.Is(ApplyAll(db, xs, wall)) && Good(ApplyAll(db, xs, wall))
  {
    hide Apply, Good;
    ghost var cur := db;
    assert xs[0..] == xs;
    for i := 0 to |xs|
      invariant c.Separated() && c.Is(cur) && Good(cur) && ApplyAll(cur, xs[i..], wall) == ApplyAll(db, xs, wall)
    {
      ghost var rest := xs[i..];
      assert rest[0] == xs[i] && rest[1..] == xs[i + 1..];
      ApplyGood(cur, xs[i], wall);
      GoodUnique(cur);
      match xs[i] {
        case Freed(NA(id)) =>
          ReleaseIA(c, id, cur);
          assert Apply(cur, xs[i], wall) == Release(cur, id) by {
            FreedNA(cur, id, wall);
          }
        case Kept(NA(id)) => ConfirmIA(c, id, wall, cur);
        case _ => OtherEffect(cur, xs[i], wall);
      }
      cur := Apply(cur, xs[i], wall);
    }
    assert xs[|xs|..] == [];
  }

  lemma {:induction false} FreedNA(db: Db, id: nat, wall: int)
    ensures Apply(db, Freed(NA(id)), wall) == Release(db, id)
  {
  }

  lemma {:induction false} OtherEffect(db: Db, x: Effect, wall: int)
    requires x.b.PD?
    ensures Apply(db, x, wall) == db
  {
  }

  lemma {:induction false} GoodUnique(db: Db)
    requires Good(db)
    ensures forall v <- db.ias :: UniqueAddrs(v.addrs)
  {
    SoundParts(db);
  }

  // -- the database -------------------------------------------------------------------------

  lemma {:induction false} ApplyGood(db: Db, x: Effect, wall: int)
    requires Good(db)
    ensures Good(Apply(db, x, wall))
  {
    hide Good, Release, Accept;
    match x
    case Freed(NA(id)) => ReleaseGood(db, id);
    case Kept(NA(id)) =>
      var k := IndexOfId(db.ias, id);
      if k < |db.ias| {
        AcceptGood(db, id, Stamp(db.ias[k], wall));
      }
    case _ =>
  }

  lemma {:induction false} ApplyAllGood(db: Db, xs: seq<Effect>, wall: int)
    requires Good(db)
    ensures Good(ApplyAll(db, xs, wall))
    decreases |xs|
  {
    if xs != [] {
      ApplyGood(db, xs[0], wall);
      hide Good, Apply;
      ApplyAllGood(Apply(db, xs[0], wall), xs[1..], wall);
    }
  }

  lemma {:induction false} ApplyAppend(db: Db, xs: seq<Effect>, ys: seq<Effect>, wall: int)
    ensures ApplyAll(db, xs + ys, wall) == ApplyAll(ApplyAll(db, xs, wall), ys, wall)
    decreases |xs|
  {
    if xs == [] {
      assert xs + ys == ys;
    } else {
      assert (xs + ys)[1..] == xs[1..] + ys;
      hide Apply;
      ApplyAppend(Apply(db, xs[0], wall), xs[1..], ys, wall);
    }
  }

  /** The IA of that id is there, and without addresses. */
  predicate Emptied(db: Db, id: nat) {
    IndexOfId(db.ias, id) < |db.ias| && db.ias[IndexOfId(db.ias, id)].addrs == []
  }

  predicate Has(db: Db, id: nat) {
    IndexOfId(db.ias, id) < |db.ias|
  }

  lemma {:induction false} SameIds(vs: seq<IAView>, ws: seq<IAView>, id: nat)
    requires |vs| == |ws| && forall i :: 0 <= i < |vs| ==> vs[i].iaid == ws[i].iaid
    ensures IndexOfId(vs, id) == IndexOfId(ws, id)
  {
    hide IndexOfId;
  }

  /** No effect adds or removes an IA or gives an emptied one an address. */
  lemma {:induction false} ApplyKeeps(db: Db, x: Effect, wall: int, id: nat)
    ensures var next := Apply(db, x, wall);
            && (Has(db, id) <==> Has(next, id)) && (Emptied(db, id) ==> Emptied(next, id))
            && (x == Freed(NA(id)) && Has(db, id) ==> Emptied(next, id))
  {
    var next := Apply(db, x, wall);
    SameIds(db.ias, next.ias, id);
    hide IndexOfId;
  }

  lemma {:induction false} ApplyAllKeeps(db: Db, xs: seq<Effect>, wall: int, id: nat)
    ensures var next := ApplyAll(db, xs, wall);
            && (Has(db, id) <==> Has(next, id)) && (Emptied(db, id) ==> Emptied(next, id))
            && (Freed(NA(id)) in xs && Has(db, id) ==> Emptied(next, id))
    decreases |xs|
  {
    if xs != [] {
      ApplyKeeps(db, xs[0], wall, id);
      hide Apply, Has, Emptied;
      ApplyAllKeeps(Apply(db, xs[0], wall), xs[1..], wall, id);
    }
  }

  /** A confirmed IA is due for RENEW, as the source's comment wants it, when the clock of
      the leases has reached the wall clock at which it was confirmed; until then the time
      left to its T1 is the distance of the two. */
  lemma {:induction false} ConfirmedRenews(db: Db, iaid: nat, wall: nat, now: ulong)
    requires Has(db, iaid) && db.ias[IndexOfId(db.ias, iaid)].t1 <= wall < 0x1_0000_0000
    ensures var w := Apply(db, Kept(NA(iaid)), wall).ias[IndexOfId(db.ias, iaid)];
            && w.state == EState.Configured && w.t1 == db.ias[IndexOfId(db.ias, iaid)].t1
            && TimeLeft(w.timestamp, w.t1, now) == if now < wall then wall - now else 0
  {
    var v := db.ias[IndexOfId(db.ias, iaid)];
    ModIdentity(wall - v.t1);
    TimeLeftMeaning(wall - v.t1, v.t1, now);
    hide Restamped;
  }

  // -- one pass over the transactions ---------------------------------------------------------

  /** The walk does not come back to what lies before it. */
  lemma {:induction false} WalkPast(tm: TM, k: nat, i: nat, e: Env)
    requires R.Draw(e.poll.r1) && R.Draw(e.poll.r2) && i < |tm.txns| && i < k
    ensures var w := Walk(tm, k, e); i < |w.txns| && w.txns[i] == tm.txns[i]
    decreases DueCount(tm.txns, k, e.poll), |tm.txns| - k
  {
    hide Act, DueCount, Due;
    if k < |tm.txns| {
      if !Due(tm.txns[k], e.poll) {
        DueCountFrom(tm.txns, k, k + 1, e.poll);
        WalkPast(tm, k + 1, i, e);
      } else {
        ActProgress(tm, k, e);
        var tm' := Act(tm, k, e);
        var k' := if k + 1 == |tm.txns| then |tm'.txns| else k + 1;
        DueCountFrom(tm'.txns, k + 1, k', e.poll);
        WalkPast(tm', k', i, e);
      }
    }
  }

  function Stepped(t: Txn, p: R.Poll): Txn {
    t.(st := R.Step(t.kind, t.st, p))
  }

  /** What one message does to its own entry is one step of its retransmission. */
  lemma {:induction false} ActOwn(tm: TM, k: nat, e: Env)
    requires k < |tm.txns| && Due(tm.txns[k], e.poll) && (tm.txns[k].kind.Solicit? ==> tm.adverts == [])
    requires R.Draw(e.poll.r1) && R.Draw(e.poll.r2)
    ensures var next := Act(tm, k, e); k < |next.txns| && next.txns[k] == Stepped(tm.txns[k], e.poll)
  {
    var t := tm.txns[k];
    var tm' := tm.(txns := tm.txns[k := Finished(t, e.poll)]);
    GiveUpAppends(tm', t, e);
    hide GiveUp, R.Transmit;
    assert GiveUp(tm', t, e).txns[k] == GiveUp(tm', t, e).txns[..|tm'.txns|][k];
  }

  lemma {:induction false} ActAdverts(tm: TM, k: nat, e: Env)
    requires k < |tm.txns|
    ensures tm.adverts == [] ==> Act(tm, k, e).adverts == []
  {
    hide Over, R.Transmit, Free, T.NewRebind;
  }

  lemma {:induction false} WalkAdverts(tm: TM, k: nat, e: Env)
    requires R.Draw(e.poll.r1) && R.Draw(e.poll.r2) && tm.adverts == []
    ensures Walk(tm, k, e).adverts == []
    decreases DueCount(tm.txns, k, e.poll), |tm.txns| - k
  {
    hide Act, DueCount, Due;
    if k < |tm.txns| {
      if !Due(tm.txns[k], e.poll) {
        DueCountFrom(tm.txns, k, k + 1, e.poll);
        WalkAdverts(tm, k + 1, e);
      } else {
        ActProgress(tm, k, e);
        ActAdverts(tm, k, e);
        var tm' := Act(tm, k, e);
        var k' := if k + 1 == |tm.txns| then |tm'.txns| else k + 1;
        DueCountFrom(tm'.txns, k + 1, k', e.poll);
        WalkAdverts(tm', k', e);
      }
    }
  }

  /** What an exhausted message leaves behind when its turn comes, among what the others
      did before and after it. */
  lemma {:induction false} WalkReaches(tm: TM, k: nat, i: nat, e: Env) returns (at: TM, tail: TM, k': nat)
    requires R.Draw(e.poll.r1) && R.Draw(e.poll.r2) && k <= i < |tm.txns|
    requires tm.txns[i].kind.Solicit? ==> tm.adverts == []
    ensures var w := Walk(tm, k, e); i < |w.txns| && w.txns[i] == Stepped(tm.txns[i], e.poll)
    ensures Due(tm.txns[i], e.poll) ==>
              && i < |at.txns| && at.txns[i] == tm.txns[i] && tm.effects <= at.effects
              && tail == Act(at, i, e) && i < k' && Walk(tm, k, e) == Walk(tail, k', e)
    decreases i - k
  {
    hide Act, DueCount, Due, Stepped;
    at, tail, k' := tm, tm, 0;
    if !Due(tm.txns[k], e.poll) {
      if k == i {
        WalkPast(tm, k + 1, i, e);
        assert Stepped(tm.txns[i], e.poll) == tm.txns[i] by {
          NotDueStays(tm.txns[i], e.poll);
        }
      } else {
        at, tail, k' := WalkReaches(tm, k + 1, i, e);
      }
    } else {
      ActProgress(tm, k, e);
      var next := Act(tm, k, e);
      if k == i {
        ActOwn(tm, k, e);
        k' := if k + 1 == |tm.txns| then |next.txns| else k + 1;
        WalkPast(next, k', i, e);
        tail := next;
      } else {
        ActEffects(tm, k, e);
        ActAdverts(tm, k, e);
        at, tail, k' := WalkReaches(next, k + 1, i, e);
      }
    }
  }

  lemma {:induction false} NotDueStays(t: Txn, p: R.Poll)
    requires !Due(t, p)
    ensures Stepped(t, p) == t
  {
  }

  /** In a pass every message takes one step of its retransmission, and stays while it is
      live; a SOLICIT as long as there is no advertisement.  No finished message stays. */
  lemma {:induction false} DutiesStep(tm: TM, i: nat, e: Env)
    requires R.Draw(e.poll.r1) && R.Draw(e.poll.r2) && i < |tm.txns|
    requires tm.txns[i].kind.Solicit? ==> tm.adverts == []
    ensures var u := Stepped(tm.txns[i], e.poll); u.Live() ==> u in Duties(tm, e).txns
    ensures forall t <- Duties(tm, e).txns :: t.Live()
  {
    var at, tail, k' := WalkReaches(tm, 0, i, e);
    var w := Walk(tm, 0, e);
    FilterIn(w.txns, T.IsLive());
    hide Walk, Stepped;
    assert w.txns[i] in w.txns;
  }

  // -- runs -----------------------------------------------------------------------------------

  /** A pass at wall clock `p.now` and lease clock `now`, `checkConfirm` on the IAs that wait
      in the database, anything else that happens to the transactions, or any change of the
      database by other parts of the client. */
  datatype Happening =
    | Tick(p: R.Poll, now: ulong)
    | Questions(p: R.Poll)
    | Hears(s: Step, wall: int)
    | Leased(db: Db)

  function Happens(w: World, h: Happening, ifaces: seq<CfgIface>, insist: bool): World {
    match h
    case Tick(p, now) =>
      var tm := Take(w.tm, Pass(Env(p, LeftOf(w.db, now))), ifaces, insist);
      World(tm, ApplyAll(w.db, NewEffects(w.tm, tm), p.now))
    case Questions(p) =>
      World(Take(w.tm, Confirms(WaitingIn(w.db.ias), p), ifaces, insist), Questioned(w.db, ifaces))
    case Hears(s, wall) =>
      if s.Pass? || s.Confirms? then w
      else
        var tm := Take(w.tm, s, ifaces, insist);
        World(tm, ApplyAll(w.db, NewEffects(w.tm, tm), wall))
    case Leased(db) => w.(db := db)
  }

  function AllHappens(w: World, hs: seq<Happening>, ifaces: seq<CfgIface>, insist: bool): World
    decreases |hs|
  {
    if hs == [] then w else AllHappens(Happens(w, hs[0], ifaces, insist), hs[1..], ifaces, insist)
  }

  /** The passes among them. */
  function Polls(hs: seq<Happening>): seq<R.Poll>
    decreases |hs|
  {
    if hs == [] then [] else (if hs[0].Tick? then [hs[0].p] else []) + Polls(hs[1..])
  }

  ghost predicate Drawn(hs: seq<Happening>) {
    forall h <- hs :: h.Tick? ==> R.Draw(h.p.r1) && R.Draw(h.p.r2)
  }

  /** A message that no REPLY can answer: `answer` looks for the SERVERID in it. */
  predicate Deaf(t: Txn) {
    (t.kind.Rebind? || t.kind.Solicit?) && t.servers == []
  }

  /** A reply to it is ignored, and one to another message leaves it alone. */
  lemma {:induction false} ReplyElsewhere(tm: TM, k: nat, reply: Reply, insist: bool, e: Env, i: nat)
    requires i < |tm.txns| && Deaf(tm.txns[i])
    ensures var next := GotReply(tm, k, reply, insist, e);
            i < |next.txns| && next.txns[i] == tm.txns[i] && (k == i ==> next == tm)
  {
    hide Sorted, Left, CarryAll, RenewAll, Free, SetAll, NewRequest, Stillborn, FreedAll, KeptAll;
    if k < |tm.txns| && (tm.txns[k].kind.Renew? || tm.txns[k].kind.Confirm?) {
      assert k != i;
    }
  }

  lemma {:induction false} ReplyAdverts(tm: TM, k: nat, reply: Reply, insist: bool, e: Env)
    ensures tm.adverts == [] ==> GotReply(tm, k, reply, insist, e).adverts == []
  {
    hide Left, CarryAll, RenewAll, Free, SetAll, NewRequest, Stillborn, FreedAll, KeptAll, Heard;
  }

  lemma {:induction false} SolicitAppends(tm: TM, ifaces: seq<CfgIface>, p: R.Poll, t: Txn)
    requires t in tm.txns
    ensures t in CheckSolicit(tm, ifaces, p).txns && CheckSolicit(tm, ifaces, p).adverts == tm.adverts
    decreases |ifaces|
  {
    if ifaces != [] {
      SolicitAppends(SolicitOn(tm, ifaces[0], p), ifaces[1..], p, t);
    }
  }

  lemma {:induction false} ConfirmAppends(tm: TM, ifaces: seq<CfgIface>, waiting: seq<Stored>, p: R.Poll, t: Txn)
    requires t in tm.txns
    ensures var next := T.CheckConfirm(tm, ifaces, waiting, p); t in next.txns && next.adverts == tm.adverts
    decreases |ifaces|
  {
    if ifaces != [] {
      hide StillWaiting;
      ConfirmAppends(T.ConfirmOn(tm, ifaces[0], waiting, p), ifaces[1..], StillWaiting(ifaces[0], waiting), p, t);
    }
  }

  /** Any happening but a pass leaves a message alone that no reply can answer; a SOLICIT
      unless it is an ADVERTISE. */
  lemma {:induction false} HearsNothing(tm: TM, s: Step, ifaces: seq<CfgIface>, insist: bool, t: Txn)
    requires t in tm.txns && Deaf(t) && !s.Pass? && (t.kind.Solicit? ==> !s.Advertised?)
    ensures var next := Take(tm, s, ifaces, insist);
            t in next.txns && (tm.adverts == [] && !s.Advertised? ==> next.adverts == [])
  {
    hide Sorted, SetAll, NewRequest, Stillborn, GotReply, CheckSolicit, T.CheckConfirm;
    var i :| 0 <= i < |tm.txns| && tm.txns[i] == t;
    var next := Take(tm, s, ifaces, insist);
    match s
    case Replied(k, reply, e) =>
      ReplyElsewhere(tm, k, reply, insist, e, i);
      ReplyAdverts(tm, k, reply, insist, e);
      assert next.txns[i] == t;
    case Solicits(p) => SolicitAppends(tm, ifaces, p, t);
    case Confirms(waiting, p) => ConfirmAppends(tm, ifaces, waiting, p, t);
    case Advertised(k, a, p) => assert next.txns[i] == t;
    case Starts(u) => assert next.txns[i] == t;
    case RunsOut(b) =>
  }

  ghost predicate Unadvertised(hs: seq<Happening>) {
    forall h <- hs :: h.Hears? ==> !h.s.Advertised?
  }

  /** Whatever replies come, to it or to any other message, and whatever else happens, it
      keeps its bindings and its status is that of a message nobody answers.  For a SOLICIT
      that is so until an advertisement comes. */
  lemma {:induction false} Unheard(w: World, hs: seq<Happening>, ifaces: seq<CfgIface>, insist: bool, t: Txn)
    requires t in w.tm.txns && Deaf(t) && Drawn(hs)
    requires t.kind.Solicit? ==> w.tm.adverts == [] && Unadvertised(hs)
    ensures var st := R.Run(t.kind, t.st, Polls(hs)); var end := AllHappens(w, hs, ifaces, insist);
            !st.done ==> t.(st := st) in end.tm.txns && (t.kind.Solicit? ==> end.tm.adverts == [])
    decreases |hs|
  {
    if hs != [] {
      var next := Happens(w, hs[0], ifaces, insist);
      if hs[0].Tick? {
        UnheardTick(w, hs[0], ifaces, insist, t);
        var u := Stepped(t, hs[0].p);
        assert Polls(hs)[0] == hs[0].p && Polls(hs)[1..] == Polls(hs[1..]);
        if u.st.done {
          R.DoneStays(t.kind, u.st, Polls(hs[1..]));
        } else {
          hide Happens, R.Step;
          Unheard(next, hs[1..], ifaces, insist, u);
        }
      } else {
        UnheardElse(w, hs[0], ifaces, insist, t);
        assert Polls(hs) == Polls(hs[1..]);
        hide Happens, R.Step;
        Unheard(next, hs[1..], ifaces, insist, t);
      }
    }
  }

  lemma {:induction false} UnheardTick(w: World, h: Happening, ifaces: seq<CfgIface>, insist: bool, t: Txn)
    requires t in w.tm.txns && h.Tick? && R.Draw(h.p.r1) && R.Draw(h.p.r2)
    requires t.kind.Solicit? ==> w.tm.adverts == []
    ensures var next := Happens(w, h, ifaces, insist); var u := Stepped(t, h.p);
            (u.Live() ==> u in next.tm.txns) && (w.tm.adverts == [] ==> next.tm.adverts == [])
  {
    var e := Env(h.p, LeftOf(w.db, h.now));
    var i :| 0 <= i < |w.tm.txns| && w.tm.txns[i] == t;
    DutiesStep(w.tm, i, e);
    if w.tm.adverts == [] {
      WalkAdverts(w.tm, 0, e);
    }
    hide Walk, Stepped, LeftOf, ApplyAll;
  }

  lemma {:induction false} UnheardElse(w: World, h: Happening, ifaces: seq<CfgIface>, insist: bool, t: Txn)
    requires t in w.tm.txns && Deaf(t) && !h.Tick?
    requires t.kind.Solicit? && h.Hears? ==> !h.s.Advertised?
    ensures var next := Happens(w, h, ifaces, insist);
            t in next.tm.txns && (w.tm.adverts == [] && (h.Hears? ==> !h.s.Advertised?) ==> next.tm.adverts == [])
  {
    hide Take, ApplyAll, Questioned;
    match h
    case Questions(p) => HearsNothing(w.tm, Confirms(WaitingIn(w.db.ias), p), ifaces, insist, t);
    case Hears(s, wall) =>
      if !s.Pass? {
        HearsNothing(w.tm, s, ifaces, insist, t);
      }
    case Leased(db) =>
  }

  /** So a REBIND without SERVERID is never answered: it can only end by giving up. */
  lemma {:induction false} RebindUnheard(w: World, hs: seq<Happening>, ifaces: seq<CfgIface>, insist: bool, t: Txn)
    requires t in w.tm.txns && t.kind.Rebind? && t.servers == [] && Drawn(hs)
    ensures var st := R.Run(R.Rebind, t.st, Polls(hs));
            !st.done ==> t.(st := st) in AllHappens(w, hs, ifaces, insist).tm.txns
  {
    Unheard(w, hs, ifaces, insist, t);
  }

  lemma {:induction false} SolicitLives(st: R.Status, polls: seq<R.Poll>)
    requires !st.done
    ensures !R.Run(R.Solicit, st, polls).done
    decreases |polls|
  {
    if polls != [] {
      hide R.Transmit;
      SolicitLives(R.Step(R.Solicit, st, polls[0]), polls[1..]);
    }
  }

  /** Rapid commit is of no use: a SOLICIT lives on and is sent again until there is an
      advertisement, however many REPLYs come, and each REPLY to it changes nothing. */
  lemma {:induction false} RapidCommitUnheard(w: World, hs: seq<Happening>, ifaces: seq<CfgIface>, insist: bool, t: Txn)
    requires t in w.tm.txns && t.kind.Solicit? && t.servers == [] && t.Live() && Drawn(hs)
    requires w.tm.adverts == [] && Unadvertised(hs)
    ensures var end := AllHappens(w, hs, ifaces, insist).tm; var u := t.(st := R.Run(R.Solicit, t.st, Polls(hs)));
            && u.Live() && u in end.txns
            && forall k: nat, reply, e :: k < |end.txns| && end.txns[k] == u ==>
               GotReply(end, k, reply, insist, e) == end
  {
    SolicitLives(t.st, Polls(hs));
    Unheard(w, hs, ifaces, insist, t);
    var end, u := AllHappens(w, hs, ifaces, insist).tm, t.(st := R.Run(R.Solicit, t.st, Polls(hs)));
    forall k: nat, reply, e | k < |end.txns| && end.txns[k] == u
      ensures GotReply(end, k, reply, insist, e) == end
    {
      ReplyElsewhere(end, k, reply, insist, e, k);
    }
  }

  /** The pass in which it gives up releases its IAs: what the database is asked holds
      `releaseIA` of each of its bindings, in ifaces, and afterwards every IA_NA that it
      named and the database had is without addresses, on the interface too. */
  lemma {:induction false} RebindReleases(w: World, i: nat, p: R.Poll, now: ulong, ifaces: seq<CfgIface>, insist: bool)
    returns (before: seq<Effect>, after: seq<Effect>)
    requires i < |w.tm.txns| && w.tm.txns[i].kind.Rebind? && w.tm.txns[i].Live()
    requires R.Draw(p.r1) && R.Draw(p.r2) && Stepped(w.tm.txns[i], p).st.done
    ensures var next := Happens(w, Tick(p, now), ifaces, insist); var bs := w.tm.txns[i].bindings;
            && NewEffects(w.tm, next.tm) == before + FreedAll(bs) + after
            && next.db == ApplyAll(ApplyAll(ApplyAll(w.db, before, p.now), FreedAll(bs), p.now), after, p.now)
            && (forall id :: NA(id) in bs && Has(w.db, id) ==> Emptied(next.db, id))
            && (Good(w.db) ==> Good(next.db))
  {
    var t := w.tm.txns[i];
    var e := Env(p, LeftOf(w.db, now));
    var next := Happens(w, Tick(p, now), ifaces, insist);
    assert Due(t, p) && R.Exhausted(t.kind, t.st.timing);
    var at, tail, k' := WalkReaches(w.tm, 0, i, e);
    WalkEffects(tail, k', e);
    before := at.effects[|w.tm.effects|..];
    after := next.tm.effects[|tail.effects|..];
    assert tail.effects == at.effects + FreedAll(t.bindings);
    var all := NewEffects(w.tm, next.tm);
    assert all == before + FreedAll(t.bindings) + after;
    hide Walk, Act, LeftOf, Apply, Good, Has, Emptied;
    ApplyAppend(w.db, before + FreedAll(t.bindings), after, p.now);
    ApplyAppend(w.db, before, FreedAll(t.bindings), p.now);
    forall id | NA(id) in t.bindings && Has(w.db, id)
      ensures Emptied(next.db, id)
    {
      var j :| 0 <= j < |t.bindings| && t.bindings[j] == NA(id);
      assert FreedAll(t.bindings)[j] == Freed(NA(id));
      assert Freed(NA(id)) in FreedAll(t.bindings) && Freed(NA(id)) in all;
      ApplyAllKeeps(w.db, all, p.now, id);
    }
    if Good(w.db) {
      ApplyAllGood(w.db, all, p.now);
    }
  }

  /** In every run, therefore: a REBIND without SERVERID ends in the first pass in which a
      message that nobody answers would give up, and that pass releases its bindings. */
  lemma {:induction false} RebindEnds(w: World, hs: seq<Happening>, p: R.Poll, now: ulong, ifaces: seq<CfgIface>,
                                      insist: bool, t: Txn)
    returns (before: seq<Effect>, after: seq<Effect>)
    requires t in w.tm.txns && t.kind.Rebind? && t.servers == [] && Drawn(hs) && R.Draw(p.r1) && R.Draw(p.r2)
    requires var st := R.Run(R.Rebind, t.st, Polls(hs)); !st.done && R.Step(R.Rebind, st, p).done
    ensures var end := AllHappens(w, hs, ifaces, insist); var next := Happens(end, Tick(p, now), ifaces, insist);
            && NewEffects(end.tm, next.tm) == before + FreedAll(t.bindings) + after
            && next.db == ApplyAll(ApplyAll(ApplyAll(end.db, before, p.now), FreedAll(t.bindings), p.now), after, p.now)
            && (forall id :: NA(id) in t.bindings && Has(end.db, id) ==> Emptied(next.db, id))
  {
    RebindUnheard(w, hs, ifaces, insist, t);
    var end := AllHappens(w, hs, ifaces, insist);
    var u := t.(st := R.Run(R.Rebind, t.st, Polls(hs)));
    var i :| 0 <= i < |end.tm.txns| && end.tm.txns[i] == u;
    hide AllHappens, Happens, R.Step, ApplyAll, Emptied, Has;
    before, after := RebindReleases(end, i, p, now, ifaces, insist);
  }

  // -- the handover ---------------------------------------------------------------------------

  lemma {:induction false} NamedIsLeft(db: Db, b: Binding, now: ulong)
    ensures b in LeftOf(db, now) <==> Named(db, b).Some?
    ensures b in LeftOf(db, now) ==> LeftOf(db, now)[b] == LongestLease(db, b, now)
  {
    match b
    case NA(id) =>
      if v :| v in db.ias && v.iaid == id {
        var i :| 0 <= i < |db.ias| && db.ias[i] == v;
      }
      assert IndexOfId(db.ias, id) < |db.ias| ==> db.ias[IndexOfId(db.ias, id)] in db.ias;
    case PD(id) =>
      if v :| v in db.pds && v.iaid == id {
        var i :| 0 <= i < |db.pds| && db.pds[i] == v;
      }
      assert IndexOfId(db.pds, id) < |db.pds| ==> db.pds[IndexOfId(db.pds, id)] in db.pds;
  }

  lemma {:induction false} LongestAgrees(db: Db, bs: seq<Binding>, now: ulong)
    ensures Longest(LeftOf(db, now), bs) == LongestOf(db, bs, now)
  {
    if bs != [] {
      LongestAgrees(db, bs[..|bs| - 1], now);
      NamedIsLeft(db, bs[|bs| - 1], now);
      hide LeftOf, Named;
    }
  }

  /** A RENEW that gives up leaves a REBIND with its bindings, without its SERVERID, and
      lasting as long as the longest lease of what it names. */
  lemma {:induction false} RenewLeavesRebind(w: World, i: nat, p: R.Poll, now: ulong, ifaces: seq<CfgIface>,
                                             insist: bool)
    requires i < |w.tm.txns| && w.tm.txns[i].kind.Renew? && w.tm.txns[i].Live()
    requires R.Draw(p.r1) && R.Draw(p.r2) && Stepped(w.tm.txns[i], p).st.done
    ensures var t := w.tm.txns[i];
            var r := Txn(R.Rebind, t.bindings, if t.servers == [] then [] else t.servers[1..],
                         R.Born(R.Initial(R.Rebind, LongestOf(w.db, t.bindings, now)), p));
            r in Happens(w, Tick(p, now), ifaces, insist).tm.txns
  {
    var t := w.tm.txns[i];
    var e := Env(p, LeftOf(w.db, now));
    LongestAgrees(w.db, t.bindings, now);
    hide LeftOf, LongestOf;
    assert Due(t, p) && R.Exhausted(t.kind, t.st.timing);
    var at, tail, k' := WalkReaches(w.tm, 0, i, e);
    var r := T.NewRebind(t, e);
    assert tail.txns == at.txns[i := Finished(t, p)] + [r];
    var j := |at.txns|;
    NewNotDue([], [], t, e);
    hide R.Born, Longest;
    NotDueStays(r, p);
    if j < k' {
      WalkPast(tail, k', j, e);
    } else {
      var _, _, _ := WalkReaches(tail, k', j, e);
    }
    var walked := Walk(w.tm, 0, e);
    FilterIn(walked.txns, T.IsLive());
    hide Walk;
    assert walked.txns[j] == r && r in walked.txns;
  }

  /** The database has `l` in the IA or PD that the binding names. */
  predicate LeaseOf(db: Db, b: Binding, l: Lease) {
    Named(db, b).Some? && l in Named(db, b).value.addrs + Named(db, b).value.prefixes
  }

  /** The whole way: a RENEW (its one SERVERID is its server's) that gives up is followed
      by a REBIND that no reply can end, and when that gives up, every lease of every IA
      and PD that it named, as the database had it when the REBIND began, has expired. */
  lemma {:induction false} LeasesOutlived(w: World, i: nat, p: R.Poll, now: ulong, hs: seq<Happening>,
                                          ifaces: seq<CfgIface>, insist: bool, skew: int)
    requires i < |w.tm.txns| && w.tm.txns[i].kind.Renew? && w.tm.txns[i].Live() && |w.tm.txns[i].servers| <= 1
    requires R.Draw(p.r1) && R.Draw(p.r2) && Stepped(w.tm.txns[i], p).st.done
    requires Drawn(hs) && R.Polls(p.now, Polls(hs)) && p.now == now + skew
    requires forall b <- w.tm.txns[i].bindings :: Named(w.db, b).Some? ==> LeasesInRange(Named(w.db, b).value, now)
    ensures var t := w.tm.txns[i]; var mrd := LongestOf(w.db, t.bindings, now);
            var st := R.Life(R.Rebind, mrd, p, Polls(hs));
            var end := AllHappens(Happens(w, Tick(p, now), ifaces, insist), hs, ifaces, insist);
            && (!st.done ==> Txn(R.Rebind, t.bindings, [], st) in end.tm.txns)
            && (st.done ==>
                  forall b, l, g: ulong | b in t.bindings && LeaseOf(w.db, b, l) && g == st.gaveUp - skew ::
                    Leases.Expired(l, g))
  {
    var t := w.tm.txns[i];
    var mrd := LongestOf(w.db, t.bindings, now);
    RenewLeavesRebind(w, i, p, now, ifaces, insist);
    var r := Txn(R.Rebind, t.bindings, [], R.Born(R.Initial(R.Rebind, mrd), p));
    assert AfterServerId(t.servers) == [];
    hide Happens, LongestOf;
    RebindUnheard(Happens(w, Tick(p, now), ifaces, insist), hs, ifaces, insist, r);
    LongestInRange(w.db, t.bindings, now);
    var st := R.Life(R.Rebind, mrd, p, Polls(hs));
    forall b, l, g: ulong | st.done && b in t.bindings && LeaseOf(w.db, b, l) && g == st.gaveUp - skew
      ensures Leases.Expired(l, g)
    {
      RebindOutlivesLeases(w.db, t.bindings, now, skew, p, Polls(hs), b, l, g);
    }
  }
}
