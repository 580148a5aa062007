/** ClntOptions/ClntOptIA_NA.cpp and ClntOptTA.cpp `doDuties`, ClntMsgRebind.cpp
    `releaseIA` and ClntMsgConfirm.cpp: how answers change the database. */
module Replies {
  import opened Containers
  import opened Doubles
  import opened Leases
  import opened AddressIA
  import opened LeaseDb

  /** One IAADDR option of a received IA_NA or IA_TA. */
  datatype Offer = Offer(addr: Address, pref: ulong, valid: ulong, length: nat)

  /** The addresses of an IA, the addresses on the interface, and whether any
      address was new, while offers are merged. */
  datatype Merge = Merge(addrs: seq<Lease>, link: set<Address>, added: bool)

  predicate Holds(s: seq<Lease>, a: Address) {
    IndexOf(s, a) < |s|
  }

  predicate Withdraws(s: seq<Lease>, o: Offer) {
    Holds(s, o.addr) && o.valid == 0
  }

  /** One offer: a new address is added unless its valid lifetime is 0; a known one
      is refreshed, or removed if its valid lifetime is 0. */
  function One(m: Merge, o: Offer, now: ulong): Merge {
    var k := IndexOf(m.addrs, o.addr);
    if k == |m.addrs| then
      if o.valid == 0 then m
      else Merge(m.addrs + [Lease(o.addr, o.length, o.pref, o.valid, now, Unknown)], m.link + {o.addr}, true)
    else if o.valid == 0 then Merge(Deleted(m.addrs, o.addr), m.link - {o.addr}, m.added)
    else m.(addrs := m.addrs[k := m.addrs[k].(pref := o.pref, valid := o.valid, timestamp := now)])
  }

  /** All offers in turn; an IA_NA stops at the first withdrawal. */
  function MergeAll(m: Merge, offers: seq<Offer>, stop: bool, now: ulong): Merge
    decreases |offers|
  {
    if offers == [] then m
    else if stop && Withdraws(m.addrs, offers[0]) then One(m, offers[0], now)
    else MergeAll(One(m, offers[0], now), offers[1..], stop, now)
  }

  /** The value of an IA after a merge. */
  function Merged(v: IAView, m: Merge, duid: nat): IAView {
    v.(addrs := m.addrs,
       tentative := if m.added then Unknown else v.tentative,
       duid := if m.added then duid else v.duid)
  }

  // -- the merge loop ---------------------------------------------------------------

  method MergeOne(ia: AddrIA, iface: Iface, o: Offer, duid: nat, now: ulong, ghost v: IAView, ghost m: Merge)
    returns (withdrawn: bool)
    requires ia.View() == Merged(v, m, duid) && iface.addrs == m.link
    modifies ia, iface
    ensures ia.View() == Merged(v, One(m, o, now), duid) && iface.addrs == One(m, o, now).link
    ensures withdrawn <==> Withdraws(m.addrs, o)
  {
    hide Deleted;
    var found := ia.GetAddrByValue(o.addr);
    withdrawn := false;
    if found.None? {
      if o.valid != 0 {
        ia.AddAddr(Lease(o.addr, o.length, o.pref, o.valid, now, Unknown));
        ia.DUID := duid;
        iface.AddAddr(o.addr);
      }
    } else if o.valid == 0 {
      var _ := ia.DelAddr(o.addr);
      iface.DelAddr(o.addr);
      withdrawn := true;
    } else {
      ia.AddrLst := ia.AddrLst.SetLast(found.value.(pref := o.pref, valid := o.valid, timestamp := now));
    }
  }

  method MergeOffers(ia: AddrIA, iface: Iface, offers: seq<Offer>, stop: bool, duid: nat, now: ulong, ghost v: IAView)
    requires ia.View() == v
    modifies ia, iface
    ensures var m := MergeAll(Merge(v.addrs, old(iface.addrs), false), offers, stop, now);
            ia.View() == Merged(v, m, duid) && iface.addrs == m.link
  {
    hide One, Withdraws;
    ghost var m := Merge(v.addrs, iface.addrs, false);
    ghost var all := MergeAll(m, offers, stop, now);
    var opts := Cursored(offers, 0);
    while true
      invariant opts.Positioned() && opts.lista == offers
      invariant ia.View() == Merged(v, m, duid) && iface.addrs == m.link
      invariant MergeAll(m, offers[opts.it..], stop, now) == all
      decreases |offers| - opts.it
    {
      var r := opts.Peek();
      opts := opts.Next();
      if r.None? {
        break;
      }
      assert offers[opts.it - 1..][1..] == offers[opts.it..];
      var withdrawn := MergeOne(ia, iface, r.value, duid, now, v, m);
      m := One(m, r.value, now);
      if withdrawn && stop {
        assert m == all;
        break;
      }
    }
  }

  // -- the database -------------------------------------------------------------------

  /** Index of the first member with that IAID, or the length of the list. */
  function IndexOfId(vs: seq<IAView>, iaid: nat): (k: nat)
    ensures k <= |vs|
    ensures k < |vs| ==> vs[k].iaid == iaid
    ensures forall i :: 0 <= i < k ==> vs[i].iaid != iaid
  {
    if vs == [] || vs[0].iaid == iaid then 0 else 1 + IndexOfId(vs[1..], iaid)
  }

  function SetState(cfg: map<nat, EState>, id: nat, s: EState): map<nat, EState> {
    if id in cfg then cfg[id := s] else cfg
  }

  /** T1 and T2 of a received IA_NA, and what a cast to `int` yields that does not fit. */
  datatype Timing = Timing(t1: ulong, t2: ulong, unfit: ulong)

  /** 70% of the lifetime, in double arithmetic, cast to a 32-bit `int`. */
  function DefaultT2(pref: ulong, unfit: ulong): ulong {
    if Seventy(pref) < 0x8000_0000 then Seventy(pref) else unfit
  }

  /** T1 and T2 as received, or 50% and 70% of the first preferred lifetime. */
  function Timers(v: IAView, offers: seq<Offer>, t: Timing): IAView {
    if t.t1 != 0 && t.t2 != 0 then v.(t1 := t.t1, t2 := t.t2)
    else if offers != [] then v.(t1 := offers[0].pref / 2, t2 := DefaultT2(offers[0].pref, t.unfit))
    else v
  }

  function Renewed(v: IAView, m: Merge, offers: seq<Offer>, t: Timing, duid: nat, now: ulong): IAView {
    var w := Timers(Merged(v, m, duid), offers, t);
    w.(addrs := Restamped(m.addrs, now), timestamp := now, state := Configured)
  }

  /** The database after a received IA_NA was carried out. */
  function ReplyNA(db: Db, iaid: nat, offers: seq<Offer>, t: Timing, duid: nat, now: ulong): Db {
    var k := IndexOfId(db.ias, iaid);
    if k == |db.ias| then db
    else
      var m := MergeAll(Merge(db.ias[k].addrs, db.onLink, false), offers, true, now);
      db.(ias := db.ias[k := Renewed(db.ias[k], m, offers, t, duid, now)],
          onLink := m.link, cfgIA := SetState(db.cfgIA, iaid, Configured))
  }

  function NewTA(iaid: nat, ifindex: nat, duid: nat, now: ulong): IAView {
    IAView(iaid, ifindex, [], [], INFINITY, INFINITY, NotConfigured, Unknown, now, duid)
  }

  /** A received IA_TA whose id is unknown creates the TA. */
  function WithTA(tas: seq<IAView>, iaid: nat, ifindex: nat, duid: nat, now: ulong): seq<IAView> {
    if IndexOfId(tas, iaid) == |tas| then tas + [NewTA(iaid, ifindex, duid, now)] else tas
  }

  /** The database after a received IA_TA was carried out. */
  function ReplyTA(db: Db, iaid: nat, ifindex: nat, offers: seq<Offer>, duid: nat, now: ulong): Db {
    var tas := WithTA(db.tas, iaid, ifindex, duid, now);
    var k := IndexOfId(db.tas, iaid);
    var m := MergeAll(Merge(tas[k].addrs, db.onLink, false), offers, false, now);
    db.(tas := tas[k := Merged(tas[k], m, duid).(state := Configured)], onLink := m.link, cfgTA := Configured)
  }

  /** The database after `releaseIA`, or after a rejected CONFIRM, for one IA. */
  function Release(db: Db, iaid: nat): Db {
    var k := IndexOfId(db.ias, iaid);
    if k == |db.ias| then db
    else db.(ias := db.ias[k := db.ias[k].(addrs := [], state := NotConfigured)],
             onLink := db.onLink - Addrs(db.ias[k].addrs),
             cfgIA := SetState(db.cfgIA, iaid, NotConfigured))
  }

  /** The database after a CONFIRM was accepted, for one IA; `ts` is the timestamp. */
  function Accept(db: Db, iaid: nat, ts: ulong): Db {
    var k := IndexOfId(db.ias, iaid);
    if k == |db.ias| then db
    else
      var v := db.ias[k].(addrs := Restamped(db.ias[k].addrs, ts), timestamp := ts, state := Configured);
      db.(ias := db.ias[k := v], onLink := db.onLink + Addrs(db.ias[k].addrs))
  }

  /** The database after one IA was given a state: `setIA2Confirm`, `processLoadedDB`,
      `checkRenew` and the SOLICIT's constructor do no more to it. */
  function WithState(db: Db, iaid: nat, s: EState): Db {
    var k := IndexOfId(db.ias, iaid);
    if k == |db.ias| then db else db.(ias := db.ias[k := db.ias[k].(state := s)])
  }

  // -- the code -------------------------------------------------------------------------

  method GetById(lst: Container<AddrIA>, iaid: nat, ghost vs: seq<IAView>) returns (r: Option<AddrIA>)
    requires Shows(lst.lista, vs)
    modifies lst`it
    ensures r.Some? <==> IndexOfId(vs, iaid) < |vs|
    ensures |lst.lista| == |vs| && (r.Some? ==> r.value == lst.lista[IndexOfId(vs, iaid)])
  {
    lst.First();
    while true
      invariant lst.Positioned() && Shows(lst.lista, vs)
      invariant forall i :: 0 <= i < lst.it ==> vs[i].iaid != iaid
      decreases |lst.lista| - lst.it
    {
      r := lst.Get();
      if r.None? {
        return;
      }
      assert r.value.View() == vs[lst.it - 1];
      if r.value.IAID == iaid {
        return;
      }
    }
  }

  method RenewIA(ia: AddrIA, iface: Iface, offers: seq<Offer>, t: Timing, duid: nat, now: ulong, ghost v: IAView)
    requires ia.View() == v
    modifies ia, iface
    ensures var m := MergeAll(Merge(v.addrs, old(iface.addrs), false), offers, true, now);
            ia.View() == Renewed(v, m, offers, t, duid, now) && iface.addrs == m.link
  {
    hide MergeAll, DefaultT2;
    MergeOffers(ia, iface, offers, true, duid, now, v);
    if t.t1 != 0 && t.t2 != 0 {
      ia.T1, ia.T2 := t.t1, t.t2;
    } else {
      var opts := Cursored(offers, 0);
      var r := opts.Peek();
      if r.Some? {
        ia.T1 := r.value.pref / 2;
        ia.T2 := DefaultT2(r.value.pref, t.unfit);
      }
    }
    ia.SetTimestamp(now);
    ia.State := Configured;
  }

  method RenewAt(ghost ms: seq<AddrIA>, ghost k: nat, ia: AddrIA, iface: Iface, offers: seq<Offer>, t: Timing,
                 duid: nat, now: ulong, ghost vs: seq<IAView>)
    requires Shows(ms, vs) && NoDup(ms) && k < |ms| && ms[k] == ia
    modifies ia, iface
    ensures var m := MergeAll(Merge(vs[k].addrs, old(iface.addrs), false), offers, true, now);
            Shows(ms, vs[k := Renewed(vs[k], m, offers, t, duid, now)]) && iface.addrs == m.link
  {
    hide MergeAll, Renewed;
    assert ia.View() == vs[k];
    RenewIA(ia, iface, offers, t, duid, now, vs[k]);
  }

  /** `TClntOptIA_NA::doDuties`. */
  method OnReplyNA(c: Client, iaid: nat, offers: seq<Offer>, t: Timing, duid: nat, now: ulong, ghost db: Db)
    requires c.Separated() && c.Is(db)
    modifies c`cfgIA, c.IAsLst`it, c.iface, Set(c.IAsLst.lista)
    ensures c.Is(ReplyNA(db, iaid, offers, t, duid, now))
  {
    hide MergeAll, Renewed, Shows;
    var r := GetById(c.IAsLst, iaid, db.ias);
    if r.None? {
      return;
    }
    RenewAt(c.IAsLst.lista, IndexOfId(db.ias, iaid), r.value, c.iface, offers, t, duid, now, db.ias);
    if iaid in c.cfgIA {
      c.cfgIA := c.cfgIA[iaid := Configured];
    }
  }

  method MergeTAAt(ghost ms: seq<AddrIA>, ghost k: nat, ta: AddrIA, iface: Iface, offers: seq<Offer>, duid: nat,
                   now: ulong, ghost vs: seq<IAView>)
    requires Shows(ms, vs) && NoDup(ms) && k < |ms| && ms[k] == ta
    modifies ta, iface
    ensures var m := MergeAll(Merge(vs[k].addrs, old(iface.addrs), false), offers, false, now);
            Shows(ms, vs[k := Merged(vs[k], m, duid).(state := Configured)]) && iface.addrs == m.link
  {
    hide MergeAll;
    assert ta.View() == vs[k];
    MergeOffers(ta, iface, offers, false, duid, now, vs[k]);
    ta.State := Configured;
  }

  /** The TA with that id, made if there is none. */
  method EnsureTA(lst: Container<AddrIA>, iaid: nat, ifindex: nat, duid: nat, now: ulong, ghost vs: seq<IAView>)
    returns (ta: AddrIA)
    requires Shows(lst.lista, vs) && NoDup(lst.lista)
    modifies lst
    ensures Shows(lst.lista, WithTA(vs, iaid, ifindex, duid, now)) && NoDup(lst.lista)
    ensures IndexOfId(vs, iaid) < |lst.lista| && ta == lst.lista[IndexOfId(vs, iaid)]
    ensures lst.lista == old(lst.lista) || (lst.lista == old(lst.lista) + [ta] && fresh(ta))
  {
    var r := GetById(lst, iaid, vs);
    if r.Some? {
      return r.value;
    }
    ta := new AddrIA(iaid, ifindex, INFINITY, INFINITY, duid, now);
    lst.Append(ta);
  }

  /** `TClntOptTA::doDuties`. */
  method OnReplyTA(c: Client, iaid: nat, ifindex: nat, offers: seq<Offer>, duid: nat, now: ulong, ghost db: Db)
    requires c.Separated() && c.Is(db)
    modifies c`cfgTA, c.TALst, c.iface, Set(c.TALst.lista)
    ensures c.Separated() && c.Is(ReplyTA(db, iaid, ifindex, offers, duid, now))
  {
    hide MergeAll, Merged, Shows, WithTA;
    var ta := EnsureTA(c.TALst, iaid, ifindex, duid, now, db.tas);
    MergeTAAt(c.TALst.lista, IndexOfId(db.tas, iaid), ta, c.iface, offers, duid, now,
      WithTA(db.tas, iaid, ifindex, duid, now));
    c.cfgTA := Configured;
  }

  /** The loop that takes every address of an IA off the interface and out of the
      database: each deletion rewinds the cursor the loop stands on. */
  method DropAll(ia: AddrIA, iface: Iface, ghost v: IAView)
    requires ia.View() == v && UniqueAddrs(v.addrs)
    modifies ia`AddrLst, iface
    ensures ia.View() == v.(addrs := [])
    ensures iface.addrs == old(iface.addrs) - Addrs(v.addrs)
  {
    hide Deleted;
    ia.AddrLst := ia.AddrLst.First();
    while true
      invariant ia.AddrLst.it == 0 && UniqueAddrs(ia.AddrLst.lista) && ia.View() == v.(addrs := ia.AddrLst.lista)
      invariant Addrs(ia.AddrLst.lista) <= Addrs(v.addrs)
      invariant iface.addrs == old(iface.addrs) - (Addrs(v.addrs) - Addrs(ia.AddrLst.lista))
      decreases |ia.AddrLst.lista|
    {
      var r := ia.AddrLst.Peek();
      ia.AddrLst := ia.AddrLst.Next();
      if r.None? {
        break;
      }
      DropFirst(ia.AddrLst.lista);
      iface.DelAddr(r.value.addr);
      var _ := ia.DelAddr(r.value.addr);
    }
  }

  lemma {:induction false} DropFirst(s: seq<Lease>)
    requires UniqueAddrs(s) && s != []
    ensures IndexOf(s, s[0].addr) == 0 && |Deleted(s, s[0].addr)| < |s| && UniqueAddrs(Deleted(s, s[0].addr))
    ensures Addrs(Deleted(s, s[0].addr)) == Addrs(s) - {s[0].addr}
  {
    DeletedMeaning(s, s[0].addr);
  }

  method ReleaseAt(ghost ms: seq<AddrIA>, ghost k: nat, ia: AddrIA, iface: Iface, ghost vs: seq<IAView>)
    requires Shows(ms, vs) && NoDup(ms) && k < |ms| && ms[k] == ia && UniqueAddrs(vs[k].addrs)
    modifies ia`AddrLst, ia`State, iface
    ensures Shows(ms, vs[k := vs[k].(addrs := [], state := NotConfigured)])
    ensures iface.addrs == old(iface.addrs) - Addrs(vs[k].addrs)
  {
    assert ia.View() == vs[k];
    DropAll(ia, iface, vs[k]);
    ia.State := NotConfigured;
  }

  /** `TClntMsgRebind::releaseIA`, and one turn of `TClntMsgConfirm::addrsRejected`. */
  method ReleaseIA(c: Client, iaid: nat, ghost db: Db)
    requires c.Separated() && c.Is(db) && forall v <- db.ias :: UniqueAddrs(v.addrs)
    modifies c`cfgIA, c.IAsLst`it, c.iface, Set(c.IAsLst.lista)`AddrLst, Set(c.IAsLst.lista)`State
    ensures c.Is(Release(db, iaid))
  {
    hide Shows, Addrs;
    var r := GetById(c.IAsLst, iaid, db.ias);
    if r.None? {
      return;
    }
    ReleaseAt(c.IAsLst.lista, IndexOfId(db.ias, iaid), r.value, c.iface, db.ias);
    if iaid in c.cfgIA {
      c.cfgIA := c.cfgIA[iaid := NotConfigured];
    }
  }

  method AcceptAt(ghost ms: seq<AddrIA>, ghost k: nat, ia: AddrIA, iface: Iface, ts: ulong, ghost vs: seq<IAView>)
    requires Shows(ms, vs) && NoDup(ms) && k < |ms| && ms[k] == ia
    modifies ia`AddrLst, ia`State, ia`Timestamp, iface
    ensures Shows(ms, vs[k := vs[k].(addrs := Restamped(vs[k].addrs, ts), timestamp := ts, state := Configured)])
    ensures iface.addrs == old(iface.addrs) + Addrs(vs[k].addrs)
  {
    assert ia.View() == vs[k];
    ia.State := Configured;
    ia.SetTimestamp(ts);
    ia.AddrLst := ia.AddrLst.First();
    ghost var s := Restamped(vs[k].addrs, ts);
    while ia.AddrLst.Peek().Some?
      invariant ia.AddrLst.Positioned() && ia.View() == vs[k].(addrs := s, timestamp := ts, state := Configured)
      invariant iface.addrs == old(iface.addrs) + Addrs(vs[k].addrs[..ia.AddrLst.it])
      decreases |s| - ia.AddrLst.it
    {
      var l := ia.AddrLst.Peek().value;
      ia.AddrLst := ia.AddrLst.Next();
      iface.AddAddr(l.addr);
      AddrsNext(vs[k].addrs, ia.AddrLst.it - 1);
    }
    assert vs[k].addrs[..ia.AddrLst.it] == vs[k].addrs;
  }

  lemma {:induction false} AddrsNext(s: seq<Lease>, n: nat)
    requires n < |s|
    ensures Addrs(s[..n + 1]) == Addrs(s[..n]) + {s[n].addr}
  {
    assert forall l :: l in s[..n + 1] <==> l in s[..n] || l == s[n];
  }

  /** One turn of `TClntMsgConfirm::addrsAccepted`. */
  method AcceptIA(c: Client, iaid: nat, ts: ulong, ghost db: Db)
    requires c.Separated() && c.Is(db)
    modifies c.IAsLst`it, c.iface, Set(c.IAsLst.lista)`AddrLst, Set(c.IAsLst.lista)`State, Set(c.IAsLst.lista)`Timestamp
    ensures c.Is(Accept(db, iaid, ts))
  {
    hide Shows, Addrs, Restamped;
    var r := GetById(c.IAsLst, iaid, db.ias);
    if r.None? {
      return;
    }
    AcceptAt(c.IAsLst.lista, IndexOfId(db.ias, iaid), r.value, c.iface, ts, db.ias);
  }

  method SetStateAt(ghost ms: seq<AddrIA>, ghost k: nat, ia: AddrIA, s: EState, ghost vs: seq<IAView>)
    requires Shows(ms, vs) && NoDup(ms) && k < |ms| && ms[k] == ia
    modifies ia`State
    ensures Shows(ms, vs[k := vs[k].(state := s)])
  {
    assert ia.View() == vs[k];
    ia.State := s;
  }

  /** `setState` of the IA with that id. */
  method SetIAState(c: Client, iaid: nat, s: EState, ghost db: Db)
    requires c.Separated() && c.Is(db)
    modifies c.IAsLst`it, Set(c.IAsLst.lista)`State
    ensures c.Is(WithState(db, iaid, s))
  {
    hide Shows;
    var r := GetById(c.IAsLst, iaid, db.ias);
    if r.Some? {
      SetStateAt(c.IAsLst.lista, IndexOfId(db.ias, iaid), r.value, s, db.ias);
    }
  }

  // -- consequences -----------------------------------------------------------------

  /** How many offers an IA_NA gets through: up to and including the first withdrawal. */
  function Reach(m: Merge, offers: seq<Offer>, now: ulong): (n: nat)
    ensures n <= |offers|
    decreases |offers|
  {
    if offers == [] then 0
    else if Withdraws(m.addrs, offers[0]) then 1
    else 1 + Reach(One(m, offers[0], now), offers[1..], now)
  }

  /** An IA_NA is merged as an IA_TA would be, but only as far as its first withdrawal:
      the offers after it are ignored. */
  lemma {:induction false} StopsAtWithdrawal(m: Merge, offers: seq<Offer>, now: ulong)
    ensures MergeAll(m, offers, true, now) == MergeAll(m, offers[..Reach(m, offers, now)], false, now)
    ensures Reach(m, offers, now) < |offers| ==>
              Withdraws(MergeAll(m, offers[..Reach(m, offers, now) - 1], false, now).addrs,
                offers[Reach(m, offers, now) - 1])
    decreases |offers|
  {
    hide One, Withdraws;
    if offers != [] {
      var n := Reach(m, offers, now);
      assert offers[..n][0] == offers[0];
      if Withdraws(m.addrs, offers[0]) {
        assert offers[..1][1..] == [];
        assert offers[..0] == [];
      } else {
        var m', rest := One(m, offers[0], now), offers[1..];
        StopsAtWithdrawal(m', rest, now);
        assert offers[..n][1..] == rest[..n - 1];
        if n < |offers| {
          ReachPositive(m', rest, now);
          assert offers[..n - 1][0] == offers[0] && offers[..n - 1][1..] == rest[..n - 2];
        }
      }
    }
  }

  lemma {:induction false} ReachPositive(m: Merge, offers: seq<Offer>, now: ulong)
    requires offers != []
    ensures Reach(m, offers, now) > 0
  {
  }

  lemma {:induction false} UnmentionedKept(m: Merge, offers: seq<Offer>, stop: bool, now: ulong, l: Lease)
    requires UniqueAddrs(m.addrs) && l in m.addrs && forall o <- offers :: o.addr != l.addr
    ensures var r := MergeAll(m, offers, stop, now); UniqueAddrs(r.addrs) && l in r.addrs
    decreases |offers|
  {
    if offers != [] {
      OneKeepsOthers(m, offers[0], now, l);
      hide One;
      UnmentionedKept(One(m, offers[0], now), offers[1..], stop, now, l);
    }
  }

  lemma {:induction false} OneKeepsOthers(m: Merge, o: Offer, now: ulong, l: Lease)
    requires UniqueAddrs(m.addrs) && l in m.addrs && o.addr != l.addr
    ensures UniqueAddrs(One(m, o, now).addrs) && l in One(m, o, now).addrs
  {
    DeletedMeaning(m.addrs, o.addr);
    var i :| 0 <= i < |m.addrs| && m.addrs[i] == l;
    assert Holds(m.addrs, o.addr) && o.valid != 0 ==> One(m, o, now).addrs[i] == l;
  }

  /** Section 18.1.8 of RFC 3315 has a client leave alone the addresses of an IA that
      the server did not mention.  The code restarts their lifetimes too: such a lease
      is unchanged exactly when it was stamped this very second. */
  lemma {:induction false} UnmentionedRestarted(db: Db, iaid: nat, offers: seq<Offer>, t: Timing, duid: nat,
                                                now: ulong, l: Lease)
    requires var k := IndexOfId(db.ias, iaid); k < |db.ias| && UniqueAddrs(db.ias[k].addrs) && l in db.ias[k].addrs
    requires forall o <- offers :: o.addr != l.addr
    ensures var w := ReplyNA(db, iaid, offers, t, duid, now).ias[IndexOfId(db.ias, iaid)];
            l.(timestamp := now) in w.addrs && (l in w.addrs <==> l.timestamp == now)
  {
    var k := IndexOfId(db.ias, iaid);
    var m0 := Merge(db.ias[k].addrs, db.onLink, false);
    UnmentionedKept(m0, offers, true, now, l);
    var m := MergeAll(m0, offers, true, now);
    hide MergeAll;
    var w := Restamped(m.addrs, now);
    var i :| 0 <= i < |m.addrs| && m.addrs[i] == l;
    assert w[i] == l.(timestamp := now);
    assert forall x :: x in w ==> x.timestamp == now;
  }

  /** The default T2 of a received lifetime is 70% of it rounded down, or a second less
      where double arithmetic falls short, as long as that fits an `int`; it does not for
      the infinite lifetime. */
  lemma {:induction false} DefaultT2Exactly(pref: ulong, unfit: ulong)
    requires pref <= INFINITY
    ensures var short := if pref % 10 == 0 && 8 * (pref / 10) > Ulp(pref * SEVENTENTHS) then 1 else 0;
            DefaultT2(pref, unfit) == if 7 * pref / 10 < 0x8000_0000 then 7 * pref / 10 - short else unfit
    ensures DefaultT2(INFINITY, unfit) == unfit
  {
    SeventyExactly(pref);
    SeventyExactly(INFINITY);
    hide Seventy, Ulp;
  }
}
