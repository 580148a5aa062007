/** ClntTransMgr.cpp `removeExpired` and ClntAddrMgr.cpp `doDuties`: throwing out
    expired leases, with one clock reading per pass. */
module Expiry {
  import opened Containers
  import opened Leases
  import opened AddressIA
  import opened LeaseDb
  import opened Timers

  // -- what the sweep should do -------------------------------------------------

  /** The addresses of expired leases. */
  function Dead(s: seq<Lease>, now: ulong): set<Address> {
    set l | l in s && Expired(l, now) :: l.addr
  }

  function Swept(v: IAView, now: ulong): IAView {
    v.(addrs := Live(v.addrs, now))
  }

  function SweptPd(v: IAView, now: ulong): IAView {
    v.(prefixes := Live(v.prefixes, now))
  }

  function SweptBy(pd: bool, v: IAView, now: ulong): IAView {
    if pd then SweptPd(v, now) else Swept(v, now)
  }

  /** The first `n` members are swept. */
  function SweptUpTo(vs: seq<IAView>, n: int, pd: bool, now: ulong): seq<IAView> {
    seq(|vs|, i requires 0 <= i < |vs| => if i < n then SweptBy(pd, vs[i], now) else vs[i])
  }

  function SweptAll(vs: seq<IAView>, pd: bool, now: ulong): seq<IAView> {
    SweptUpTo(vs, |vs|, pd, now)
  }

  /** Something in it expired and nothing of its own kind is left. */
  predicate RanOut(v: IAView, pd: bool, now: ulong) {
    && MinTimer(ValidOf(v, now)) == 0
    && (if pd then Live(v.prefixes, now) == [] else Live(v.addrs, now) == [])
  }

  /** The ids, among the first `n` members, of those that ran out. */
  function RanOutIds(vs: seq<IAView>, n: int, pd: bool, now: ulong): set<nat> {
    set i | 0 <= i < |vs| && i < n && RanOut(vs[i], pd, now) :: vs[i].iaid
  }

  function Freed(cfg: map<nat, EState>, ids: set<nat>): map<nat, EState> {
    map id | id in cfg :: if id in ids then NotConfigured else cfg[id]
  }

  /** The expired addresses of the first `n` members. */
  function DeadIn(vs: seq<IAView>, n: int, now: ulong): set<Address> {
    set i, a | 0 <= i < |vs| && i < n && a in Dead(vs[i].addrs, now) :: a
  }

  /** The database and the interface after `removeExpired`. */
  function Expire(db: Db, now: ulong): Db {
    Db(SweptAll(db.ias, false, now), SweptAll(db.tas, false, now), SweptAll(db.pds, true, now),
       db.onLink - DeadIn(db.ias, |db.ias|, now) - DeadIn(db.tas, |db.tas|, now),
       Freed(db.cfgIA, RanOutIds(db.ias, |db.ias|, false, now)),
       Freed(db.cfgPD, RanOutIds(db.pds, |db.pds|, true, now)),
       if RanOutIds(db.tas, |db.tas|, false, now) == {} then db.cfgTA else NotConfigured)
  }

  // -- one list -----------------------------------------------------------------

  lemma {:induction false} DeadStep(s: seq<Lease>, k: nat, now: ulong)
    requires UniqueAddrs(s) && k < |s| && Expired(s[k], now)
    ensures IndexOf(s, s[k].addr) == k && Deleted(s, s[k].addr) == Without(s, k) && UniqueAddrs(Without(s, k))
    ensures Dead(Without(s, k), now) == Dead(s, now) - {s[k].addr}
    ensures Live(Without(s, k), now) == Live(s, now)
  {
    IndexOfUnique(s, k);
    DeletedMeaning(s, s[k].addr);
    ExpiredGone(s, k, now);
  }

  /** The inner loop: expired addresses go from the interface and from the list. */
  method SweepAddresses(m: AddrIA, iface: Iface, now: ulong)
    requires UniqueAddrs(m.AddrLst.lista)
    modifies m`AddrLst, iface
    ensures m.AddrLst.lista == Live(old(m.AddrLst).lista, now)
    ensures iface.addrs == old(iface.addrs) - Dead(old(m.AddrLst).lista, now)
  {
    hide Live;
    hide Deleted;
    m.AddrLst := m.AddrLst.First();
    ghost var was := m.AddrLst.lista;
    while true
      invariant m.AddrLst.Positioned() && UniqueAddrs(m.AddrLst.lista)
      invariant Live(m.AddrLst.lista, now) == Live(was, now)
      invariant Dead(m.AddrLst.lista, now) <= Dead(was, now)
      invariant forall i :: 0 <= i < m.AddrLst.it ==> !Expired(m.AddrLst.lista[i], now)
      invariant iface.addrs == old(iface.addrs) - (Dead(was, now) - Dead(m.AddrLst.lista, now))
      decreases |m.AddrLst.lista|, |m.AddrLst.lista| - m.AddrLst.it
    {
      var r := m.AddrLst.Peek();
      m.AddrLst := m.AddrLst.Next();
      if r.None? {
        break;
      }
      if Expired(r.value, now) {
        DeadStep(m.AddrLst.lista, m.AddrLst.it - 1, now);
        iface.DelAddr(r.value.addr);
        var _ := m.DelAddr(r.value.addr);
      }
    }
    NothingExpired(m.AddrLst.lista, now);
  }

  /** The same loop over the prefixes of a PD; what the operating system is told
      about prefixes is not part of this model. */
  method SweepPrefixes(m: AddrIA, now: ulong)
    requires UniqueAddrs(m.PrefixLst.lista)
    modifies m`PrefixLst
    ensures m.PrefixLst.lista == Live(old(m.PrefixLst).lista, now)
  {
    hide Live;
    hide Deleted;
    m.PrefixLst := m.PrefixLst.First();
    ghost var was := m.PrefixLst.lista;
    while true
      invariant m.PrefixLst.Positioned() && UniqueAddrs(m.PrefixLst.lista)
      invariant Live(m.PrefixLst.lista, now) == Live(was, now)
      invariant forall i :: 0 <= i < m.PrefixLst.it ==> !Expired(m.PrefixLst.lista[i], now)
      decreases |m.PrefixLst.lista|, |m.PrefixLst.lista| - m.PrefixLst.it
    {
      var r := m.PrefixLst.Peek();
      m.PrefixLst := m.PrefixLst.Next();
      if r.None? {
        break;
      }
      if Expired(r.value, now) {
        DeadStep(m.PrefixLst.lista, m.PrefixLst.it - 1, now);
        var _ := m.DelPrefix(r.value.addr);
      }
    }
    NothingExpired(m.PrefixLst.lista, now);
  }

  // -- one member ---------------------------------------------------------------

  /** A member whose guard is not 0 has nothing to sweep. */
  lemma {:induction false} NothingToSweep(v: IAView, now: ulong)
    requires MinTimer(ValidOf(v, now)) != 0
    ensures Swept(v, now) == v && SweptPd(v, now) == v && Dead(v.addrs, now) == {}
    ensures !RanOut(v, false, now) && !RanOut(v, true, now)
  {
    MinTimerConcat(ValidTimers(v.addrs, now), ValidTimers(v.prefixes, now));
    GuardExact(v.addrs, now);
    GuardExact(v.prefixes, now);
  }

  /** The body of the IA and TA loops. */
  method SweepHolder(m: AddrIA, iface: Iface, now: ulong, ghost v: IAView) returns (out: bool)
    requires m.View() == v && v.Sound()
    modifies m`AddrLst, m`PrefixLst, iface
    ensures m.View() == Swept(v, now)
    ensures iface.addrs == old(iface.addrs) - Dead(v.addrs, now)
    ensures out == RanOut(v, false, now)
  {
    hide Live;
    hide MinTimer;
    var t := m.GetValidTimeout(now);
    if t != 0 {
      NothingToSweep(v, now);
      return false;
    }
    SweepAddresses(m, iface, now);
    out := |m.AddrLst.lista| == 0;
  }

  /** The body of the PD loop. */
  method SweepPd(m: AddrIA, now: ulong, ghost v: IAView) returns (out: bool)
    requires m.View() == v && v.Sound()
    modifies m`AddrLst, m`PrefixLst
    ensures m.View() == SweptPd(v, now)
    ensures out == RanOut(v, true, now)
  {
    hide Live;
    hide MinTimer;
    var t := m.GetValidTimeout(now);
    if t != 0 {
      NothingToSweep(v, now);
      return false;
    }
    SweepPrefixes(m, now);
    out := |m.PrefixLst.lista| == 0;
  }

  // -- all members --------------------------------------------------------------

  method SweepHolderAt(ghost ms: seq<AddrIA>, ghost k: nat, m: AddrIA, iface: Iface, now: ulong, ghost vs: seq<IAView>)
    returns (out: bool)
    requires Shows(ms, vs) && NoDup(ms) && k < |ms| && ms[k] == m && vs[k].Sound()
    modifies m`AddrLst, m`PrefixLst, iface
    ensures Shows(ms, vs[k := SweptBy(false, vs[k], now)])
    ensures iface.addrs == old(iface.addrs) - Dead(vs[k].addrs, now)
    ensures out == RanOut(vs[k], false, now)
  {
    hide Swept, RanOut;
    assert m.View() == vs[k];
    out := SweepHolder(m, iface, now, vs[k]);
  }

  method SweepPdAt(ghost ms: seq<AddrIA>, ghost k: nat, m: AddrIA, now: ulong, ghost vs: seq<IAView>)
    returns (out: bool)
    requires Shows(ms, vs) && NoDup(ms) && k < |ms| && ms[k] == m && vs[k].Sound()
    modifies m`AddrLst, m`PrefixLst
    ensures Shows(ms, vs[k := SweptBy(true, vs[k], now)])
    ensures out == RanOut(vs[k], true, now)
  {
    hide SweptPd, RanOut;
    assert m.View() == vs[k];
    out := SweepPd(m, now, vs[k]);
  }

  lemma {:induction false} SweptNext(vs: seq<IAView>, n: nat, pd: bool, now: ulong)
    requires n < |vs|
    ensures |SweptUpTo(vs, n, pd, now)| == |vs| && SweptUpTo(vs, n, pd, now)[n] == vs[n]
    ensures SweptUpTo(vs, n, pd, now)[n := SweptBy(pd, vs[n], now)] == SweptUpTo(vs, n + 1, pd, now)
    ensures DeadIn(vs, n + 1, now) == DeadIn(vs, n, now) + Dead(vs[n].addrs, now)
    ensures RanOutIds(vs, n + 1, pd, now) ==
            RanOutIds(vs, n, pd, now) + if RanOut(vs[n], pd, now) then {vs[n].iaid} else {}
  {
    hide RanOut, SweptBy, Dead;
  }

  lemma {:induction false} SweptNone(vs: seq<IAView>, pd: bool, now: ulong)
    ensures SweptUpTo(vs, 0, pd, now) == vs && DeadIn(vs, 0, now) == {} && RanOutIds(vs, 0, pd, now) == {}
  {
  }

  /** One turn of the IA and TA loops; `on` were the addresses on the interface before. */
  method SweepNextHolder(lst: Container<AddrIA>, iface: Iface, ids: set<nat>, now: ulong, ghost vs: seq<IAView>,
                         ghost on: set<Address>)
    returns (more: bool, out: set<nat>)
    requires lst.Positioned() && Shows(lst.lista, SweptUpTo(vs, lst.it, false, now)) && NoDup(lst.lista)
    requires forall v <- vs :: v.Sound()
    requires iface.addrs == on - DeadIn(vs, lst.it, now) && ids == RanOutIds(vs, lst.it, false, now)
    modifies lst`it, iface, Set(lst.lista)`AddrLst, Set(lst.lista)`PrefixLst
    ensures lst.Positioned() && Shows(lst.lista, SweptUpTo(vs, lst.it, false, now))
    ensures iface.addrs == on - DeadIn(vs, lst.it, now) && out == RanOutIds(vs, lst.it, false, now)
    ensures lst.it == if more then old(lst.it) + 1 else |lst.lista|
  {
    assert |lst.lista| == |vs|;
    hide RanOut, RanOutIds, SweptUpTo, SweptBy, DeadIn, Dead;
    more, out := true, ids;
    var r := lst.Get();
    if r.None? {
      return false, ids;
    }
    ghost var k := lst.it - 1;
    SweptNext(vs, k, false, now);
    var ended := SweepHolderAt(lst.lista, k, r.value, iface, now, SweptUpTo(vs, k, false, now));
    if ended {
      out := ids + {r.value.IAID};
    }
  }

  method SweepHolders(lst: Container<AddrIA>, iface: Iface, now: ulong, ghost vs: seq<IAView>) returns (ids: set<nat>)
    requires Shows(lst.lista, vs) && NoDup(lst.lista)
    requires forall v <- vs :: v.Sound()
    modifies lst`it, iface, Set(lst.lista)`AddrLst, Set(lst.lista)`PrefixLst
    ensures Shows(lst.lista, SweptAll(vs, false, now))
    ensures iface.addrs == old(iface.addrs) - DeadIn(vs, |vs|, now)
    ensures ids == RanOutIds(vs, |vs|, false, now)
  {
    lst.First();
    ids := {};
    SweptNone(vs, false, now);
    ghost var on := iface.addrs;
    var more := true;
    while more
      invariant lst.Positioned() && Shows(lst.lista, SweptUpTo(vs, lst.it, false, now))
      invariant iface.addrs == on - DeadIn(vs, lst.it, now) && ids == RanOutIds(vs, lst.it, false, now)
      invariant !more ==> lst.it == |lst.lista|
      decreases more, |lst.lista| - lst.it
    {
      hide *;
      more, ids := SweepNextHolder(lst, iface, ids, now, vs, on);
    }
  }

  /** One turn of the PD loop. */
  method SweepNextPd(lst: Container<AddrIA>, ids: set<nat>, now: ulong, ghost vs: seq<IAView>)
    returns (more: bool, out: set<nat>)
    requires lst.Positioned() && Shows(lst.lista, SweptUpTo(vs, lst.it, true, now)) && NoDup(lst.lista)
    requires (forall v <- vs :: v.Sound()) && ids == RanOutIds(vs, lst.it, true, now)
    modifies lst`it, Set(lst.lista)`AddrLst, Set(lst.lista)`PrefixLst
    ensures lst.Positioned() && Shows(lst.lista, SweptUpTo(vs, lst.it, true, now))
    ensures out == RanOutIds(vs, lst.it, true, now)
    ensures lst.it == if more then old(lst.it) + 1 else |lst.lista|
  {
    assert |lst.lista| == |vs|;
    hide RanOut, RanOutIds, SweptUpTo, SweptBy;
    more, out := true, ids;
    var r := lst.Get();
    if r.None? {
      return false, ids;
    }
    ghost var k := lst.it - 1;
    SweptNext(vs, k, true, now);
    var ended := SweepPdAt(lst.lista, k, r.value, now, SweptUpTo(vs, k, true, now));
    if ended {
      out := ids + {r.value.IAID};
    }
  }

  method SweepPds(lst: Container<AddrIA>, now: ulong, ghost vs: seq<IAView>) returns (ids: set<nat>)
    requires Shows(lst.lista, vs) && NoDup(lst.lista)
    requires forall v <- vs :: v.Sound()
    modifies lst`it, Set(lst.lista)`AddrLst, Set(lst.lista)`PrefixLst
    ensures Shows(lst.lista, SweptAll(vs, true, now))
    ensures ids == RanOutIds(vs, |vs|, true, now)
  {
    lst.First();
    ids := {};
    SweptNone(vs, true, now);
    var more := true;
    while more
      invariant lst.Positioned() && Shows(lst.lista, SweptUpTo(vs, lst.it, true, now))
      invariant ids == RanOutIds(vs, lst.it, true, now) && (!more ==> lst.it == |lst.lista|)
      decreases more, |lst.lista| - lst.it
    {
      hide *;
      more, ids := SweepNextPd(lst, ids, now, vs);
    }
  }

  // -- the whole pass -----------------------------------------------------------

  lemma {:induction false} AllValidMember(vs: seq<IAView>, k: nat, now: ulong)
    requires k < |vs| && MinTimer(AllValid(vs, now)) != 0
    ensures MinTimer(ValidOf(vs[k], now)) != 0
  {
    hide ValidOf;
    var n := |vs| - 1;
    MinTimerConcat(AllValid(vs[..n], now), ValidOf(vs[n], now));
    if k < n {
      AllValidMember(vs[..n], k, now);
    }
  }

  /** No timer of a list at 0: the sweep would change nothing there. */
  lemma {:induction false} QuietList(vs: seq<IAView>, pd: bool, now: ulong)
    requires MinTimer(AllValid(vs, now)) != 0
    ensures SweptAll(vs, pd, now) == vs && DeadIn(vs, |vs|, now) == {} && RanOutIds(vs, |vs|, pd, now) == {}
  {
    forall k | 0 <= k < |vs|
      ensures SweptBy(pd, vs[k], now) == vs[k] && Dead(vs[k].addrs, now) == {} && !RanOut(vs[k], pd, now)
    {
      AllValidMember(vs, k, now);
      NothingToSweep(vs[k], now);
    }
    hide RanOut, SweptBy, Dead;
  }

  /** The early return on a non-zero aggregate minimum never skips an expired lease. */
  lemma {:induction false} EarlyReturnSound(db: Db, now: ulong)
    requires MinTimer(AllValid(db.ias + db.tas + db.pds, now)) != 0
    ensures Expire(db, now) == db
  {
    MinOfThree(db.ias, db.tas, db.pds, now);
    QuietList(db.ias, false, now);
    QuietList(db.tas, false, now);
    QuietList(db.pds, true, now);
    hide SweptAll, DeadIn, RanOutIds;
  }

  method RemoveExpired(c: Client, now: ulong, ghost db: Db)
    requires c.Separated() && c.Is(db) && db.Sound()
    modifies c`cfgIA, c`cfgPD, c`cfgTA, {c.IAsLst, c.TALst, c.PDLst}`it, c.iface, c.Members()`AddrLst,
             c.Members()`PrefixLst
    ensures c.Is(Expire(db, now))
  {
    hide SweptAll, DeadIn, RanOutIds, AllValid, MinTimer, Shows, Db.Sound, Freed;
    SoundParts(db);
    var t := GetValidTimeout(c, now, db);
    if t != 0 {
      EarlyReturnSound(db, now);
      return;
    }
    SweepThree(c, now, db);
  }

  /** The three loops. */
  method SweepThree(c: Client, now: ulong, ghost db: Db)
    requires c.Separated() && c.Is(db)
    requires (forall v <- db.ias :: v.Sound()) && (forall v <- db.tas :: v.Sound()) && (forall v <- db.pds :: v.Sound())
    modifies c`cfgIA, c`cfgPD, c`cfgTA, {c.IAsLst, c.TALst, c.PDLst}`it, c.iface, c.Members()`AddrLst,
             c.Members()`PrefixLst
    ensures c.Is(Expire(db, now))
  {
    hide SweptAll, DeadIn, RanOutIds, Shows, Freed, IAView.Sound;
    var ias := SweepHolders(c.IAsLst, c.iface, now, db.ias);
    c.cfgIA := Freed(c.cfgIA, ias);
    var tas := SweepHolders(c.TALst, c.iface, now, db.tas);
    if tas != {} {
      c.cfgTA := NotConfigured;
    }
    var pds := SweepPds(c.PDLst, now, db.pds);
    c.cfgPD := Freed(c.cfgPD, pds);
  }

  // -- the database's own pass ----------------------------------------------------

  function Tidied(v: IAView, now: ulong): IAView {
    var left := Live(v.addrs, now);
    var idle := (v.state == Configured || v.state == ConfirmMe) && left == [];
    v.(addrs := left, state := if idle then NotConfigured else v.state)
  }

  function TidiedUpTo(vs: seq<IAView>, n: int, now: ulong): seq<IAView> {
    seq(|vs|, i requires 0 <= i < |vs| => if i < n then Tidied(vs[i], now) else vs[i])
  }

  /** The database after `TClntAddrMgr::doDuties`: the interface is not told. */
  function Tidy(db: Db, now: ulong): Db {
    db.(ias := TidiedUpTo(db.ias, |db.ias|, now))
  }

  method TidyMember(m: AddrIA, now: ulong, ghost v: IAView)
    requires m.View() == v && v.Sound()
    modifies m`AddrLst, m`State
    ensures m.View() == Tidied(v, now)
  {
    hide Live, Deleted;
    m.AddrLst := m.AddrLst.First();
    while true
      invariant m.AddrLst.Positioned() && UniqueAddrs(m.AddrLst.lista)
      invariant m.View() == v.(addrs := m.AddrLst.lista)
      invariant Live(m.AddrLst.lista, now) == Live(v.addrs, now)
      invariant forall i :: 0 <= i < m.AddrLst.it ==> !Expired(m.AddrLst.lista[i], now)
      decreases |m.AddrLst.lista|, |m.AddrLst.lista| - m.AddrLst.it
    {
      var r := m.AddrLst.Peek();
      m.AddrLst := m.AddrLst.Next();
      if r.None? {
        break;
      }
      if Expired(r.value, now) {
        DeadStep(m.AddrLst.lista, m.AddrLst.it - 1, now);
        var _ := m.DelAddr(r.value.addr);
      }
    }
    NothingExpired(m.AddrLst.lista, now);
    if (m.State == Configured || m.State == ConfirmMe) && |m.AddrLst.lista| == 0 {
      m.State := NotConfigured;
    }
  }

  method TidyMemberAt(ghost ms: seq<AddrIA>, ghost k: nat, m: AddrIA, now: ulong, ghost vs: seq<IAView>)
    requires Shows(ms, vs) && NoDup(ms) && k < |ms| && ms[k] == m && vs[k].Sound()
    modifies m`AddrLst, m`State
    ensures Shows(ms, vs[k := Tidied(vs[k], now)])
  {
    hide Tidied;
    assert m.View() == vs[k];
    TidyMember(m, now, vs[k]);
  }

  lemma {:induction false} TidiedNext(vs: seq<IAView>, n: nat, now: ulong)
    requires n < |vs|
    ensures |TidiedUpTo(vs, n, now)| == |vs| && TidiedUpTo(vs, n, now)[n] == vs[n]
    ensures TidiedUpTo(vs, n, now)[n := Tidied(vs[n], now)] == TidiedUpTo(vs, n + 1, now)
  {
    hide Tidied;
  }

  lemma {:induction false} TidiedNone(vs: seq<IAView>, now: ulong)
    ensures TidiedUpTo(vs, 0, now) == vs
  {
  }

  method AddrMgrDuties(c: Client, now: ulong, ghost db: Db)
    requires c.Separated() && c.Is(db) && db.Sound()
    modifies c.IAsLst`it, Set(c.IAsLst.lista)`AddrLst, Set(c.IAsLst.lista)`State
    ensures c.Is(Tidy(db, now))
  {
    hide TidiedUpTo, Tidied, Db.Sound;
    SoundParts(db);
    TidyList(c.IAsLst, now, db.ias);
  }

  method TidyNext(lst: Container<AddrIA>, now: ulong, ghost vs: seq<IAView>) returns (more: bool)
    requires lst.Positioned() && Shows(lst.lista, TidiedUpTo(vs, lst.it, now)) && NoDup(lst.lista)
    requires |lst.lista| == |vs| && forall v <- vs :: v.Sound()
    modifies lst`it, Set(lst.lista)`AddrLst, Set(lst.lista)`State
    ensures lst.Positioned() && Shows(lst.lista, TidiedUpTo(vs, lst.it, now))
    ensures lst.it == if more then old(lst.it) + 1 else |lst.lista|
  {
    hide TidiedUpTo, Tidied;
    var r := lst.Get();
    more := r.Some?;
    if more {
      ghost var k := lst.it - 1;
      TidiedNext(vs, k, now);
      TidyMemberAt(lst.lista, k, r.value, now, TidiedUpTo(vs, k, now));
    }
  }

  method TidyList(lst: Container<AddrIA>, now: ulong, ghost vs: seq<IAView>)
    requires Shows(lst.lista, vs) && NoDup(lst.lista)
    requires forall v <- vs :: v.Sound()
    modifies lst`it, Set(lst.lista)`AddrLst, Set(lst.lista)`State
    ensures Shows(lst.lista, TidiedUpTo(vs, |vs|, now))
  {
    lst.First();
    TidiedNone(vs, now);
    var more := true;
    while more
      invariant lst.Positioned() && Shows(lst.lista, TidiedUpTo(vs, lst.it, now))
      invariant !more ==> lst.it == |lst.lista|
      decreases more, |lst.lista| - lst.it
    {
      hide *;
      more := TidyNext(lst, now, vs);
    }
  }

  // -- what a pass amounts to -----------------------------------------------------

  lemma {:induction false} LiveTwice(s: seq<Lease>, now: ulong)
    ensures Live(Live(s, now), now) == Live(s, now)
  {
    LiveMeaning(s, now);
    NothingExpired(Live(s, now), now);
  }

  /** The deadline of the lease has come. */
  predicate PastDeadline(l: Lease, now: ulong) {
    l.timestamp + l.valid < ULONG && l.timestamp + l.valid <= now
  }

  lemma {:induction false} SweptMeaning(s: seq<Lease>, now: ulong)
    ensures Live(s, now) == Filter(s, (l: Lease) => !PastDeadline(l, now))
    ensures forall l :: l in Live(s, now) <==> l in s && !PastDeadline(l, now)
  {
    LiveMeaning(s, now);
    forall l: Lease
      ensures Expired(l, now) <==> PastDeadline(l, now)
    {
      TimeLeftMeaning(l.timestamp, l.valid, now);
    }
    FilterAgrees(s, IsLive(now), (l: Lease) => !PastDeadline(l, now));
  }

  /** The sweep is exact: in every IA, TA and PD precisely the leases whose deadline has
      not come stay, in order, and nothing else in the member changes. */
  lemma {:induction false} SweepExact(db: Db, now: ulong)
    ensures var e := Expire(db, now); var stays := (l: Lease) => !PastDeadline(l, now);
            && |e.ias| == |db.ias| && |e.tas| == |db.tas| && |e.pds| == |db.pds|
            && (forall i :: 0 <= i < |e.ias| ==> e.ias[i] == db.ias[i].(addrs := Filter(db.ias[i].addrs, stays)))
            && (forall i :: 0 <= i < |e.tas| ==> e.tas[i] == db.tas[i].(addrs := Filter(db.tas[i].addrs, stays)))
            && forall i :: 0 <= i < |e.pds| ==> e.pds[i] == db.pds[i].(prefixes := Filter(db.pds[i].prefixes, stays))
  {
    forall s
      ensures Live(s, now) == Filter(s, (l: Lease) => !PastDeadline(l, now))
    {
      SweptMeaning(s, now);
    }
    hide Filter, PastDeadline, Live;
  }

  /** After `removeExpired` the database's own pass deletes no address. */
  lemma {:induction false} TidyDeletesNothing(db: Db, now: ulong)
    ensures var e := Expire(db, now); var t := Tidy(e, now);
            |t.ias| == |e.ias| && forall i :: 0 <= i < |t.ias| ==> t.ias[i].addrs == e.ias[i].addrs
  {
    var e := Expire(db, now);
    forall i | 0 <= i < |e.ias|
      ensures Tidy(e, now).ias[i].addrs == e.ias[i].addrs
    {
      LiveTwice(db.ias[i].addrs, now);
    }
  }

  lemma {:induction false} RanOutMeaning(v: IAView, pd: bool, now: ulong)
    ensures RanOut(v, pd, now) <==>
            && (exists l :: l in v.addrs + v.prefixes && PastDeadline(l, now))
            && forall l :: l in (if pd then v.prefixes else v.addrs) ==> PastDeadline(l, now)
  {
    var ts := ValidOf(v, now);
    var all := v.addrs + v.prefixes;
    MinTimerZero(ts);
    assert |ts| == |all| && forall i :: 0 <= i < |all| ==> ts[i] == ValidLeft(all[i], now);
    forall l: Lease
      ensures ValidLeft(l, now) == 0 <==> PastDeadline(l, now)
    {
      TimeLeftMeaning(l.timestamp, l.valid, now);
    }
    var s := if pd then v.prefixes else v.addrs;
    SweptMeaning(s, now);
    hide PastDeadline, ValidOf, Live;
    if Live(s, now) != [] {
      assert Live(s, now)[0] in Live(s, now);
    }
    if 0 in ts {
      var i :| 0 <= i < |ts| && ts[i] == 0;
      assert all[i] in all && PastDeadline(all[i], now);
    }
    if l :| l in all && PastDeadline(l, now) {
      var i :| 0 <= i < |all| && all[i] == l;
      assert ts[i] == 0;
    }
  }

  /** The database's own pass: an IA keeps the addresses whose deadline has not come, and
      one in CONFIGURED or CONFIRMME that is left with none is to be configured again. */
  lemma {:induction false} TidyExactly(db: Db, now: ulong, i: nat)
    requires i < |db.ias|
    ensures var t := Tidy(db, now);
            && t == db.(ias := t.ias) && |t.ias| == |db.ias|
            && var v, w := db.ias[i], t.ias[i];
            && w == v.(addrs := Filter(v.addrs, (l: Lease) => !PastDeadline(l, now)), state := w.state)
            && w.state == if (v.state == Configured || v.state == ConfirmMe) &&
                             forall l <- v.addrs :: PastDeadline(l, now) then NotConfigured else v.state
  {
    var v := db.ias[i];
    SweptMeaning(v.addrs, now);
    hide PastDeadline;
    var left := Live(v.addrs, now);
    assert left != [] ==> left[0] in left;
    hide Live;
  }

  /** Some lease of the member has reached its deadline, and none of `kept` has not. */
  ghost predicate Bare(v: IAView, kept: seq<Lease>, now: ulong) {
    (exists l :: l in v.addrs + v.prefixes && PastDeadline(l, now)) && forall l <- kept :: PastDeadline(l, now)
  }

  lemma {:induction false} RanOutBare(now: ulong)
    ensures forall v :: RanOut(v, false, now) <==> Bare(v, v.addrs, now)
    ensures forall v :: RanOut(v, true, now) <==> Bare(v, v.prefixes, now)
  {
    forall v: IAView
      ensures RanOut(v, false, now) <==> Bare(v, v.addrs, now)
      ensures RanOut(v, true, now) <==> Bare(v, v.prefixes, now)
    {
      RanOutMeaning(v, false, now);
      RanOutMeaning(v, true, now);
      hide RanOut, PastDeadline;
    }
  }

  /** An IA_NA is handed back for configuration by the sweep exactly when a lease in it
      has reached its deadline and no address of it has not ... */
  lemma {:induction false} FreedExactly(db: Db, now: ulong, id: nat)
    ensures id in Expire(db, now).cfgIA <==> id in db.cfgIA
    ensures id in db.cfgIA ==>
              Expire(db, now).cfgIA[id] == (if exists v :: v in db.ias && v.iaid == id && Bare(v, v.addrs, now)
                                            then NotConfigured else db.cfgIA[id])
  {
    RanOutBare(now);
    hide RanOut, Bare;
    assert forall v :: v in db.ias ==> exists i :: 0 <= i < |db.ias| && db.ias[i] == v;
    assert id in RanOutIds(db.ias, |db.ias|, false, now) <==>
      exists v :: v in db.ias && v.iaid == id && RanOut(v, false, now);
  }

  /** ... and an IA_TA or IA_PD exactly when a lease in it has reached its deadline
      and no address, or no prefix, of it has not. */
  lemma {:induction false} FreedRestExactly(db: Db, now: ulong, id: nat)
    ensures var e := Expire(db, now);
            && e.cfgTA == (if exists v :: v in db.tas && Bare(v, v.addrs, now) then NotConfigured else db.cfgTA)
            && (id in e.cfgPD <==> id in db.cfgPD)
            && (id in db.cfgPD ==>
                  e.cfgPD[id] == (if exists v :: v in db.pds && v.iaid == id && Bare(v, v.prefixes, now)
                                  then NotConfigured else db.cfgPD[id]))
  {
    RanOutBare(now);
    hide RanOut, Bare;
    assert forall v :: v in db.tas ==> exists i :: 0 <= i < |db.tas| && db.tas[i] == v;
    assert forall v :: v in db.pds ==> exists i :: 0 <= i < |db.pds| && db.pds[i] == v;
    var tas := RanOutIds(db.tas, |db.tas|, false, now);
    if v :| v in db.tas && Bare(v, v.addrs, now) {
      assert v.iaid in tas;
    }
    assert id in RanOutIds(db.pds, |db.pds|, true, now) <==>
      exists v :: v in db.pds && v.iaid == id && RanOut(v, true, now);
  }
}
