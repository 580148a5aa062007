/** ClntTransMgr.cpp `checkConfirm`: the IAs that wait to be confirmed are found, marked
    and put into CONFIRMs. */
module Confirming {
  import opened Containers
  import opened AddressIA
  import opened LeaseDb
  import opened T = Transactions
  import opened TransactionManager
  import R = Retransmission

  predicate Waits(v: IAView, ifindex: nat) {
    v.state == ConfirmMe && v.ifindex == ifindex
  }

  function Waiter(v: IAView): seq<Stored> {
    if v.state == ConfirmMe then [Stored(v.iaid, v.ifindex)] else []
  }

  /** The IAs in CONFIRMME, in order. */
  function WaitingIn(vs: seq<IAView>): seq<Stored> {
    if vs == [] then [] else Waiter(vs[0]) + WaitingIn(vs[1..])
  }

  /** Those of one interface have been found and put in process. */
  function Found(vs: seq<IAView>, ifindex: nat): (r: seq<IAView>)
    ensures |r| == |vs|
  {
    seq(|vs|, (i: nat) requires i < |vs| =>
      if Waits(vs[i], ifindex) then vs[i].(state := EState.InProcess) else vs[i])
  }

  /** The database after `checkConfirm`. */
  function Questioned(db: Db, ifaces: seq<CfgIface>): Db
    decreases |ifaces|
  {
    if ifaces == [] then db else Questioned(QuestionedOn(db, ifaces[0]), ifaces[1..])
  }

  function QuestionedOn(db: Db, f: CfgIface): Db {
    if FirstIA(f.order).None? then db else db.(ias := Found(db.ias, f.ifindex))
  }

  lemma {:induction false} WaitingSnoc(vs: seq<IAView>, v: IAView)
    ensures WaitingIn(vs + [v]) == WaitingIn(vs) + Waiter(v)
  {
    hide Waiter;
    if vs == [] {
      assert [v][1..] == [] && vs + [v] == [v];
    } else {
      assert (vs + [v])[1..] == vs[1..] + [v];
      WaitingSnoc(vs[1..], v);
    }
  }

  lemma {:induction false} WaiterOn(v: IAView, ifindex: nat)
    ensures Filter(Waiter(v), IsOn(ifindex)) == if Waits(v, ifindex) then [Stored(v.iaid, ifindex)] else []
    ensures Filter(Waiter(v), IsOff(ifindex)) == if Waits(v, ifindex) then [] else Waiter(v)
  {
    assert Waiter(v) != [] ==> Waiter(v)[1..] == [];
  }

  /** What is found no longer waits; the others still do. */
  lemma {:induction false} WaitingLeft(vs: seq<IAView>, ifindex: nat)
    ensures WaitingIn(Found(vs, ifindex)) == Filter(WaitingIn(vs), IsOff(ifindex))
  {
    if vs != [] {
      WaitingLeft(vs[1..], ifindex);
      assert Found(vs, ifindex)[1..] == Found(vs[1..], ifindex);
      FilterSplit(Waiter(vs[0]), WaitingIn(vs[1..]), IsOff(ifindex));
      WaiterOn(vs[0], ifindex);
    }
  }

  /** A second look finds nothing. */
  lemma {:induction false} FoundAll(vs: seq<IAView>, ifindex: nat)
    ensures Filter(WaitingIn(Found(vs, ifindex)), IsOn(ifindex)) == []
    ensures Found(Found(vs, ifindex), ifindex) == Found(vs, ifindex)
  {
    WaitingLeft(vs, ifindex);
    var w := Filter(WaitingIn(vs), IsOff(ifindex));
    FilterIn(WaitingIn(vs), IsOff(ifindex));
    forall i | 0 <= i < |w|
      ensures !IsOn(ifindex)(w[i])
    {
      assert w[i] in w;
    }
    FilterNone(w, IsOn(ifindex));
  }

  // -- the code -----------------------------------------------------------------------------

  /** One IA of the database: is it waiting, and is it on the interface? */
  method TakeUp(ghost ms: seq<AddrIA>, ghost k: nat, m: AddrIA, ifindex: nat, ghost vs: seq<IAView>)
    returns (waits: bool)
    requires Shows(ms, vs) && NoDup(ms) && k < |ms| && ms[k] == m
    modifies m`State
    ensures waits == Waits(vs[k], ifindex) && m.IAID == vs[k].iaid
    ensures Shows(ms, if waits then vs[k := vs[k].(state := EState.InProcess)] else vs)
  {
    assert m.View() == vs[k];
    waits := false;
    if m.State != ConfirmMe {
      return;
    }
    if m.Ifindex == ifindex {
      m.State := EState.InProcess;
      waits := true;
    }
  }

  /** The scan has passed the first `n` IAs. */
  ghost predicate Scanned(vs: seq<IAView>, cur: seq<IAView>, lst: seq<Stored>, ifindex: nat, n: int) {
    && 0 <= n <= |vs| && cur == Found(vs[..n], ifindex) + vs[n..]
    && lst == Filter(WaitingIn(vs[..n]), IsOn(ifindex))
  }

  lemma {:induction false} FoundSnoc(vs: seq<IAView>, v: IAView, ifindex: nat)
    ensures Found(vs + [v], ifindex) ==
            Found(vs, ifindex) + [if Waits(v, ifindex) then v.(state := EState.InProcess) else v]
  {
  }

  lemma {:induction false} Shift<T>(front: seq<T>, s: seq<T>, n: nat, x: T)
    requires n < |s| && |front| == n
    ensures (front + s[n..])[n] == s[n]
    ensures (front + s[n..])[n := x] == (front + [x]) + s[n + 1..]
    ensures front + s[n..] == (front + [s[n]]) + s[n + 1..]
  {
  }

  lemma {:induction false} ScannedNext(vs: seq<IAView>, cur: seq<IAView>, lst: seq<Stored>, ifindex: nat, n: nat)
    requires Scanned(vs, cur, lst, ifindex, n) && n < |vs|
    ensures cur[n] == vs[n] && |cur| == |vs|
    ensures if Waits(vs[n], ifindex)
            then Scanned(vs, cur[n := vs[n].(state := EState.InProcess)], lst + [Stored(vs[n].iaid, ifindex)],
                         ifindex, n + 1)
            else Scanned(vs, cur, lst, ifindex, n + 1)
  {
    assert vs[..n + 1] == vs[..n] + [vs[n]];
    WaitingSnoc(vs[..n], vs[n]);
    FilterSplit(WaitingIn(vs[..n]), Waiter(vs[n]), IsOn(ifindex));
    WaiterOn(vs[n], ifindex);
    FoundSnoc(vs[..n], vs[n], ifindex);
    hide Filter, WaitingIn, Waiter, Found;
    Shift(Found(vs[..n], ifindex), vs, n, vs[n].(state := EState.InProcess));
  }

  /** One turn of the inner loop. */
  method Examine(IAsLst: Container<AddrIA>, ifindex: nat, lst: seq<Stored>, ghost vs: seq<IAView>,
                 ghost cur: seq<IAView>)
    returns (more: bool, found: seq<Stored>, ghost now: seq<IAView>)
    requires Shows(IAsLst.lista, cur) && NoDup(IAsLst.lista) && Scanned(vs, cur, lst, ifindex, IAsLst.it)
    modifies IAsLst`it, Set(IAsLst.lista)`State
    ensures Shows(IAsLst.lista, now) && Scanned(vs, now, found, ifindex, IAsLst.it)
    ensures IAsLst.it == if more then old(IAsLst.it) + 1 else |vs|
  {
    ghost var n := IAsLst.it;
    SameLength(IAsLst.lista, cur, vs, lst, ifindex, n);
    var r := IAsLst.Get();
    if r.None? {
      return false, lst, cur;
    }
    ScannedNext(vs, cur, lst, ifindex, n);
    hide Scanned, Shows;
    more, found, now := true, lst, cur;
    var waits := TakeUp(IAsLst.lista, n, r.value, ifindex, cur);
    if waits {
      found := lst + [Stored(r.value.IAID, ifindex)];
      now := cur[n := vs[n].(state := EState.InProcess)];
    }
  }

  /** The inner loop: every IA of the database that waits on the interface. */
  method Collect(IAsLst: Container<AddrIA>, ifindex: nat, ghost vs: seq<IAView>) returns (lst: seq<Stored>)
    requires Shows(IAsLst.lista, vs) && NoDup(IAsLst.lista)
    modifies IAsLst`it, Set(IAsLst.lista)`State
    ensures Shows(IAsLst.lista, Found(vs, ifindex))
    ensures lst == Filter(WaitingIn(vs), IsOn(ifindex))
  {
    lst := [];
    ghost var cur := vs;
    IAsLst.First();
    assert Scanned(vs, cur, lst, ifindex, 0);
    var more := true;
    while more
      invariant Shows(IAsLst.lista, cur) && Scanned(vs, cur, lst, ifindex, IAsLst.it)
      invariant !more ==> IAsLst.it == |vs|
      decreases more, |vs| - IAsLst.it
    {
      hide *;
      more, lst, cur := Examine(IAsLst, ifindex, lst, vs, cur);
    }
    ScannedEnds(vs, cur, lst, ifindex);
  }

  lemma {:induction false} SameLength(ms: seq<AddrIA>, cur: seq<IAView>, vs: seq<IAView>, lst: seq<Stored>,
                                      ifindex: nat, n: int)
    requires Shows(ms, cur) && Scanned(vs, cur, lst, ifindex, n)
    ensures |ms| == |cur| == |vs|
  {
  }

  lemma {:induction false} ScannedEnds(vs: seq<IAView>, cur: seq<IAView>, lst: seq<Stored>, ifindex: nat)
    requires Scanned(vs, cur, lst, ifindex, |vs|)
    ensures cur == Found(vs, ifindex) && lst == Filter(WaitingIn(vs), IsOn(ifindex))
  {
    assert vs[..|vs|] == vs && vs[|vs|..] == [];
  }

  lemma {:induction false} FirstSnoc(order: seq<Binding>, b: Binding)
    ensures FirstIA(order + [b]) ==
            if FirstIA(order).Some? then FirstIA(order) else if b.NA? then Some(b) else None
  {
    if order == [] {
      assert ([b])[1..] == [];
    } else {
      assert (order + [b])[1..] == order[1..] + [b];
      FirstSnoc(order[1..], b);
    }
  }

  /** The turn of one interface.  For every configured IA all IAs of the database are
      looked at, but after the first one nothing is left to find. */
  method ConfirmOn(mgr: TransMgr, c: Client, f: CfgIface, p: R.Poll, ghost db: Db)
    requires c.Separated() && c.Is(db)
    modifies mgr, c.IAsLst`it, Set(c.IAsLst.lista)`State
    ensures c.Is(QuestionedOn(db, f))
    ensures mgr.View() == T.ConfirmOn(old(mgr.View()), f, WaitingIn(db.ias), p)
  {
    var IALst: seq<Stored> := [];
    ghost var xs := Filter(WaitingIn(db.ias), IsOn(f.ifindex));
    FoundAll(db.ias, f.ifindex);
    hide Shows, Filter, WaitingIn, Found;
    assert f.order[..0] == [];
    for i := 0 to |f.order|
      invariant c.Separated() && mgr.View() == old(mgr.View()).(cfg := mgr.cfg)
      invariant mgr.Transactions == old(mgr.Transactions)
      invariant var first := FirstIA(f.order[..i]);
                if first.None? then IALst == [] && mgr.cfg == old(mgr.cfg) && c.Is(db)
                else && IALst == xs && c.Is(db.(ias := Found(db.ias, f.ifindex)))
                     && mgr.cfg == if xs == [] then old(mgr.cfg) else SetAll(old(mgr.cfg), [first.value], T.InProcess)
    {
      var b := f.order[i];
      assert f.order[..i + 1] == f.order[..i] + [b];
      FirstSnoc(f.order[..i], b);
      if b.NA? {
        ghost var vs := if FirstIA(f.order[..i]).None? then db.ias else Found(db.ias, f.ifindex);
        var lst := Collect(c.IAsLst, f.ifindex, vs);
        if lst != [] {
          IALst := IALst + lst;
          if b in mgr.cfg {
            mgr.cfg := mgr.cfg[b := T.InProcess];
          }
        }
      }
    }
    assert f.order[..|f.order|] == f.order;
    if IALst != [] {
      mgr.Transactions := mgr.Transactions.Append(NewConfirm(Names(IALst), p));
    }
  }

  /** `checkConfirm`. */
  method CheckConfirm(mgr: TransMgr, c: Client, ifaces: seq<CfgIface>, p: R.Poll, ghost db: Db)
    requires c.Separated() && c.Is(db)
    modifies mgr, c.IAsLst`it, Set(c.IAsLst.lista)`State
    ensures c.Is(Questioned(db, ifaces))
    ensures mgr.View() == T.CheckConfirm(old(mgr.View()), ifaces, WaitingIn(db.ias), p)
  {
    ghost var cur := db;
    hide Shows, QuestionedOn, T.ConfirmOn, WaitingIn, StillWaiting;
    for i := 0 to |ifaces|
      invariant c.Separated() && c.Is(cur) && Questioned(cur, ifaces[i..]) == Questioned(db, ifaces)
      invariant T.CheckConfirm(mgr.View(), ifaces[i..], WaitingIn(cur.ias), p) ==
                T.CheckConfirm(old(mgr.View()), ifaces, WaitingIn(db.ias), p)
    {
      assert ifaces[i..][0] == ifaces[i] && ifaces[i..][1..] == ifaces[i + 1..];
      WaitingOn(cur, ifaces[i]);
      ConfirmOn(mgr, c, ifaces[i], p, cur);
      cur := QuestionedOn(cur, ifaces[i]);
    }
    assert ifaces[|ifaces|..] == [];
  }

  lemma {:induction false} WaitingOn(db: Db, f: CfgIface)
    ensures WaitingIn(QuestionedOn(db, f).ias) == StillWaiting(f, WaitingIn(db.ias))
  {
    WaitingLeft(db.ias, f.ifindex);
  }

  /** The interface has an IA_NA in the configuration. */
  predicate LooksAt(ifaces: seq<CfgIface>, ifindex: nat) {
    exists f :: f in ifaces && f.ifindex == ifindex && exists b :: b in f.order && b.NA?
  }

  lemma {:induction false} FirstThere(order: seq<Binding>)
    ensures FirstIA(order).Some? <==> exists b :: b in order && b.NA?
  {
    if order != [] {
      FirstThere(order[1..]);
    }
  }

  /** In the database exactly the IAs in CONFIRMME on an interface with a configured IA_NA
      are put in process; nothing else in it changes. */
  lemma {:induction false} QuestionedExactly(db: Db, ifaces: seq<CfgIface>, i: nat)
    requires i < |db.ias|
    ensures var next := Questioned(db, ifaces); var v := db.ias[i];
            && next == db.(ias := next.ias) && |next.ias| == |db.ias|
            && next.ias[i] == v.(state := if v.state == ConfirmMe && LooksAt(ifaces, v.ifindex)
                                          then EState.InProcess else v.state)
    decreases |ifaces|
  {
    if ifaces != [] {
      FirstThere(ifaces[0].order);
      assert forall f :: f in ifaces <==> f == ifaces[0] || f in ifaces[1..];
      QuestionedExactly(QuestionedOn(db, ifaces[0]), ifaces[1..], i);
    }
  }
}
