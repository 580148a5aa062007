/** ClntTransMgr.cpp `populateAddrMgr` and `checkDB`: the database at the start has an IA for
    every configured IA_NA, unless the lease file stands in the way. */
module Startup {
  import opened Containers
  import opened Leases
  import opened AddressIA
  import opened LeaseDb
  import opened Replies
  import opened Shutdown
  import opened T = Transactions

  /** T1 and T2 of a configured IA_NA. */
  type Timers = nat -> (ulong, ulong)

  function NewIA(id: nat, ifindex: nat, timers: Timers, now: ulong): IAView {
    IAView(id, ifindex, [], [], timers(id).0, timers(id).1, EState.NotConfigured, Unknown, now, 0)
  }

  /** An IA for each configured one, unless there is one of that IAID already, whatever its
      interface. */
  function Populate(vs: seq<IAView>, order: seq<Binding>, ifindex: nat, timers: Timers, now: ulong): seq<IAView>
    decreases |order|
  {
    if order == [] then vs
    else
      var ws := if order[0].NA? && IndexOfId(vs, order[0].iaid) == |vs|
                then vs + [NewIA(order[0].iaid, ifindex, timers, now)] else vs;
      Populate(ws, order[1..], ifindex, timers, now)
  }

  function PopulateAll(vs: seq<IAView>, ifaces: seq<CfgIface>, timers: Timers, now: ulong): seq<IAView>
    decreases |ifaces|
  {
    if ifaces == [] then vs
    else PopulateAll(Populate(vs, ifaces[0].order, ifaces[0].ifindex, timers, now), ifaces[1..], timers, now)
  }

  predicate OnSome(ifaces: seq<CfgIface>, ifindex: nat) {
    exists i :: 0 <= i < |ifaces| && ifaces[i].ifindex == ifindex
  }

  function Settled(ifaces: seq<CfgIface>): IAView -> bool {
    (v: IAView) => OnSome(ifaces, v.ifindex)
  }

  /** The database before the first pass. */
  function Begun(loaded: seq<IAView>, ifaces: seq<CfgIface>, timers: Timers, now: ulong): seq<IAView> {
    Filter(PopulateAll(loaded, ifaces, timers, now), Settled(ifaces))
  }

  // -- the code -----------------------------------------------------------------------------

  /** `populateAddrMgr`, as far as it concerns IA_NAs. */
  method PopulateAddrMgr(mgr: AddrMgr, f: CfgIface, timers: Timers, now: ulong)
    modifies mgr
    ensures mgr.IAsLst.lista == Populate(old(mgr.IAsLst.lista), f.order, f.ifindex, timers, now)
  {
    for i := 0 to |f.order|
      invariant Populate(mgr.IAsLst.lista, f.order[i..], f.ifindex, timers, now) ==
                Populate(old(mgr.IAsLst.lista), f.order, f.ifindex, timers, now)
    {
      assert f.order[i..][0] == f.order[i] && f.order[i..][1..] == f.order[i + 1..];
      if f.order[i].NA? {
        var known := HasIA(mgr, f.order[i].iaid);
        if !known {
          mgr.IAsLst := mgr.IAsLst.Append(NewIA(f.order[i].iaid, f.ifindex, timers, now));
        }
      }
    }
    assert f.order[|f.order|..] == [];
  }

  method HasIA(mgr: AddrMgr, iaid: nat) returns (known: bool)
    modifies mgr
    ensures mgr.IAsLst.lista == old(mgr.IAsLst.lista)
    ensures known <==> IndexOfId(mgr.IAsLst.lista, iaid) < |mgr.IAsLst.lista|
  {
    mgr.IAsLst := mgr.IAsLst.First();
    while mgr.IAsLst.Peek().Some?
      invariant mgr.IAsLst.Positioned() && mgr.IAsLst.lista == old(mgr.IAsLst.lista)
      invariant forall i :: 0 <= i < mgr.IAsLst.it ==> mgr.IAsLst.lista[i].iaid != iaid
      decreases |mgr.IAsLst.lista| - mgr.IAsLst.it
    {
      var ptr := mgr.IAsLst.Peek().value;
      mgr.IAsLst := mgr.IAsLst.Next();
      if ptr.iaid == iaid {
        return true;
      }
    }
    known := false;
  }

  method IsConfigured(ifaces: seq<CfgIface>, ifindex: nat) returns (found: bool)
    ensures found <==> OnSome(ifaces, ifindex)
  {
    for i := 0 to |ifaces|
      invariant forall j :: 0 <= j < i ==> ifaces[j].ifindex != ifindex
    {
      if ifaces[i].ifindex == ifindex {
        return true;
      }
    }
    found := false;
  }

  /** The loop of `checkDB`: each deletion rewinds the cursor it runs on. */
  method CheckDB(mgr: AddrMgr, ifaces: seq<CfgIface>)
    requires UniqueIds(mgr.IAsLst.lista)
    modifies mgr
    ensures mgr.IAsLst.lista == Filter(old(mgr.IAsLst.lista), Settled(ifaces)) && UniqueIds(mgr.IAsLst.lista)
  {
    var keep := Settled(ifaces);
    assert Dropping(mgr.IAsLst.lista, mgr.IAsLst.lista, 0, keep);
    hide Dropping, UniqueIds, Without, OnSome;
    mgr.IAsLst := mgr.IAsLst.First();
    while true
      invariant mgr.IAsLst.Positioned() && UniqueIds(mgr.IAsLst.lista)
      invariant Dropping(old(mgr.IAsLst.lista), mgr.IAsLst.lista, mgr.IAsLst.it, keep)
      decreases |mgr.IAsLst.lista|, |mgr.IAsLst.lista| - mgr.IAsLst.it
    {
      var r := mgr.IAsLst.Peek();
      if r.None? {
        break;
      }
      DropNext(old(mgr.IAsLst.lista), mgr.IAsLst.lista, mgr.IAsLst.it, keep);
      mgr.IAsLst := mgr.IAsLst.Next();
      var known := IsConfigured(ifaces, r.value.ifindex);
      if !known {
        Shutdown.Take(mgr, mgr.IAsLst.it - 1, r.value.iaid);
      }
    }
    DropEnds(old(mgr.IAsLst.lista), mgr.IAsLst.lista, keep);
  }

  /** The part of the constructor that sets up the database. */
  method Begin(mgr: AddrMgr, ifaces: seq<CfgIface>, timers: Timers, now: ulong)
    requires UniqueIds(mgr.IAsLst.lista)
    modifies mgr
    ensures mgr.IAsLst.lista == Begun(old(mgr.IAsLst.lista), ifaces, timers, now) && UniqueIds(mgr.IAsLst.lista)
  {
    hide UniqueIds, Populate, Filter;
    for i := 0 to |ifaces|
      invariant UniqueIds(mgr.IAsLst.lista)
      invariant PopulateAll(mgr.IAsLst.lista, ifaces[i..], timers, now) ==
                PopulateAll(old(mgr.IAsLst.lista), ifaces, timers, now)
    {
      assert ifaces[i..][0] == ifaces[i] && ifaces[i..][1..] == ifaces[i + 1..];
      PopulateUnique(mgr.IAsLst.lista, ifaces[i].order, ifaces[i].ifindex, timers, now);
      PopulateAddrMgr(mgr, ifaces[i], timers, now);
    }
    assert ifaces[|ifaces|..] == [];
    CheckDB(mgr, ifaces);
  }

  lemma {:induction false} PopulateUnique(vs: seq<IAView>, order: seq<Binding>, ifindex: nat, timers: Timers,
                                          now: ulong)
    requires UniqueIds(vs)
    ensures UniqueIds(Populate(vs, order, ifindex, timers, now))
    decreases |order|
  {
    if order != [] {
      var ws := if order[0].NA? && IndexOfId(vs, order[0].iaid) == |vs|
                then vs + [NewIA(order[0].iaid, ifindex, timers, now)] else vs;
      PopulateUnique(ws, order[1..], ifindex, timers, now);
    }
  }

  // -- what it has then -------------------------------------------------------------------------

  predicate HasId(vs: seq<IAView>, id: nat) {
    exists i :: 0 <= i < |vs| && vs[i].iaid == id
  }

  /** The lease file has that IAID on an interface that is not configured. */
  predicate Strayed(vs: seq<IAView>, ifaces: seq<CfgIface>, id: nat) {
    exists i :: 0 <= i < |vs| && vs[i].iaid == id && !OnSome(ifaces, vs[i].ifindex)
  }

  lemma {:induction false} HasIdAppend(vs: seq<IAView>, v: IAView, id: nat)
    ensures HasId(vs + [v], id) <==> HasId(vs, id) || v.iaid == id
  {
    if i :| 0 <= i < |vs| && vs[i].iaid == id {
      assert (vs + [v])[i].iaid == id;
    }
    assert (vs + [v])[|vs|] == v;
  }

  lemma {:induction false} StrayedAppend(vs: seq<IAView>, v: IAView, ifaces: seq<CfgIface>, id: nat)
    ensures Strayed(vs + [v], ifaces, id) <==> Strayed(vs, ifaces, id) || (v.iaid == id && !OnSome(ifaces, v.ifindex))
  {
    hide OnSome;
    if i :| 0 <= i < |vs| && vs[i].iaid == id && !OnSome(ifaces, vs[i].ifindex) {
      assert (vs + [v])[i] == vs[i];
    }
    assert (vs + [v])[|vs|] == v;
  }

  lemma {:induction false} PopulateHas(vs: seq<IAView>, order: seq<Binding>, ifindex: nat, timers: Timers, now: ulong,
                                       ifaces: seq<CfgIface>, id: nat)
    requires OnSome(ifaces, ifindex)
    ensures var ws := Populate(vs, order, ifindex, timers, now);
            && (HasId(ws, id) <==> HasId(vs, id) || NA(id) in order)
            && (Strayed(ws, ifaces, id) <==> Strayed(vs, ifaces, id))
    decreases |order|
  {
    if order != [] {
      var b := order[0];
      if b.NA? && IndexOfId(vs, b.iaid) == |vs| {
        var v := NewIA(b.iaid, ifindex, timers, now);
        HasIdAppend(vs, v, id);
        StrayedAppend(vs, v, ifaces, id);
        hide OnSome, Strayed, HasId;
        PopulateHas(vs + [v], order[1..], ifindex, timers, now, ifaces, id);
      } else {
        assert b == NA(id) ==> HasId(vs, id);
        hide OnSome, Strayed, HasId;
        PopulateHas(vs, order[1..], ifindex, timers, now, ifaces, id);
      }
    }
  }

  lemma {:induction false} PopulateAllHas(vs: seq<IAView>, some: seq<CfgIface>, timers: Timers, now: ulong,
                                          ifaces: seq<CfgIface>, id: nat)
    requires UniqueIds(vs) && forall f <- some :: f in ifaces
    ensures var ws := PopulateAll(vs, some, timers, now);
            && UniqueIds(ws)
            && (HasId(ws, id) <==> HasId(vs, id) || exists f :: f in some && NA(id) in f.order)
            && (Strayed(ws, ifaces, id) <==> Strayed(vs, ifaces, id))
    decreases |some|
  {
    if some != [] {
      var f := some[0];
      assert f in some && f in ifaces;
      var j :| 0 <= j < |ifaces| && ifaces[j] == f;
      PopulateUnique(vs, f.order, f.ifindex, timers, now);
      PopulateHas(vs, f.order, f.ifindex, timers, now, ifaces, id);
      hide OnSome, Strayed, HasId, UniqueIds, Populate;
      PopulateAllHas(Populate(vs, f.order, f.ifindex, timers, now), some[1..], timers, now, ifaces, id);
      assert forall g :: g in some <==> g == f || g in some[1..];
    }
  }

  /** The database begins with the IA of a configured IA_NA exactly if the lease file does
      not have that IAID on an interface that is no longer configured (its index may have
      changed): such an IA keeps `populateAddrMgr` from making one, and then `checkDB`
      deletes it. */
  lemma {:induction false} BeginsExactly(loaded: seq<IAView>, ifaces: seq<CfgIface>, timers: Timers, now: ulong,
                                         id: nat)
    requires UniqueIds(loaded) && exists f :: f in ifaces && NA(id) in f.order
    ensures IndexOfId(Begun(loaded, ifaces, timers, now), id) < |Begun(loaded, ifaces, timers, now)| <==>
            !Strayed(loaded, ifaces, id)
  {
    var ws := PopulateAll(loaded, ifaces, timers, now);
    var end := Begun(loaded, ifaces, timers, now);
    PopulateAllHas(loaded, ifaces, timers, now, ifaces, id);
    FilterIn(ws, Settled(ifaces));
    hide PopulateAll, OnSome;
    var i :| 0 <= i < |ws| && ws[i].iaid == id;
    if OnSome(ifaces, ws[i].ifindex) {
      assert ws[i] in end;
    }
    var k := IndexOfId(end, id);
    if k < |end| {
      assert end[k] in end && end[k] in ws;
    }
  }

  /** Nothing leased yet, on that interface, waiting to be configured. */
  predicate Blank(v: IAView, ifindex: nat, timers: Timers, now: ulong) {
    v == IAView(v.iaid, ifindex, [], [], timers(v.iaid).0, timers(v.iaid).1, EState.NotConfigured, Unknown, now, 0)
  }

  lemma {:induction false} PopulateExactly(vs: seq<IAView>, order: seq<Binding>, ifindex: nat, timers: Timers,
                                           now: ulong, v: IAView)
    ensures v in Populate(vs, order, ifindex, timers, now) <==>
            v in vs || (!HasId(vs, v.iaid) && NA(v.iaid) in order && Blank(v, ifindex, timers, now))
    decreases |order|
  {
    if order != [] {
      var id := order[0].iaid;
      if order[0].NA? && IndexOfId(vs, id) == |vs| {
        HasIdAppend(vs, NewIA(id, ifindex, timers, now), v.iaid);
        assert v in vs ==> HasId(vs, v.iaid);
        hide HasId;
        PopulateExactly(vs + [NewIA(id, ifindex, timers, now)], order[1..], ifindex, timers, now, v);
      } else {
        assert order[0] == NA(v.iaid) ==> HasId(vs, v.iaid);
        hide HasId;
        PopulateExactly(vs, order[1..], ifindex, timers, now, v);
      }
    }
  }

  /** The first interface whose configuration has the IA_NA. */
  predicate FirstWith(ifaces: seq<CfgIface>, id: nat, k: int) {
    0 <= k < |ifaces| && NA(id) in ifaces[k].order && forall j :: 0 <= j < k ==> NA(id) !in ifaces[j].order
  }

  lemma {:induction false} PopulateAllExactly(vs: seq<IAView>, ifaces: seq<CfgIface>, timers: Timers, now: ulong,
                                              v: IAView)
    ensures v in PopulateAll(vs, ifaces, timers, now) <==>
            || v in vs
            || (!HasId(vs, v.iaid) &&
                exists k :: FirstWith(ifaces, v.iaid, k) && Blank(v, ifaces[k].ifindex, timers, now))
    decreases |ifaces|
  {
    if ifaces != [] {
      var f := ifaces[0];
      PopulateExactly(vs, f.order, f.ifindex, timers, now, v);
      assert OnSome([f], f.ifindex) by { assert [f][0] == f; }
      PopulateHas(vs, f.order, f.ifindex, timers, now, [f], v.iaid);
      assert v in vs ==> HasId(vs, v.iaid);
      hide HasId, Blank, Populate;
      PopulateAllExactly(Populate(vs, f.order, f.ifindex, timers, now), ifaces[1..], timers, now, v);
      if NA(v.iaid) in f.order {
        assert FirstWith(ifaces, v.iaid, 0) && forall k :: FirstWith(ifaces, v.iaid, k) ==> k == 0;
      } else {
        forall k
          ensures FirstWith(ifaces, v.iaid, k + 1) <==> FirstWith(ifaces[1..], v.iaid, k)
        {
          assert forall j :: 0 < j < |ifaces| ==> ifaces[j] == ifaces[1..][j - 1];
        }
        if k :| FirstWith(ifaces, v.iaid, k) && Blank(v, ifaces[k].ifindex, timers, now) {
          assert k > 0 && FirstWith(ifaces[1..], v.iaid, k - 1);
        }
        if k :| FirstWith(ifaces[1..], v.iaid, k) && Blank(v, ifaces[1..][k].ifindex, timers, now) {
          assert FirstWith(ifaces, v.iaid, k + 1);
        }
      }
    }
  }

  /** The database begins with the IAs of the lease file that are on a configured interface,
      and with a blank IA, on the first interface that has it, for each configured IA_NA
      whose IAID is not in the lease file; with no other. */
  lemma {:induction false} BegunExactly(loaded: seq<IAView>, ifaces: seq<CfgIface>, timers: Timers, now: ulong,
                                        v: IAView)
    ensures v in Begun(loaded, ifaces, timers, now) <==>
            || (v in loaded && OnSome(ifaces, v.ifindex))
            || (!HasId(loaded, v.iaid) &&
                exists k :: FirstWith(ifaces, v.iaid, k) && Blank(v, ifaces[k].ifindex, timers, now))
  {
    PopulateAllExactly(loaded, ifaces, timers, now, v);
    FilterIn(PopulateAll(loaded, ifaces, timers, now), Settled(ifaces));
    hide PopulateAll, HasId;
    if k :| FirstWith(ifaces, v.iaid, k) && Blank(v, ifaces[k].ifindex, timers, now) {
      assert OnSome(ifaces, v.ifindex);
    }
  }
}
