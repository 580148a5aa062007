/** What the store of delegated prefixes answers after each operation, looked up by client
    and PD as the client looks it up. */
module Prefixes {
  import opened Containers
  import opened Leases
  import opened AddressIA
  import opened LeaseDb
  import opened Expiry
  import opened PrefixDb
  import opened Replies

  /** The client of that DUID. */
  function ClientOf(cs: seq<ClientRec>, duid: nat): Option<ClientRec> {
    var c := ClientIndex(cs, duid);
    if c == |cs| then None else Some(cs[c])
  }

  function Pick(pds: seq<IAView>, iaid: nat): Option<IAView> {
    var k := IndexOfId(pds, iaid);
    if k == |pds| then None else Some(pds[k])
  }

  /** The PD of that client and IAID. */
  function PdOf(cs: seq<ClientRec>, duid: nat, iaid: nat): Option<IAView> {
    var c := ClientOf(cs, duid);
    if c.None? then None else Pick(c.value.pds, iaid)
  }

  /** The client's IA_NAs and IA_TAs. */
  function RestOf(cs: seq<ClientRec>, duid: nat): (seq<IAView>, seq<IAView>) {
    var c := ClientOf(cs, duid);
    if c.None? then ([], []) else (c.value.ias, c.value.tas)
  }

  // -- looking up in a changed list ------------------------------------------------------------

  lemma {:induction false} PickSet(pds: seq<IAView>, k: nat, pd: IAView, id: nat)
    requires k < |pds| && IndexOfId(pds, pd.iaid) == k
    ensures Pick(pds[k := pd], id) == if id == pd.iaid then Some(pd) else Pick(pds, id)
  {
    hide IndexOfId;
    var s := pds[k := pd];
    assert pds[k].iaid == pd.iaid && |s| == |pds| && forall i :: 0 <= i < |s| ==> s[i].iaid == pds[i].iaid;
    assert IndexOfId(s, id) == IndexOfId(pds, id);
  }

  lemma {:induction false} PickAppend(pds: seq<IAView>, pd: IAView, id: nat)
    requires IndexOfId(pds, pd.iaid) == |pds|
    ensures Pick(pds + [pd], id) == if id == pd.iaid then Some(pd) else Pick(pds, id)
  {
    hide IndexOfId;
    var s, k := pds + [pd], IndexOfId(pds, id);
    assert s[|pds|] == pd && forall i :: 0 <= i < |pds| ==> s[i] == pds[i];
    if k < |pds| || id == pd.iaid {
      IdAt(s, k, id);
    }
  }

  lemma {:induction false} PickWithout(pds: seq<IAView>, k: nat, id: nat)
    requires k < |pds| && UniqueIds(pds)
    ensures Pick(Without(pds, k), id) == if id == pds[k].iaid then None else Pick(pds, id)
  {
    hide IndexOfId;
    var s, j := Without(pds, k), IndexOfId(pds, id);
    assert forall i :: 0 <= i < |s| ==> s[i] == pds[if i < k then i else i + 1];
    if j < |pds| && j != k {
      IdAt(s, if j < k then j else j - 1, id);
    }
  }

  lemma {:induction false} ClientSet(cs: seq<ClientRec>, c: nat, rec: ClientRec, duid: nat)
    requires c < |cs| && ClientIndex(cs, rec.duid) == c
    ensures ClientOf(cs[c := rec], duid) == if duid == rec.duid then Some(rec) else ClientOf(cs, duid)
  {
    hide ClientIndex;
    var s := cs[c := rec];
    assert cs[c].duid == rec.duid && |s| == |cs| && forall i :: 0 <= i < |s| ==> s[i].duid == cs[i].duid;
    assert ClientIndex(s, duid) == ClientIndex(cs, duid);
  }

  lemma {:induction false} ClientAppend(cs: seq<ClientRec>, rec: ClientRec, duid: nat)
    requires ClientIndex(cs, rec.duid) == |cs|
    ensures ClientOf(cs + [rec], duid) == if duid == rec.duid then Some(rec) else ClientOf(cs, duid)
  {
    hide ClientIndex;
    var s, k := cs + [rec], ClientIndex(cs, duid);
    assert s[|cs|] == rec && forall i :: 0 <= i < |cs| ==> s[i] == cs[i];
    if k < |cs| || duid == rec.duid {
      ClientAt(s, k, duid);
    }
  }

  lemma {:induction false} ClientWithout(cs: seq<ClientRec>, c: nat, duid: nat)
    requires c < |cs| && forall i, j :: 0 <= i < j < |cs| ==> cs[i].duid != cs[j].duid
    ensures ClientOf(Without(cs, c), duid) == if duid == cs[c].duid then None else ClientOf(cs, duid)
  {
    hide ClientIndex;
    var s, k := Without(cs, c), ClientIndex(cs, duid);
    assert forall i :: 0 <= i < |s| ==> s[i] == cs[if i < c then i else i + 1];
    if k < |cs| && k != c {
      ClientAt(s, if k < c then k else k - 1, duid);
    }
  }

  // -- adding ------------------------------------------------------------------------------------

  /** The PD that a prefix is to be added to: the one there is, or an empty one on the
      interface asked for, configured now. */
  function Base(was: Option<IAView>, t: Target, now: ulong): IAView {
    if was.Some? then was.value
    else IAView(t.iaid, t.ifindex, [], [], t.t1, t.t2, Configured, Unknown, now, t.duid)
  }

  /** A prefix is added exactly if the PD does not list it.  T1 and T2 are set in any case,
      the server only with a prefix; the PD keeps all it has, and the new prefix is last ... */
  lemma {:induction false} AddExactly(cs: seq<ClientRec>, t: Target, l: Lease, now: ulong)
    ensures var (ok, cs') := Add(cs, t, l, now);
            var base := Base(PdOf(cs, t.duid, t.iaid), t, now);
            && (ok <==> l.addr !in Addrs(base.prefixes))
            && PdOf(cs', t.duid, t.iaid) == Some(base.(t1 := t.t1, t2 := t.t2,
                 prefixes := base.prefixes + (if ok then [l] else []), duid := if ok then t.duid else base.duid))
  {
    var c := ClientIndex(cs, t.duid);
    var was := if c == |cs| then EmptyClient(t.duid) else cs[c];
    var k := IndexOfId(was.pds, t.iaid);
    var pd := if k == |was.pds| then NewPd(t, now) else was.pds[k];
    var (ok, pd') := AddToPd(pd, t, l);
    HeldInList(pd.prefixes, l.addr);
    hide ClientIndex, IndexOfId, Holds;
    var rec := AddToClient(was, t, l, now).1;
    if k == |was.pds| {
      PickAppend(was.pds, pd', t.iaid);
    } else {
      PickSet(was.pds, k, pd', t.iaid);
    }
    if c == |cs| {
      ClientAppend(cs, rec, t.duid);
    } else {
      ClientSet(cs, c, rec, t.duid);
    }
    assert pd.prefixes + [] == pd.prefixes;
  }

  lemma {:induction false} HeldInList(s: seq<Lease>, a: Address)
    ensures Holds(s, a) <==> a in Addrs(s)
  {
    var k := IndexOf(s, a);
    if k < |s| {
      assert s[k] in s;
    }
  }

  /** ... and no other PD, IA_NA or IA_TA of any client changes. */
  lemma {:induction false} AddElsewhere(cs: seq<ClientRec>, t: Target, l: Lease, now: ulong, duid: nat, iaid: nat)
    ensures var cs' := Add(cs, t, l, now).1;
            && ((duid, iaid) != (t.duid, t.iaid) ==> PdOf(cs', duid, iaid) == PdOf(cs, duid, iaid))
            && RestOf(cs', duid) == RestOf(cs, duid)
  {
    var c := ClientIndex(cs, t.duid);
    var was := if c == |cs| then EmptyClient(t.duid) else cs[c];
    var k := IndexOfId(was.pds, t.iaid);
    var pd' := AddToPd(if k == |was.pds| then NewPd(t, now) else was.pds[k], t, l).1;
    hide ClientIndex, AddToPd;
    var rec := AddToClient(was, t, l, now).1;
    assert pd'.iaid == t.iaid by {
      AddKeepsId(if k == |was.pds| then NewPd(t, now) else was.pds[k], t, l);
    }
    if k == |was.pds| {
      PickAppend(was.pds, pd', iaid);
    } else {
      PickSet(was.pds, k, pd', iaid);
    }
    if c == |cs| {
      ClientAppend(cs, rec, duid);
    } else {
      ClientSet(cs, c, rec, duid);
    }
  }

  lemma {:induction false} AddKeepsId(pd: IAView, t: Target, l: Lease)
    ensures AddToPd(pd, t, l).1.iaid == pd.iaid
  {
  }

  // -- updating ----------------------------------------------------------------------------------

  /** The PD after an update: restarted, and with these lifetimes for this prefix. */
  ghost predicate Updates(pd: IAView, pd': IAView, t: Target, l: Lease, now: ulong) {
    && pd' == pd.(t1 := t.t1, t2 := t.t2, timestamp := now, prefixes := pd'.prefixes)
    && |pd'.prefixes| == |pd.prefixes|
    && forall i :: 0 <= i < |pd.prefixes| ==>
         var p, p' := pd.prefixes[i], pd'.prefixes[i];
         if p.addr == l.addr then
           p'.addr == p.addr && p'.length == p.length && p'.tentative == p.tentative
           && p'.pref == l.pref && p'.valid == l.valid && p'.timestamp == now
         else p' == p
  }

  lemma {:induction false} UpdatesMember(pd: IAView, t: Target, l: Lease, now: ulong)
    requires UniqueAddrs(pd.prefixes)
    ensures var j := IndexOf(pd.prefixes, l.addr);
            var r := pd.(timestamp := now, t1 := t.t1, t2 := t.t2);
            Updates(pd, if j == |pd.prefixes| then r
                        else r.(prefixes := pd.prefixes[j :=
                               pd.prefixes[j].(timestamp := now, pref := l.pref, valid := l.valid)]), t, l, now)
  {
    hide IndexOf;
  }

  /** A prefix is updated exactly if client, PD and prefix are known.  A known PD begins anew
      with the timers even when the prefix is not known; an unknown one stays unknown ... */
  lemma {:induction false} UpdateExactly(cs: seq<ClientRec>, t: Target, l: Lease, now: ulong)
    requires Good(cs)
    ensures var (ok, cs') := Update(cs, t, l, now);
            var was, end := PdOf(cs, t.duid, t.iaid), PdOf(cs', t.duid, t.iaid);
            && (ok <==> was.Some? && l.addr in Addrs(was.value.prefixes))
            && (was.None? ==> cs' == cs)
            && (was.Some? ==> end.Some? && Updates(was.value, end.value, t, l, now))
  {
    var c := ClientIndex(cs, t.duid);
    if c < |cs| {
      var k := IndexOfId(cs[c].pds, t.iaid);
      if k < |cs[c].pds| {
        var pd := cs[c].pds[k];
        var j := IndexOf(pd.prefixes, l.addr);
        assert GoodClient(cs[c]) && GoodPd(pd);
        HeldInList(pd.prefixes, l.addr);
        UpdatesMember(pd, t, l, now);
        var rec := Update(cs, t, l, now).1[c];
        hide Updates, IndexOf, IndexOfId, ClientIndex;
        PickSet(cs[c].pds, k, rec.pds[k], t.iaid);
        assert rec.pds == cs[c].pds[k := rec.pds[k]];
        ClientSet(cs, c, rec, t.duid);
      }
    }
  }

  /** ... so an updated prefix runs out when its new valid lifetime, counted from now, has
      passed, and none before its own time. */
  lemma {:induction false} UpdateRestarts(cs: seq<ClientRec>, t: Target, l: Lease, now: ulong, i: nat, time: ulong)
    requires Good(cs) && PdOf(cs, t.duid, t.iaid).Some? && now + l.valid < ULONG
    requires i < |PdOf(cs, t.duid, t.iaid).value.prefixes|
    ensures var cs' := Update(cs, t, l, now).1;
            var p := PdOf(cs, t.duid, t.iaid).value.prefixes[i];
            && PdOf(cs', t.duid, t.iaid).Some? && i < |PdOf(cs', t.duid, t.iaid).value.prefixes|
            && (Expired(PdOf(cs', t.duid, t.iaid).value.prefixes[i], time) <==>
                 if p.addr == l.addr then now + l.valid <= time else Expired(p, time))
  {
    UpdateExactly(cs, t, l, now);
    hide PdOf, Good, Update;
    TimeLeftMeaning(now, l.valid, time);
  }

  /** No other PD, IA_NA or IA_TA changes. */
  lemma {:induction false} UpdateElsewhere(cs: seq<ClientRec>, t: Target, l: Lease, now: ulong, duid: nat, iaid: nat)
    ensures var cs' := Update(cs, t, l, now).1;
            && ((duid, iaid) != (t.duid, t.iaid) ==> PdOf(cs', duid, iaid) == PdOf(cs, duid, iaid))
            && RestOf(cs', duid) == RestOf(cs, duid)
  {
    var c := ClientIndex(cs, t.duid);
    if c < |cs| {
      var k := IndexOfId(cs[c].pds, t.iaid);
      if k < |cs[c].pds| {
        var rec := Update(cs, t, l, now).1[c];
        hide IndexOf, ClientIndex;
        PickSet(cs[c].pds, k, rec.pds[k], iaid);
        assert rec.pds == cs[c].pds[k := rec.pds[k]];
        ClientSet(cs, c, rec, duid);
      }
    }
  }

  // -- deleting ------------------------------------------------------------------------------------

  /** A prefix is deleted exactly if it is listed; its PD keeps the others, in order, and
      goes with its last one ... */
  lemma {:induction false} DelExactly(cs: seq<ClientRec>, duid: nat, iaid: nat, a: Address, deleteEmpty: bool)
    requires Good(cs)
    ensures var (ok, cs') := Del(cs, duid, iaid, a, deleteEmpty);
            var was, end := PdOf(cs, duid, iaid), PdOf(cs', duid, iaid);
            && (ok <==> was.Some? && a in Addrs(was.value.prefixes))
            && (!ok ==> cs' == cs)
            && (ok ==> var left := Filter(was.value.prefixes, (l: Lease) => l.addr != a);
                       end == if left == [] then None else Some(was.value.(prefixes := left)))
  {
    var c := ClientIndex(cs, duid);
    if c < |cs| {
      var k := IndexOfId(cs[c].pds, iaid);
      if k < |cs[c].pds| {
        var pd := cs[c].pds[k];
        assert GoodClient(cs[c]) && GoodPd(pd);
        HeldInList(pd.prefixes, a);
        if Holds(pd.prefixes, a) {
          DeletedIsFilter(pd.prefixes, a);
          DelClientPick(cs[c], k, a, iaid);
          hide Deleted, Holds, IndexOfId, DelFromClient;
          DelLookup(cs, c, k, a, deleteEmpty, duid);
        }
      }
    }
  }

  lemma {:induction false} DeletedIsFilter(s: seq<Lease>, a: Address)
    requires UniqueAddrs(s)
    ensures Deleted(s, a) == Filter(s, (l: Lease) => l.addr != a)
  {
    var keep := (l: Lease) => l.addr != a;
    if s != [] {
      if s[0].addr == a {
        FilterAll(s[1..], keep);
      } else {
        DeletedIsFilter(s[1..], a);
        if IndexOf(s, a) < |s| {
          assert Without(s, IndexOf(s, a)) == [s[0]] + Without(s[1..], IndexOf(s[1..], a));
        } else {
          assert s == [s[0]] + s[1..];
        }
      }
    }
  }

  lemma {:induction false} DelClientPick(rec: ClientRec, k: nat, a: Address, id: nat)
    requires GoodClient(rec) && k < |rec.pds|
    ensures var left := Deleted(rec.pds[k].prefixes, a); var iaid := rec.pds[k].iaid;
            Pick(DelFromClient(rec, k, a).pds, id) ==
            if id != iaid then Pick(rec.pds, id) else if left == [] then None else Some(rec.pds[k].(prefixes := left))
  {
    hide Deleted, GoodPd;
    IdAt(rec.pds, k, rec.pds[k].iaid);
    var left := Deleted(rec.pds[k].prefixes, a);
    if left == [] {
      PickWithout(rec.pds, k, id);
    } else {
      PickSet(rec.pds, k, rec.pds[k].(prefixes := left), id);
    }
  }

  /** The client as it is found afterwards: without anything left it may be gone. */
  lemma {:induction false} DelLookup(cs: seq<ClientRec>, c: nat, k: nat, a: Address, deleteEmpty: bool, duid: nat)
    requires Good(cs) && c < |cs| && k < |cs[c].pds| && IndexOfId(cs[c].pds, cs[c].pds[k].iaid) == k
    requires ClientIndex(cs, cs[c].duid) == c && Holds(cs[c].pds[k].prefixes, a)
    ensures var cs' := Del(cs, cs[c].duid, cs[c].pds[k].iaid, a, deleteEmpty).1;
            var rec := DelFromClient(cs[c], k, a);
            ClientOf(cs', duid) ==
            if duid != cs[c].duid then ClientOf(cs, duid) else if Vacant(rec) && deleteEmpty then None else Some(rec)
  {
    hide Deleted, Holds, ClientIndex, GoodClient;
    var rec := DelFromClient(cs[c], k, a);
    ClientWithout(cs, c, duid);
    ClientSet(cs, c, rec, duid);
  }

  /** ... no other PD, IA_NA or IA_TA changes, and a client that has nothing any more is gone
      exactly if empty clients are to be deleted. */
  lemma {:induction false} DelElsewhere(cs: seq<ClientRec>, duid: nat, iaid: nat, a: Address, deleteEmpty: bool,
                                        other: nat, id: nat)
    requires Good(cs)
    ensures var (ok, cs') := Del(cs, duid, iaid, a, deleteEmpty);
            && ((other, id) != (duid, iaid) ==> PdOf(cs', other, id) == PdOf(cs, other, id))
            && RestOf(cs', other) == RestOf(cs, other)
            && (ok && ClientOf(cs', duid).None? <==>
                 ok && deleteEmpty && RestOf(cs, duid) == ([], []) && forall x :: PdOf(cs', duid, x).None?)
  {
    var c := ClientIndex(cs, duid);
    if c < |cs| {
      var k := IndexOfId(cs[c].pds, iaid);
      if k < |cs[c].pds| && Holds(cs[c].pds[k].prefixes, a) {
        assert GoodClient(cs[c]);
        var rec := DelFromClient(cs[c], k, a);
        DelClientPick(cs[c], k, a, id);
        assert rec.pds != [] ==> Pick(rec.pds, rec.pds[0].iaid).Some?;
        assert rec.ias == cs[c].ias && rec.tas == cs[c].tas;
        hide Deleted, Holds, IndexOfId, DelFromClient;
        DelLookup(cs, c, k, a, deleteEmpty, other);
        DelLookup(cs, c, k, a, deleteEmpty, duid);
        hide Del, Good, ClientIndex;
        var cs' := Del(cs, duid, iaid, a, deleteEmpty).1;
        if ClientOf(cs', duid).Some? && rec.pds != [] {
          assert PdOf(cs', duid, rec.pds[0].iaid).Some?;
        }
      }
    }
  }
}
