/** AddrMgr.cpp `addPrefix`, `updatePrefix`, `delPrefix`, `prefixIsFree`: delegated prefixes
    in the three-level store of clients, PDs and prefixes. */
module PrefixDb {
  import opened Containers
  import opened Leases
  import opened AddressIA
  import opened LeaseDb
  import opened Replies

  /** A client: its DUID and its IAs, TAs and PDs. */
  datatype ClientRec = ClientRec(duid: nat, ias: seq<IAView>, tas: seq<IAView>, pds: seq<IAView>)

  function ClientIndex(cs: seq<ClientRec>, duid: nat): (k: nat)
    ensures k <= |cs|
    ensures k < |cs| ==> cs[k].duid == duid
    ensures forall i :: 0 <= i < k ==> cs[i].duid != duid
  {
    if cs == [] || cs[0].duid == duid then 0 else 1 + ClientIndex(cs[1..], duid)
  }

  /** What a caller asks for: which PD of which client, and its timers. */
  datatype Target = Target(duid: nat, iaid: nat, ifindex: nat, t1: ulong, t2: ulong)

  function EmptyClient(duid: nat): ClientRec {
    ClientRec(duid, [], [], [])
  }

  function NewPd(t: Target, now: ulong): IAView {
    IAView(t.iaid, t.ifindex, [], [], t.t1, t.t2, Configured, Unknown, now, t.duid)
  }

  // -- one PD, one client, all clients ------------------------------------------------------

  /** The prefix is added to the PD, or is there already; the timers are set in any case. */
  function AddToPd(pd: IAView, t: Target, l: Lease): (bool, IAView) {
    var pd := pd.(t1 := t.t1, t2 := t.t2);
    if Holds(pd.prefixes, l.addr) then (false, pd) else (true, pd.(prefixes := pd.prefixes + [l], duid := t.duid))
  }

  function AddToClient(c: ClientRec, t: Target, l: Lease, now: ulong): (bool, ClientRec) {
    var k := IndexOfId(c.pds, t.iaid);
    if k == |c.pds| then
      var (ok, pd) := AddToPd(NewPd(t, now), t, l);
      (ok, c.(pds := c.pds + [pd]))
    else
      var (ok, pd) := AddToPd(c.pds[k], t, l);
      (ok, c.(pds := c.pds[k := pd]))
  }

  function Add(cs: seq<ClientRec>, t: Target, l: Lease, now: ulong): (bool, seq<ClientRec>) {
    var c := ClientIndex(cs, t.duid);
    if c == |cs| then
      var (ok, rec) := AddToClient(EmptyClient(t.duid), t, l, now);
      (ok, cs + [rec])
    else
      var (ok, rec) := AddToClient(cs[c], t, l, now);
      (ok, cs[c := rec])
  }

  function Update(cs: seq<ClientRec>, t: Target, l: Lease, now: ulong): (bool, seq<ClientRec>) {
    var c := ClientIndex(cs, t.duid);
    if c == |cs| then (false, cs)
    else
      var k := IndexOfId(cs[c].pds, t.iaid);
      if k == |cs[c].pds| then (false, cs)
      else
        var pd := cs[c].pds[k].(timestamp := now, t1 := t.t1, t2 := t.t2);
        var j := IndexOf(pd.prefixes, l.addr);
        if j == |pd.prefixes| then (false, cs[c := cs[c].(pds := cs[c].pds[k := pd])])
        else
          var l' := pd.prefixes[j].(timestamp := now, pref := l.pref, valid := l.valid);
          var pd' := pd.(prefixes := pd.prefixes[j := l']);
          (true, cs[c := cs[c].(pds := cs[c].pds[k := pd'])])
  }

  predicate Vacant(c: ClientRec) {
    c.ias == [] && c.tas == [] && c.pds == []
  }

  /** The client after a prefix of its PD `k` went. */
  function DelFromClient(c: ClientRec, k: nat, a: Address): ClientRec
    requires k < |c.pds|
  {
    var left := Deleted(c.pds[k].prefixes, a);
    c.(pds := if left == [] then Without(c.pds, k) else c.pds[k := c.pds[k].(prefixes := left)])
  }

  /** The prefix goes, then the PD if it was its last, then the client if it is vacant. */
  function Del(cs: seq<ClientRec>, duid: nat, iaid: nat, a: Address, deleteEmpty: bool): (bool, seq<ClientRec>) {
    var c := ClientIndex(cs, duid);
    if c == |cs| then (false, cs)
    else
      var rec := cs[c];
      var k := IndexOfId(rec.pds, iaid);
      if k == |rec.pds| || !Holds(rec.pds[k].prefixes, a) then (false, cs)
      else
        var rec' := DelFromClient(rec, k, a);
        if Vacant(rec') && deleteEmpty then (true, Without(cs, c)) else (true, cs[c := rec'])
  }

  predicate Listed(cs: seq<ClientRec>, a: Address) {
    exists c, p :: c in cs && p in c.pds && Holds(p.prefixes, a)
  }

  // -- the code -----------------------------------------------------------------------------

  method FindPd(pds: Cursored<IAView>, iaid: nat) returns (r: Option<IAView>, left: Cursored<IAView>)
    ensures left.lista == pds.lista
    ensures r.Some? <==> IndexOfId(pds.lista, iaid) < |pds.lista|
    ensures r.Some? ==> left.it == IndexOfId(pds.lista, iaid) + 1 && r.value == pds.lista[left.it - 1]
  {
    left := pds.First();
    while true
      invariant left.Positioned() && left.lista == pds.lista
      invariant forall i :: 0 <= i < left.it ==> pds.lista[i].iaid != iaid
      decreases |pds.lista| - left.it
    {
      r := left.Peek();
      left := left.Next();
      if r.None? || r.value.iaid == iaid {
        return;
      }
    }
  }

  /** The inner `addPrefix`, on the client itself. */
  method AddPrefixTo(client: ClientRec, t: Target, l: Lease, now: ulong) returns (ok: bool, rec: ClientRec)
    ensures (ok, rec) == AddToClient(client, t, l, now)
  {
    var r, PDLst := FindPd(Cursored(client.pds, -1), t.iaid);
    var k;
    if r.None? {
      k := |PDLst.lista|;
      PDLst := PDLst.Append(NewPd(t, now));
    } else {
      k := PDLst.it - 1;
    }
    var pd := PDLst.lista[k].(t1 := t.t1, t2 := t.t2);
    var found, PrefixLst := Find(Cursored(pd.prefixes, -1), l.addr);
    ok := found.None?;
    if ok {
      PrefixLst := PrefixLst.Append(l);
      pd := pd.(prefixes := PrefixLst.lista, duid := t.duid);
    }
    PDLst := PDLst.SetAt(k, pd);
    rec := client.(pds := PDLst.lista);
    assert r.None? ==> PDLst.lista == client.pds + [pd];
  }

  /** `delPD`: the first PD with that IAID goes. */
  method DelPd(pds: Cursored<IAView>, iaid: nat) returns (left: Cursored<IAView>)
    requires IndexOfId(pds.lista, iaid) < |pds.lista|
    ensures left.lista == Without(pds.lista, IndexOfId(pds.lista, iaid))
  {
    var _, found := FindPd(pds, iaid);
    left := found.Del();
  }

  /** The part of `delPrefix` that is about one client: the prefix goes, and its PD with
      it if it was the last. */
  method DelPrefixFrom(client: ClientRec, iaid: nat, a: Address) returns (ok: bool, rec: ClientRec)
    ensures var k := IndexOfId(client.pds, iaid);
            && (ok <==> k < |client.pds| && Holds(client.pds[k].prefixes, a))
            && (ok ==> rec == DelFromClient(client, k, a) && rec.duid == client.duid)
  {
    rec := client;
    var pd, PDLst := FindPd(Cursored(client.pds, -1), iaid);
    if pd.None? {
      return false, rec;
    }
    var found, PrefixLst := Find(Cursored(pd.value.prefixes, -1), a);
    if found.None? {
      return false, rec;
    }
    hide Deleted, Without;
    var _, prefixes := DelFrom(PrefixLst, a);
    if |prefixes.lista| == 0 {
      PDLst := DelPd(PDLst, iaid);
    } else {
      PDLst := PDLst.SetLast(pd.value.(prefixes := prefixes.lista));
    }
    ok, rec := true, client.(pds := PDLst.lista);
  }

  class PrefixMgr {
    const DeleteEmptyClient: bool
    var ClntsLst: Cursored<ClientRec>

    method FindClient(duid: nat) returns (r: Option<ClientRec>)
      modifies this
      ensures ClntsLst.lista == old(ClntsLst.lista) && ClntsLst.Positioned()
      ensures r.Some? <==> ClientIndex(ClntsLst.lista, duid) < |ClntsLst.lista|
      ensures r.Some? ==> ClntsLst.it == ClientIndex(ClntsLst.lista, duid) + 1
      ensures r.Some? ==> r.value == ClntsLst.lista[ClntsLst.it - 1]
    {
      ClntsLst := ClntsLst.First();
      while true
        invariant ClntsLst.Positioned() && ClntsLst.lista == old(ClntsLst.lista)
        invariant forall i :: 0 <= i < ClntsLst.it ==> ClntsLst.lista[i].duid != duid
        decreases |ClntsLst.lista| - ClntsLst.it
      {
        r := ClntsLst.Peek();
        ClntsLst := ClntsLst.Next();
        if r.None? || r.value.duid == duid {
          return;
        }
      }
    }

    method AddPrefix(t: Target, l: Lease, now: ulong) returns (ok: bool)
      modifies this
      ensures (ok, ClntsLst.lista) == Add(old(ClntsLst.lista), t, l, now)
    {
      hide AddToClient;
      var r := FindClient(t.duid);
      var client := EmptyClient(t.duid);
      var c := |ClntsLst.lista|;
      if r.None? {
        ClntsLst := ClntsLst.Append(client);
      } else {
        client, c := r.value, ClntsLst.it - 1;
      }
      ok, client := AddPrefixTo(client, t, l, now);
      ClntsLst := ClntsLst.SetAt(c, client);
      assert r.None? ==> ClntsLst.lista == old(ClntsLst.lista) + [client];
    }

    method UpdatePrefix(t: Target, l: Lease, now: ulong) returns (ok: bool)
      modifies this
      ensures (ok, ClntsLst.lista) == Update(old(ClntsLst.lista), t, l, now)
    {
      var client := FindClient(t.duid);
      if client.None? {
        return false;
      }
      var c := ClntsLst.it - 1;
      var r, PDLst := FindPd(Cursored(client.value.pds, -1), t.iaid);
      if r.None? {
        return false;
      }
      var pd := r.value.(timestamp := now, t1 := t.t1, t2 := t.t2);
      var found, PrefixLst := Find(Cursored(pd.prefixes, -1), l.addr);
      ok := found.Some?;
      if ok {
        PrefixLst := PrefixLst.SetLast(found.value.(timestamp := now, pref := l.pref, valid := l.valid));
        pd := pd.(prefixes := PrefixLst.lista);
      }
      PDLst := PDLst.SetLast(pd);
      ClntsLst := ClntsLst.SetAt(c, client.value.(pds := PDLst.lista));
    }

    /** `delClient`: the first client with that DUID goes. */
    method DelClient(duid: nat)
      requires ClientIndex(ClntsLst.lista, duid) < |ClntsLst.lista|
      modifies this
      ensures ClntsLst.lista == Without(old(ClntsLst.lista), ClientIndex(old(ClntsLst.lista), duid))
    {
      var _ := FindClient(duid);
      ClntsLst := ClntsLst.Del();
    }

    method DelPrefix(duid: nat, iaid: nat, a: Address) returns (ok: bool)
      modifies this
      ensures (ok, ClntsLst.lista) == Del(old(ClntsLst.lista), duid, iaid, a, DeleteEmptyClient)
    {
      hide DelFromClient, Holds, Without;
      var r := FindClient(duid);
      if r.None? {
        return false;
      }
      var client, c := r.value, ClntsLst.it - 1;
      ok, client := DelPrefixFrom(client, iaid, a);
      if !ok {
        return;
      }
      ClntsLst := ClntsLst.SetAt(c, client);
      if |client.ias| == 0 && |client.tas| == 0 && |client.pds| == 0 && DeleteEmptyClient {
        SameIndex(old(ClntsLst.lista), c, client);
        DelClient(duid);
      }
    }

    method PrefixIsFree(x: Address) returns (free: bool)
      modifies this
      ensures ClntsLst.lista == old(ClntsLst.lista)
      ensures free <==> !Listed(ClntsLst.lista, x)
    {
      ClntsLst := ClntsLst.First();
      while ClntsLst.Peek().Some?
        invariant ClntsLst.Positioned() && ClntsLst.lista == old(ClntsLst.lista)
        invariant forall i :: 0 <= i < ClntsLst.it ==> forall p :: p in ClntsLst.lista[i].pds ==> !Holds(p.prefixes, x)
        decreases |ClntsLst.lista| - ClntsLst.it
      {
        var client := ClntsLst.Peek().value;
        ClntsLst := ClntsLst.Next();
        var PDLst := Cursored(client.pds, 0);
        while PDLst.Peek().Some?
          modifies {}
          invariant PDLst.Positioned() && PDLst.lista == client.pds
          invariant forall i :: 0 <= i < PDLst.it ==> !Holds(client.pds[i].prefixes, x)
          decreases |PDLst.lista| - PDLst.it
        {
          var pd := PDLst.Peek().value;
          PDLst := PDLst.Next();
          var found, _ := Find(Cursored(pd.prefixes, -1), x);
          if found.Some? {
            return false;
          }
        }
      }
      free := true;
    }
  }

  lemma {:induction false} SameIndex(cs: seq<ClientRec>, c: nat, rec: ClientRec)
    requires c < |cs| && ClientIndex(cs, rec.duid) == c
    ensures ClientIndex(cs[c := rec], rec.duid) == c && Without(cs[c := rec], c) == Without(cs, c)
  {
    var t := cs[c := rec];
    hide ClientIndex;
    assert t[c].duid == rec.duid && forall i :: 0 <= i < c ==> t[i] == cs[i];
  }

  // -- invariants -----------------------------------------------------------------------------

  ghost predicate GoodPd(p: IAView) {
    UniqueAddrs(p.prefixes)
  }

  ghost predicate GoodClient(c: ClientRec) {
    UniqueIds(c.pds) && forall p <- c.pds :: GoodPd(p)
  }

  /** DUIDs are unique, IAIDs of PDs within a client, and prefixes within a PD. */
  ghost predicate Good(cs: seq<ClientRec>) {
    && (forall i, j :: 0 <= i < j < |cs| ==> cs[i].duid != cs[j].duid)
    && forall c <- cs :: GoodClient(c)
  }

  lemma {:induction false} GoodUpdate(cs: seq<ClientRec>, c: nat, rec: ClientRec)
    requires Good(cs) && c < |cs| && GoodClient(rec) && rec.duid == cs[c].duid
    ensures Good(cs[c := rec])
  {
  }

  lemma {:induction false} GoodPdUpdate(rec: ClientRec, k: nat, pd: IAView)
    requires GoodClient(rec) && k < |rec.pds| && GoodPd(pd) && pd.iaid == rec.pds[k].iaid
    ensures GoodClient(rec.(pds := rec.pds[k := pd]))
  {
  }

  lemma {:induction false} AddToPdGood(pd: IAView, t: Target, l: Lease)
    requires GoodPd(pd)
    ensures GoodPd(AddToPd(pd, t, l).1) && AddToPd(pd, t, l).1.iaid == pd.iaid
  {
  }

  lemma {:induction false} AddToClientGood(c: ClientRec, t: Target, l: Lease, now: ulong)
    requires GoodClient(c)
    ensures GoodClient(AddToClient(c, t, l, now).1) && AddToClient(c, t, l, now).1.duid == c.duid
  {
    var k := IndexOfId(c.pds, t.iaid);
    hide AddToPd, GoodPd;
    if k == |c.pds| {
      assert GoodPd(NewPd(t, now)) by {
        NewPdGood(t, now);
      }
      AddToPdGood(NewPd(t, now), t, l);
    } else {
      AddToPdGood(c.pds[k], t, l);
      GoodPdUpdate(c, k, AddToPd(c.pds[k], t, l).1);
    }
  }

  lemma {:induction false} NewPdGood(t: Target, now: ulong)
    ensures GoodPd(NewPd(t, now))
  {
  }

  /** Each operation keeps the invariants ... */
  lemma {:induction false} AddGood(cs: seq<ClientRec>, t: Target, l: Lease, now: ulong)
    requires Good(cs)
    ensures Good(Add(cs, t, l, now).1)
  {
    hide AddToClient, GoodClient;
    var c := ClientIndex(cs, t.duid);
    if c == |cs| {
      assert GoodClient(EmptyClient(t.duid)) by {
        EmptyGood(t.duid);
      }
      AddToClientGood(EmptyClient(t.duid), t, l, now);
    } else {
      AddToClientGood(cs[c], t, l, now);
      GoodUpdate(cs, c, AddToClient(cs[c], t, l, now).1);
    }
  }

  lemma {:induction false} EmptyGood(duid: nat)
    ensures GoodClient(EmptyClient(duid))
  {
  }

  lemma {:induction false} UpdateGood(cs: seq<ClientRec>, t: Target, l: Lease, now: ulong)
    requires Good(cs)
    ensures Good(Update(cs, t, l, now).1)
  {
    var c := ClientIndex(cs, t.duid);
    if c < |cs| {
      var k := IndexOfId(cs[c].pds, t.iaid);
      if k < |cs[c].pds| {
        assert GoodClient(cs[c]) && GoodPd(cs[c].pds[k]);
        var rec := Update(cs, t, l, now).1[c];
        GoodPdUpdate(cs[c], k, rec.pds[k]);
        assert rec == cs[c].(pds := cs[c].pds[k := rec.pds[k]]);
        GoodUpdate(cs, c, rec);
      }
    }
  }

  lemma {:induction false} DelFromClientGood(c: ClientRec, k: nat, a: Address)
    requires GoodClient(c) && k < |c.pds|
    ensures GoodClient(DelFromClient(c, k, a))
  {
    assert GoodPd(c.pds[k]);
    DeletedMeaning(c.pds[k].prefixes, a);
    hide Deleted;
    var left := Deleted(c.pds[k].prefixes, a);
    if left == [] {
      var pds := Without(c.pds, k);
      assert forall i :: 0 <= i < |pds| ==> pds[i] == c.pds[if i < k then i else i + 1];
    } else {
      GoodPdUpdate(c, k, c.pds[k].(prefixes := left));
    }
  }

  lemma {:induction false} WithoutGood(cs: seq<ClientRec>, c: nat)
    requires Good(cs) && c < |cs|
    ensures Good(Without(cs, c))
  {
    hide GoodClient;
    var r := Without(cs, c);
    assert forall i :: 0 <= i < |r| ==> r[i] == cs[if i < c then i else i + 1];
  }

  lemma {:induction false} DelGood(cs: seq<ClientRec>, duid: nat, iaid: nat, a: Address, deleteEmpty: bool)
    requires Good(cs)
    ensures Good(Del(cs, duid, iaid, a, deleteEmpty).1)
  {
    hide GoodClient, Deleted, Holds;
    var c := ClientIndex(cs, duid);
    if c < |cs| {
      var k := IndexOfId(cs[c].pds, iaid);
      if k < |cs[c].pds| && Holds(cs[c].pds[k].prefixes, a) {
        assert GoodClient(cs[c]);
        DelFromClientGood(cs[c], k, a);
        GoodUpdate(cs, c, DelFromClient(cs[c], k, a));
        WithoutGood(cs, c);
        hide Good;
      }
    }
  }

  datatype Op =
    | AddOp(t: Target, l: Lease, now: ulong)
    | UpdateOp(t: Target, l: Lease, now: ulong)
    | DelOp(duid: nat, iaid: nat, a: Address)

  function Do(cs: seq<ClientRec>, op: Op, deleteEmpty: bool): seq<ClientRec> {
    match op
    case AddOp(t, l, now) => Add(cs, t, l, now).1
    case UpdateOp(t, l, now) => Update(cs, t, l, now).1
    case DelOp(duid, iaid, a) => Del(cs, duid, iaid, a, deleteEmpty).1
  }

  function DoAll(cs: seq<ClientRec>, ops: seq<Op>, deleteEmpty: bool): seq<ClientRec>
    decreases |ops|
  {
    if ops == [] then cs else DoAll(Do(cs, ops[0], deleteEmpty), ops[1..], deleteEmpty)
  }

  /** ... so every database built by them has unique DUIDs, IAIDs and prefixes. */
  lemma {:induction false} AlwaysGood(cs: seq<ClientRec>, ops: seq<Op>, deleteEmpty: bool)
    requires Good(cs)
    ensures Good(DoAll(cs, ops, deleteEmpty))
    decreases |ops|
  {
    if ops != [] {
      match ops[0] {
        case AddOp(t, l, now) => AddGood(cs, t, l, now);
        case UpdateOp(t, l, now) => UpdateGood(cs, t, l, now);
        case DelOp(duid, iaid, a) => DelGood(cs, duid, iaid, a, deleteEmpty);
      }
      hide Good, Add, Update, Del;
      AlwaysGood(Do(cs, ops[0], deleteEmpty), ops[1..], deleteEmpty);
    }
  }

  // -- adding and deleting ------------------------------------------------------------------------

  /** When deleting the prefix just added brings back the database as it was. */
  predicate Restores(cs: seq<ClientRec>, t: Target, deleteEmpty: bool) {
    var c := ClientIndex(cs, t.duid);
    if c == |cs| then deleteEmpty
    else
      var k := IndexOfId(cs[c].pds, t.iaid);
      if k == |cs[c].pds| then !(deleteEmpty && Vacant(cs[c]))
      else var pd := cs[c].pds[k]; pd.prefixes != [] && pd.t1 == t.t1 && pd.t2 == t.t2 && pd.duid == t.duid
  }

  lemma {:induction false} DeletedLast(s: seq<Lease>, l: Lease)
    requires !Holds(s, l.addr)
    ensures Holds(s + [l], l.addr) && Deleted(s + [l], l.addr) == s
  {
    hide IndexOf;
    assert (s + [l])[|s|] == l && forall i :: 0 <= i < |s| ==> (s + [l])[i] == s[i];
    assert IndexOf(s + [l], l.addr) == |s|;
  }

  lemma {:induction false} IdAt(vs: seq<IAView>, k: nat, iaid: nat)
    requires k < |vs| && vs[k].iaid == iaid && forall i :: 0 <= i < k ==> vs[i].iaid != iaid
    ensures IndexOfId(vs, iaid) == k
  {
    hide IndexOfId;
  }

  lemma {:induction false} ClientAt(cs: seq<ClientRec>, k: nat, duid: nat)
    requires k < |cs| && cs[k].duid == duid && forall i :: 0 <= i < k ==> cs[i].duid != duid
    ensures ClientIndex(cs, duid) == k
  {
    hide ClientIndex;
  }

  lemma {:induction false} SameUpdate<T>(s: seq<T>, k: nat, x: T)
    requires k < |s|
    ensures s[k := x] == s <==> x == s[k]
  {
    assert s[k := x] == s ==> s[k := x][k] == s[k];
  }

  /** What is left of a PD after the addition and the deletion. */
  lemma {:induction false} AddDelPd(pd: IAView, t: Target, l: Lease)
    requires AddToPd(pd, t, l).0
    ensures var w := AddToPd(pd, t, l).1;
            && w.iaid == pd.iaid && Holds(w.prefixes, l.addr) && Deleted(w.prefixes, l.addr) == pd.prefixes
            && w.(prefixes := pd.prefixes) == pd.(t1 := t.t1, t2 := t.t2, duid := t.duid)
  {
    DeletedLast(pd.prefixes, l);
    hide Deleted, IndexOf;
  }

  /** What is left of the client after the addition and the deletion. */
  lemma {:induction false} AddDelClient(c: ClientRec, t: Target, l: Lease, now: ulong)
    requires AddToClient(c, t, l, now).0
    ensures var rec := AddToClient(c, t, l, now).1;
            var k, j := IndexOfId(rec.pds, t.iaid), IndexOfId(c.pds, t.iaid);
            && rec.duid == c.duid && k == j < |rec.pds| && Holds(rec.pds[k].prefixes, l.addr)
            && var end := DelFromClient(rec, k, l.addr);
            && (j == |c.pds| ==> end == c)
            && (j < |c.pds| ==> (end == c <==>
                 c.pds[j].prefixes != [] && c.pds[j].t1 == t.t1 && c.pds[j].t2 == t.t2 && c.pds[j].duid == t.duid))
            && (j < |c.pds| && Vacant(end) ==> end != c)
  {
    var rec := AddToClient(c, t, l, now).1;
    var j := IndexOfId(c.pds, t.iaid);
    AddDelPd(if j == |c.pds| then NewPd(t, now) else c.pds[j], t, l);
    hide AddToPd, Deleted, Holds, IndexOfId;
    IdAt(rec.pds, j, t.iaid);
    if j == |c.pds| {
      assert Without(rec.pds, j) == c.pds;
    } else {
      var pd := c.pds[j].(t1 := t.t1, t2 := t.t2, duid := t.duid);
      assert rec.pds[j := pd] == c.pds[j := pd];
      SameUpdate(c.pds, j, pd);
    }
  }

  /** ... and adding a prefix and then deleting it is undone exactly when `Restores`
      says so: for a PD that was absent, unless an empty client appears or disappears. */
  lemma {:induction false} AddThenDel(cs: seq<ClientRec>, t: Target, l: Lease, now: ulong, deleteEmpty: bool)
    requires Add(cs, t, l, now).0
    ensures var added := Add(cs, t, l, now).1;
            && Del(added, t.duid, t.iaid, l.addr, deleteEmpty).0
            && (Del(added, t.duid, t.iaid, l.addr, deleteEmpty).1 == cs <==> Restores(cs, t, deleteEmpty))
  {
    var c := ClientIndex(cs, t.duid);
    var was := if c == |cs| then EmptyClient(t.duid) else cs[c];
    AddDelClient(was, t, l, now);
    var rec := AddToClient(was, t, l, now).1;
    var added := Add(cs, t, l, now).1;
    hide Holds, AddToClient, ClientIndex;
    assert added == if c == |cs| then cs + [rec] else cs[c := rec];
    ClientAt(added, c, t.duid);
    var end := DelFromClient(rec, IndexOfId(rec.pds, t.iaid), l.addr);
    hide DelFromClient, IndexOfId;
    if c == |cs| {
      assert Without(added, c) == cs;
      assert |added[c := end]| != |cs|;
    } else {
      assert added[c := end] == cs[c := end];
      SameUpdate(cs, c, end);
      assert |Without(added, c)| != |cs|;
    }
  }

  /** A prefix that was added is not free. */
  lemma {:induction false} AddedNotFree(cs: seq<ClientRec>, t: Target, l: Lease, now: ulong)
    requires Add(cs, t, l, now).0
    ensures Listed(Add(cs, t, l, now).1, l.addr)
  {
    var c := ClientIndex(cs, t.duid);
    var was := if c == |cs| then EmptyClient(t.duid) else cs[c];
    AddDelClient(was, t, l, now);
    var rec := AddToClient(was, t, l, now).1;
    hide AddToClient, Holds, IndexOfId;
    var added := Add(cs, t, l, now).1;
    assert added[c] == rec && rec in added && rec.pds[IndexOfId(rec.pds, t.iaid)] in rec.pds;
  }
}
