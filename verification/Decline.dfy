/** ClntTransMgr.cpp `checkDecline`: addresses that failed duplicate address
    detection are declined, server by server, and removed. */
module Decline {
  import opened Containers
  import opened Leases
  import opened AddressIA
  import opened LeaseDb

  /** One IA_NA option of a DECLINE: the failed addresses of an IA. */
  datatype Part = Part(iaid: nat, duid: nat, addrs: set<Address>)

  datatype DeclineMsg = DeclineMsg(server: nat, parts: seq<Part>)

  predicate NotYes(l: Lease) {
    l.tentative != Yes
  }

  function Passed(s: seq<Lease>): seq<Lease> {
    Filter(s, NotYes)
  }

  function Failed(s: seq<Lease>): set<Address> {
    set l | l in s && l.tentative == Yes :: l.addr
  }

  /** The addresses that a pass leaves, with the statuses it leaves them. */
  function Judged(s: seq<Lease>, d: Dad): seq<Lease> {
    if s == [] then []
    else if Fails(s[0], d) then Judged(s[1..], d)
    else [s[0].(tentative := if Passes(s[0], d) then No else Unknown)] + Judged(s[1..], d)
  }

  lemma {:induction false} SettledJudged(s: seq<Lease>, t: seq<Lease>, d: Dad)
    requires Settled(s, t, d)
    ensures Judged(t, d) == Judged(s, d)
  {
    if s != [] {
      assert SettledAt(s[0], t[0], d);
      SettledJudged(s[1..], t[1..], d);
    }
  }

  lemma {:induction false} PassedJudged(s: seq<Lease>, d: Dad)
    ensures Judged(Passed(s), d) == Judged(s, d)
  {
    if s != [] {
      PassedJudged(s[1..], d);
      assert ([s[0]] + Passed(s[1..]))[1..] == Passed(s[1..]);
    }
  }

  lemma {:induction false} ClearJudged(s: seq<Lease>, d: Dad)
    requires Clear(s, d)
    ensures Judged(s, d) == s && !HasYes(s)
  {
    if s != [] {
      assert Clear(s[1..], d);
      ClearJudged(s[1..], d);
    }
  }

  lemma {:induction false} JudgedMeaning(s: seq<Lease>, d: Dad)
    ensures forall a :: a in Addrs(Judged(s, d)) <==> exists l :: l in s && l.addr == a && !Fails(l, d)
  {
    if s != [] {
      JudgedMeaning(s[1..], d);
      var r := Judged(s, d);
      hide Fails, Passes;
      forall a
        ensures a in Addrs(r) <==> (a == s[0].addr && !Fails(s[0], d)) || a in Addrs(Judged(s[1..], d))
      {
      }
    }
  }

  /** `w` is `v` after checks and removals: what stays is an old lease, perhaps with
      its status settled, and what went has failed. */
  ghost predicate Thinned(v: IAView, w: IAView, d: Dad) {
    && w == v.(addrs := w.addrs, tentative := w.tentative)
    && (forall l <- w.addrs :: var k := IndexOf(v.addrs, l.addr); k < |v.addrs| && SettledAt(v.addrs[k], l, d))
    && (forall l <- v.addrs :: l.addr in Addrs(w.addrs) || Fails(l, d))
  }

  lemma {:induction false} ThinnedSelf(v: IAView, d: Dad)
    requires UniqueAddrs(v.addrs)
    ensures Thinned(v, v, d)
  {
    forall l | l in v.addrs
      ensures var k := IndexOf(v.addrs, l.addr); k < |v.addrs| && v.addrs[k] == l
    {
      var i :| 0 <= i < |v.addrs| && v.addrs[i] == l;
      IndexOfUnique(v.addrs, i);
    }
  }

  lemma {:induction false} ThinnedTrans(u: IAView, v: IAView, w: IAView, d: Dad)
    requires Thinned(u, v, d) && Thinned(v, w, d) && UniqueAddrs(u.addrs) && UniqueAddrs(v.addrs)
    ensures Thinned(u, w, d)
  {
    forall l | l in w.addrs
      ensures var k := IndexOf(u.addrs, l.addr); k < |u.addrs| && SettledAt(u.addrs[k], l, d)
    {
      var j := IndexOf(v.addrs, l.addr);
      assert v.addrs[j] in v.addrs;
    }
    forall l | l in u.addrs && !Fails(l, d)
      ensures l.addr in Addrs(w.addrs)
    {
      var m :| m in v.addrs && m.addr == l.addr;
      var i :| 0 <= i < |u.addrs| && u.addrs[i] == l;
      IndexOfUnique(u.addrs, i);
      assert SettledAt(l, m, d);
    }
  }

  lemma {:induction false} CheckedThins(v: IAView, w: IAView, d: Dad)
    requires DadChecked(v, w, d) && v.Sound()
    ensures Thinned(v, w, d)
  {
    if v.tentative != Unknown {
      ThinnedSelf(v, d);
    } else {
      SettledKeeps(v.addrs, w.addrs, d);
      forall l | l in w.addrs
        ensures var k := IndexOf(v.addrs, l.addr); k < |v.addrs| && SettledAt(v.addrs[k], l, d)
      {
        var i :| 0 <= i < |w.addrs| && w.addrs[i] == l;
        assert SettledAt(v.addrs[i], w.addrs[i], d);
        IndexOfUnique(v.addrs, i);
      }
      assert forall l <- v.addrs :: l.addr in Addrs(v.addrs);
    }
  }

  /** An IA after its failed addresses were removed and its status recomputed. */
  ghost predicate Dropped(v: IAView, w: IAView) {
    w == v.(addrs := Passed(v.addrs), tentative := w.tentative) && Summary(w.addrs, w.tentative)
  }

  lemma {:induction false} DroppedThins(v: IAView, w: IAView, d: Dad)
    requires Dropped(v, w) && v.Sound()
    ensures Thinned(v, w, d) && w.Sound() && !HasYes(w.addrs) && w.tentative != Yes
    ensures Addrs(w.addrs) == Addrs(v.addrs) - Failed(v.addrs)
    ensures |w.addrs| <= |v.addrs| && (HasYes(v.addrs) ==> |w.addrs| < |v.addrs|)
  {
    hide Passed;
    PassedMeaning(v.addrs);
    PassedAddrs(v.addrs);
    ThinnedSelf(v, d);
    assert forall i :: 0 <= i < |w.addrs| ==> w.addrs[i] in w.addrs;
    assert forall l <- v.addrs :: l.tentative == Yes || l in w.addrs;
  }

  lemma {:induction false} PassedAddrs(s: seq<Lease>)
    requires UniqueAddrs(s)
    ensures Addrs(Passed(s)) == Addrs(s) - Failed(s)
  {
    hide Passed;
    PassedMeaning(s);
    var r := Passed(s);
    forall a
      ensures a in Addrs(r) <==> a in Addrs(s) && a !in Failed(s)
    {
      if a in Addrs(s) && a !in Failed(s) {
        var l :| l in s && l.addr == a;
        assert l in r;
      }
      if a in Addrs(r) {
        var l :| l in r && l.addr == a;
        forall m | m in s && m.addr == a
          ensures m == l
        {
          SameLease(s, l, m);
        }
      }
    }
  }

  lemma {:induction false} PassedMeaning(s: seq<Lease>)
    ensures forall l :: l in Passed(s) <==> l in s && l.tentative != Yes
    ensures UniqueAddrs(s) ==> UniqueAddrs(Passed(s))
    ensures |Passed(s)| <= |s| && (HasYes(s) ==> |Passed(s)| < |s|)
  {
    FilterIn(s, NotYes);
    if s != [] {
      PassedMeaning(s[1..]);
      if HasYes(s) && s[0].tentative != Yes {
        var i :| 0 <= i < |s| && s[i].tentative == Yes;
        assert s[1..][i - 1].tentative == Yes;
      }
      if UniqueAddrs(s) && s[0].tentative != Yes {
        var r := Passed(s[1..]);
        forall j | 0 <= j < |r|
          ensures s[0].addr != r[j].addr
        {
          assert r[j] in r && r[j] in s[1..];
        }
      }
    }
  }

  // -- measures -------------------------------------------------------------------

  /** How many addresses there are. */
  function Total(vs: seq<IAView>): nat {
    if vs == [] then 0 else |vs[0].addrs| + Total(vs[1..])
  }

  /** A cached "failed" that no address bears out. */
  ghost predicate Stale(v: IAView) {
    v.tentative == Yes && !HasYes(v.addrs)
  }

  ghost function StaleCount(vs: seq<IAView>): nat {
    if vs == [] then 0 else (if Stale(vs[0]) then 1 else 0) + StaleCount(vs[1..])
  }

  // -- one IA ---------------------------------------------------------------------

  method CheckAt(ghost ms: seq<AddrIA>, ghost k: nat, m: AddrIA, d: Dad, ghost vs: seq<IAView>)
    returns (t: Tri, ghost w: IAView)
    requires Shows(ms, vs) && NoDup(ms) && k < |ms| && ms[k] == m
    modifies m`Tentative, m`AddrLst
    ensures DadChecked(vs[k], w, d) && t == w.tentative
    ensures Shows(ms, vs[k := w])
  {
    hide DadChecked;
    assert m.View() == vs[k];
    t := m.GetTentative(d);
    w := m.View();
  }

  /** The inner loop of the removal: failed addresses go from the interface and the
      database, then the status is recomputed. */
  method DropFailed(m: AddrIA, iface: Iface, ghost v: IAView)
    requires m.View() == v && UniqueAddrs(v.addrs)
    modifies m`AddrLst, m`Tentative, iface
    ensures Dropped(v, m.View())
    ensures iface.addrs == old(iface.addrs) - Failed(v.addrs)
  {
    hide Passed, Deleted;
    m.AddrLst := m.AddrLst.First();
    while true
      invariant m.AddrLst.Positioned() && UniqueAddrs(m.AddrLst.lista)
      invariant m.View() == v.(addrs := m.AddrLst.lista)
      invariant Passed(m.AddrLst.lista) == Passed(v.addrs)
      invariant Failed(m.AddrLst.lista) <= Failed(v.addrs)
      invariant iface.addrs == old(iface.addrs) - (Failed(v.addrs) - Failed(m.AddrLst.lista))
      invariant forall i :: 0 <= i < m.AddrLst.it ==> NotYes(m.AddrLst.lista[i])
      decreases |m.AddrLst.lista|, |m.AddrLst.lista| - m.AddrLst.it
    {
      var r := m.AddrLst.Peek();
      m.AddrLst := m.AddrLst.Next();
      if r.None? {
        break;
      }
      if r.value.tentative == Yes {
        FailedStep(m.AddrLst.lista, m.AddrLst.it - 1);
        iface.DelAddr(r.value.addr);
        var _ := m.DelAddr(r.value.addr);
      }
    }
    AllPassed(m.AddrLst.lista);
    m.SetTentative();
  }

  lemma {:induction false} FailedStep(s: seq<Lease>, k: nat)
    requires UniqueAddrs(s) && k < |s| && s[k].tentative == Yes
    ensures IndexOf(s, s[k].addr) == k && Deleted(s, s[k].addr) == Without(s, k) && UniqueAddrs(Without(s, k))
    ensures Failed(Without(s, k)) == Failed(s) - {s[k].addr}
    ensures Passed(Without(s, k)) == Passed(s)
  {
    IndexOfUnique(s, k);
    DeletedMeaning(s, s[k].addr);
    FilterWithout(s, k, NotYes);
  }

  lemma {:induction false} AllPassed(s: seq<Lease>)
    requires forall i :: 0 <= i < |s| ==> NotYes(s[i])
    ensures Passed(s) == s && Failed(s) == {}
  {
    FilterAll(s, NotYes);
  }

  method DropAt(ghost ms: seq<AddrIA>, ghost k: nat, m: AddrIA, iface: Iface, ghost vs: seq<IAView>)
    returns (ghost w: IAView)
    requires Shows(ms, vs) && NoDup(ms) && k < |ms| && ms[k] == m && vs[k].Sound()
    modifies m`AddrLst, m`Tentative, iface
    ensures Dropped(vs[k], w)
    ensures Shows(ms, vs[k := w])
    ensures iface.addrs == old(iface.addrs) - Failed(vs[k].addrs)
  {
    hide Dropped;
    assert m.View() == vs[k];
    DropFailed(m, iface, vs[k]);
    w := m.View();
  }

  // -- the whole list ---------------------------------------------------------------

  ghost predicate AllSound(vs: seq<IAView>) {
    forall i :: 0 <= i < |vs| ==> vs[i].Sound()
  }

  /** Every IA was left alone or had its addresses checked. */
  ghost predicate Looked(vs: seq<IAView>, cur: seq<IAView>, d: Dad) {
    |vs| == |cur| && forall i :: 0 <= i < |vs| ==> cur[i] == vs[i] || DadChecked(vs[i], cur[i], d)
  }

  ghost predicate Within(orig: seq<IAView>, cur: seq<IAView>, d: Dad) {
    && |orig| == |cur| && AllSound(cur) && (forall i :: 0 <= i < |orig| ==> Thinned(orig[i], cur[i], d))
    && forall i :: 0 <= i < |orig| ==> Judged(cur[i].addrs, d) == Judged(orig[i].addrs, d)
  }

  /** The addresses that are gone, with IAID and server of their IA. */
  ghost function Lost(orig: seq<IAView>, cur: seq<IAView>): set<(nat, nat, Address)>
    requires |orig| == |cur|
  {
    set i, a | 0 <= i < |orig| && a in Addrs(orig[i].addrs) - Addrs(cur[i].addrs) :: (orig[i].iaid, orig[i].duid, a)
  }

  ghost function LostAddrs(orig: seq<IAView>, cur: seq<IAView>): set<Address>
    requires |orig| == |cur|
  {
    set i, a | 0 <= i < |orig| && a in Addrs(orig[i].addrs) - Addrs(cur[i].addrs) :: a
  }

  /** Checking removes nothing, and an IA newly found to have failed is not stale. */
  lemma {:induction false} LookedOne(v: IAView, w: IAView, d: Dad)
    requires v.Sound() && (w == v || DadChecked(v, w, d))
    ensures w.Sound() && Thinned(v, w, d) && Addrs(w.addrs) == Addrs(v.addrs) && |w.addrs| == |v.addrs|
    ensures Stale(w) <==> Stale(v)
    ensures w.iaid == v.iaid && w.duid == v.duid && Judged(w.addrs, d) == Judged(v.addrs, d)
  {
    if w == v {
      ThinnedSelf(v, d);
    } else {
      CheckedThins(v, w, d);
      DadCheckedSound(v, w, d);
      if v.tentative == Unknown {
        SettledJudged(v.addrs, w.addrs, d);
      }
    }
  }

  lemma {:induction false} LookedMeasures(vs: seq<IAView>, cur: seq<IAView>, d: Dad)
    requires Looked(vs, cur, d) && AllSound(vs)
    ensures Total(cur) == Total(vs) && StaleCount(cur) == StaleCount(vs)
  {
    if vs != [] {
      LookedOne(vs[0], cur[0], d);
      hide DadChecked, Stale;
      assert AllSound(vs[1..]);
      LookedMeasures(vs[1..], cur[1..], d);
    }
  }

  lemma {:induction false} LookedWithin(orig: seq<IAView>, vs: seq<IAView>, cur: seq<IAView>, d: Dad)
    requires AllSound(orig) && Within(orig, vs, d) && Looked(vs, cur, d)
    ensures Within(orig, cur, d) && Lost(orig, cur) == Lost(orig, vs) && LostAddrs(orig, cur) == LostAddrs(orig, vs)
  {
    forall i | 0 <= i < |orig|
      ensures cur[i].Sound() && Thinned(orig[i], cur[i], d) && Addrs(cur[i].addrs) == Addrs(vs[i].addrs)
      ensures Judged(cur[i].addrs, d) == Judged(vs[i].addrs, d)
    {
      LookedOne(vs[i], cur[i], d);
      ThinnedTrans(orig[i], vs[i], cur[i], d);
    }
    hide Thinned, Addrs, IAView.Sound, DadChecked, Judged;
  }

  lemma {:induction false} LookedTrans(u: seq<IAView>, v: seq<IAView>, k: nat, w: IAView, d: Dad)
    requires Looked(u, v, d) && k < |u| && v[k] == u[k] && DadChecked(v[k], w, d)
    ensures Looked(u, v[k := w], d)
  {
    hide DadChecked;
  }

  /** Every address has passed or waits for its window to close. */
  ghost predicate Clear(s: seq<Lease>, d: Dad) {
    forall i :: 0 <= i < |s| ==> s[i].tentative == No || Pending(s[i], d.now)
  }

  lemma {:induction false} CheckedClear(v: IAView, w: IAView, d: Dad)
    requires DadChecked(v, w, d) && v.Sound() && w.tentative != Yes
    ensures Clear(w.addrs, d)
  {
    DadCheckedSound(v, w, d);
  }

  /** The first phase has passed the first `n` IAs and found `first`, at position `k`. */
  ghost predicate Looking(ms: seq<AddrIA>, vs: seq<IAView>, cur: seq<IAView>, first: Option<AddrIA>, k: nat, n: int,
                          d: Dad) {
    && Looked(vs, cur, d) && 0 <= n <= |cur| == |ms| == |vs| && (forall i :: n <= i < |cur| ==> cur[i] == vs[i])
    && (first.None? ==> forall i :: 0 <= i < n ==> Clear(cur[i].addrs, d))
    && (first.Some? ==> k < n && ms[k] == first.value && cur[k].tentative == Yes)
  }

  lemma {:induction false} LookingNext(ms: seq<AddrIA>, vs: seq<IAView>, cur: seq<IAView>, n: nat, w: IAView,
                                       d: Dad)
    requires Looking(ms, vs, cur, None, 0, n, d) && n < |ms| && DadChecked(cur[n], w, d) && AllSound(vs)
    ensures if w.tentative == Yes then Looking(ms, vs, cur[n := w], Some(ms[n]), n, n + 1, d)
            else Looking(ms, vs, cur[n := w], None, 0, n + 1, d)
  {
    if w.tentative != Yes {
      CheckedClear(cur[n], w, d);
    }
    hide DadChecked, Clear;
    LookedTrans(vs, cur, n, w, d);
  }

  lemma {:induction false} LookingSound(ms: seq<AddrIA>, vs: seq<IAView>, cur: seq<IAView>, first: Option<AddrIA>,
                                        k: nat, n: nat, d: Dad)
    requires Looking(ms, vs, cur, first, k, n, d) && n < |ms|
    ensures first.Some? ==> Looking(ms, vs, cur, first, k, n + 1, d)
    ensures n < |cur|
  {
  }

  /** One turn of the first phase.  It fetches one more element before it notices that one
      has been found. */
  method LookOne(lst: Container<AddrIA>, first: Option<AddrIA>, d: Dad, ghost vs: seq<IAView>,
                 ghost cur: seq<IAView>, ghost k: nat)
    returns (more: bool, found: Option<AddrIA>, ghost next: seq<IAView>, ghost at: nat)
    requires lst.Positioned() && Shows(lst.lista, cur) && NoDup(lst.lista) && AllSound(vs)
    requires Looking(lst.lista, vs, cur, first, k, lst.it, d) && (first.None? ==> k == 0)
    modifies lst`it, Set(lst.lista)`Tentative, Set(lst.lista)`AddrLst
    ensures lst.Positioned() && Shows(lst.lista, next) && old(lst.it) <= lst.it
    ensures Looking(lst.lista, vs, next, found, at, lst.it, d) && (found.None? ==> at == 0)
    ensures if more then lst.it > old(lst.it) else found.Some? || lst.it == |lst.lista|
  {
    hide Looking, DadChecked;
    more, found, next, at := true, first, cur, k;
    ghost var n := lst.it;
    var r := lst.Get();
    if r.None? {
      more := false;
      return;
    }
    LookingSound(lst.lista, vs, cur, first, k, n, d);
    if first.Some? {
      more := false;
      return;
    }
    var t, w := CheckAt(lst.lista, n, r.value, d, cur);
    LookingNext(lst.lista, vs, cur, n, w, d);
    next := cur[n := w];
    if t == Yes {
      found, at := r, n;
    }
  }

  /** First phase: look for an IA with a failed address. */
  method FindFailed(lst: Container<AddrIA>, d: Dad, ghost vs: seq<IAView>)
    returns (first: Option<AddrIA>, ghost k: nat, ghost cur: seq<IAView>)
    requires Shows(lst.lista, vs) && NoDup(lst.lista) && AllSound(vs)
    modifies lst`it, Set(lst.lista)`Tentative, Set(lst.lista)`AddrLst
    ensures Shows(lst.lista, cur) && Looked(vs, cur, d)
    ensures first.None? ==> forall i :: 0 <= i < |cur| ==> Clear(cur[i].addrs, d)
    ensures first.Some? ==> k < |lst.lista| && lst.lista[k] == first.value && cur[k].tentative == Yes
    ensures first.Some? ==> lst.Positioned() && lst.it > k && forall i :: lst.it <= i < |cur| ==> cur[i] == vs[i]
  {
    first, k, cur := None, 0, vs;
    lst.First();
    assert Looking(lst.lista, vs, cur, first, k, 0, d) by {
      hide DadChecked;
    }
    var more := true;
    while more
      invariant lst.Positioned() && Shows(lst.lista, cur)
      invariant Looking(lst.lista, vs, cur, first, k, lst.it, d) && (first.None? ==> k == 0)
      invariant !more ==> first.Some? || lst.it == |lst.lista|
      decreases more, |lst.lista| - lst.it
    {
      hide *;
      more, first, cur, k := LookOne(lst, first, d, vs, cur, k);
    }
    hide DadChecked, Clear;
  }

  /** Positions of the picked IAs in the list. */
  ghost predicate Picks(ms: seq<AddrIA>, ps: seq<AddrIA>, idx: seq<nat>) {
    && |ps| == |idx|
    && (forall j :: 0 <= j < |idx| ==> idx[j] < |ms| && ps[j] == ms[idx[j]])
    && (forall i, j :: 0 <= i < j < |idx| ==> idx[i] < idx[j])
  }

  /** All picked IAs have failed and belong to one server. */
  ghost predicate OneServer(vs: seq<IAView>, idx: seq<nat>, server: nat) {
    forall j :: 0 <= j < |idx| ==> idx[j] < |vs| && vs[idx[j]].tentative == Yes && vs[idx[j]].duid == server
  }

  /** Position `n` is checked and, if it matches, picked too. */
  lemma {:induction false} PickNext(ms: seq<AddrIA>, ps: seq<AddrIA>, idx: seq<nat>, vs: seq<IAView>, server: nat,
                                    n: nat, w: IAView)
    requires Picks(ms, ps, idx) && OneServer(vs, idx, server) && n < |ms| == |vs|
    requires idx != [] && idx[|idx| - 1] < n
    ensures OneServer(vs[n := w], idx, server)
    ensures Picks(ms, ps + [ms[n]], idx + [n])
    ensures w.tentative == Yes && w.duid == server ==> OneServer(vs[n := w], idx + [n], server)
  {
    assert forall j :: 0 <= j < |idx| ==> idx[j] < n;
  }

  /** The second phase has passed the first `n` IAs, from the one after position `k` on. */
  ghost predicate Collected(ms: seq<AddrIA>, vs: seq<IAView>, cur: seq<IAView>, ps: seq<AddrIA>, idx: seq<nat>,
                            k: nat, n: int, d: Dad) {
    && Looked(vs, cur, d) && k < n <= |cur| && |ms| == |vs|
    && (forall i :: n <= i < |cur| || i == k ==> cur[i] == vs[i])
    && Picks(ms, ps, idx) && OneServer(cur, idx, vs[k].duid)
    && idx != [] && idx[0] == k && idx[|idx| - 1] < n
  }

  lemma {:induction false} CollectNext(ms: seq<AddrIA>, vs: seq<IAView>, cur: seq<IAView>, ps: seq<AddrIA>,
                                       idx: seq<nat>, k: nat, n: nat, w: IAView, d: Dad)
    requires Collected(ms, vs, cur, ps, idx, k, n, d) && n < |cur| && DadChecked(cur[n], w, d)
    ensures Collected(ms, vs, cur[n := w], ps, idx, k, n + 1, d)
    ensures w.tentative == Yes && w.duid == vs[k].duid ==>
              Collected(ms, vs, cur[n := w], ps + [ms[n]], idx + [n], k, n + 1, d)
  {
    hide DadChecked, Picks, OneServer;
    LookedTrans(vs, cur, n, w, d);
    PickNext(ms, ps, idx, cur, vs[k].duid, n, w);
  }

  /** One turn of the second phase. */
  method PickOne(lst: Container<AddrIA>, server: nat, picked: Cursored<AddrIA>, d: Dad, ghost k: nat,
                 ghost vs: seq<IAView>, ghost cur: seq<IAView>, ghost idx: seq<nat>)
    returns (more: bool, left: Cursored<AddrIA>, ghost next: seq<IAView>, ghost ids: seq<nat>)
    requires lst.Positioned() && Shows(lst.lista, cur) && NoDup(lst.lista) && k < |vs| && vs[k].duid == server
    requires Collected(lst.lista, vs, cur, picked.lista, idx, k, lst.it, d)
    modifies lst`it, Set(lst.lista)`Tentative, Set(lst.lista)`AddrLst
    ensures lst.Positioned() && Shows(lst.lista, next)
    ensures Collected(lst.lista, vs, next, left.lista, ids, k, lst.it, d)
    ensures lst.it == if more then old(lst.it) + 1 else |lst.lista|
  {
    hide DadChecked, Collected;
    more, left, next, ids := true, picked, cur, idx;
    var r := lst.Get();
    if r.None? {
      more := false;
      return;
    }
    ghost var n := lst.it - 1;
    var t, w := CheckAt(lst.lista, n, r.value, d, cur);
    CollectNext(lst.lista, vs, cur, picked.lista, idx, k, n, w, d);
    next := cur[n := w];
    assert r.value.View() == w;
    if t == Yes && r.value.DUID == server {
      left := picked.Append(r.value);
      ids := idx + [n];
    }
  }

  /** Second phase: the rest of the list, same server only. */
  method Collect(lst: Container<AddrIA>, first: AddrIA, d: Dad, ghost k: nat, ghost vs: seq<IAView>)
    returns (picked: Cursored<AddrIA>, ghost idx: seq<nat>, ghost cur: seq<IAView>)
    requires Shows(lst.lista, vs) && NoDup(lst.lista)
    requires lst.Positioned() && k < lst.it && lst.lista[k] == first && vs[k].tentative == Yes
    modifies lst`it, Set(lst.lista)`Tentative, Set(lst.lista)`AddrLst
    ensures Shows(lst.lista, cur) && Looked(vs, cur, d)
    ensures Picks(lst.lista, picked.lista, idx) && OneServer(cur, idx, vs[k].duid)
    ensures idx != [] && idx[0] == k && cur[k] == vs[k]
  {
    picked := Cursored([], -1).Append(first);
    idx, cur := [k], vs;
    assert first.View() == vs[k];
    var server := first.DUID;
    PickFirst(lst.lista, vs, k);
    assert Collected(lst.lista, vs, cur, picked.lista, idx, k, lst.it, d);
    var more := true;
    while more
      invariant lst.Positioned() && Shows(lst.lista, cur)
      invariant Collected(lst.lista, vs, cur, picked.lista, idx, k, lst.it, d)
      invariant !more ==> lst.it == |lst.lista|
      decreases more, |lst.lista| - lst.it
    {
      hide *;
      more, picked, cur, idx := PickOne(lst, server, picked, d, k, vs, cur, idx);
    }
    CollectEnds(lst.lista, vs, cur, picked.lista, idx, k, lst.it, d);
  }

  lemma {:induction false} CollectEnds(ms: seq<AddrIA>, vs: seq<IAView>, cur: seq<IAView>, ps: seq<AddrIA>,
                                       idx: seq<nat>, k: nat, n: int, d: Dad)
    requires Collected(ms, vs, cur, ps, idx, k, n, d)
    ensures Looked(vs, cur, d) && Picks(ms, ps, idx) && OneServer(cur, idx, vs[k].duid)
    ensures idx != [] && idx[0] == k && k < |cur| && cur[k] == vs[k]
  {
  }

  lemma {:induction false} PickFirst(ms: seq<AddrIA>, vs: seq<IAView>, k: nat)
    requires k < |ms| == |vs| && vs[k].tentative == Yes
    ensures Picks(ms, [ms[k]], [k]) && OneServer(vs, [k], vs[k].duid)
  {
  }

  /** The DECLINE message: one part for each picked IA. */
  function Parts(vs: seq<IAView>, idx: seq<nat>): seq<Part>
    requires forall j :: 0 <= j < |idx| ==> idx[j] < |vs|
  {
    seq(|idx|, j requires 0 <= j < |idx| => Part(vs[idx[j]].iaid, vs[idx[j]].duid, Failed(vs[idx[j]].addrs)))
  }

  method MakeParts(declineIALst: Cursored<AddrIA>, ghost ms: seq<AddrIA>, ghost idx: seq<nat>, ghost vs: seq<IAView>)
    returns (parts: seq<Part>)
    requires Shows(ms, vs) && Picks(ms, declineIALst.lista, idx)
    ensures parts == Parts(vs, idx)
  {
    hide Failed;
    parts := [];
    var picked := declineIALst.First();
    while picked.Peek().Some?
      invariant picked.Positioned() && picked.lista == declineIALst.lista && parts == Parts(vs, idx)[..picked.it]
      decreases |picked.lista| - picked.it
    {
      var ia := picked.Peek().value;
      assert ia.View() == vs[idx[picked.it]];
      picked := picked.Next();
      parts := parts + [Part(ia.IAID, ia.DUID, Failed(ia.AddrLst.lista))];
    }
  }

  /** The first `n` picked IAs have had their failed addresses removed. */
  ghost predicate DroppedUpTo(vs: seq<IAView>, cur: seq<IAView>, idx: seq<nat>, n: int) {
    && |cur| == |vs|
    && (forall j :: 0 <= j < |idx| && j < n ==> idx[j] < |vs| && Dropped(vs[idx[j]], cur[idx[j]]))
    && (forall i :: 0 <= i < |vs| && (forall j :: 0 <= j < |idx| && j < n ==> idx[j] != i) ==> cur[i] == vs[i])
  }

  ghost function FailedUpTo(vs: seq<IAView>, idx: seq<nat>, n: int): set<Address> {
    set j, a | 0 <= j < |idx| && j < n && idx[j] < |vs| && a in Failed(vs[idx[j]].addrs) :: a
  }

  lemma {:induction false} DropNext(vs: seq<IAView>, cur: seq<IAView>, idx: seq<nat>, n: nat, w: IAView)
    requires n < |idx| && (forall j :: 0 <= j < |idx| ==> idx[j] < |vs|)
    requires forall i, j :: 0 <= i < j < |idx| ==> idx[i] < idx[j]
    requires DroppedUpTo(vs, cur, idx, n)
    ensures cur[idx[n]] == vs[idx[n]]
    ensures Dropped(vs[idx[n]], w) ==> DroppedUpTo(vs, cur[idx[n] := w], idx, n + 1)
    ensures FailedUpTo(vs, idx, n + 1) == FailedUpTo(vs, idx, n) + Failed(vs[idx[n]].addrs)
  {
    hide Dropped, Failed;
    assert forall j :: 0 <= j < n ==> idx[j] != idx[n];
  }

  /** Third phase: the failed addresses of the picked IAs go. */
  method DropPicked(declineIALst: Cursored<AddrIA>, iface: Iface,
                    ghost ms: seq<AddrIA>, ghost idx: seq<nat>, ghost vs: seq<IAView>)
    returns (ghost cur: seq<IAView>)
    requires Shows(ms, vs) && NoDup(ms) && Picks(ms, declineIALst.lista, idx) && AllSound(vs)
    modifies iface, Set(ms)`AddrLst, Set(ms)`Tentative
    ensures Shows(ms, cur) && DroppedUpTo(vs, cur, idx, |idx|)
    ensures iface.addrs == old(iface.addrs) - FailedUpTo(vs, idx, |idx|)
  {
    hide Dropped, Failed, DroppedUpTo, FailedUpTo;
    cur := vs;
    DropNone(vs, idx);
    var picked := declineIALst.First();
    while picked.Peek().Some?
      invariant picked.Positioned() && picked.lista == declineIALst.lista
      invariant Shows(ms, cur) && DroppedUpTo(vs, cur, idx, picked.it)
      invariant iface.addrs == old(iface.addrs) - FailedUpTo(vs, idx, picked.it)
      decreases |picked.lista| - picked.it
    {
      var ia := picked.Peek().value;
      ghost var n := picked.it;
      picked := picked.Next();
      DropNext(vs, cur, idx, n, cur[0]);
      ghost var w := DropAt(ms, idx[n], ia, iface, cur);
      DropNext(vs, cur, idx, n, w);
      cur := cur[idx[n] := w];
    }
  }

  lemma {:induction false} DropNone(vs: seq<IAView>, idx: seq<nat>)
    ensures DroppedUpTo(vs, vs, idx, 0) && FailedUpTo(vs, idx, 0) == {}
  {
  }

  // -- one round ----------------------------------------------------------------------

  lemma {:induction false} Fewer(vs: seq<IAView>, cur: seq<IAView>, k: nat)
    requires |vs| == |cur| && k < |vs|
    requires forall i :: 0 <= i < |vs| ==> |cur[i].addrs| <= |vs[i].addrs| && (Stale(cur[i]) ==> Stale(vs[i]))
    ensures Total(cur) <= Total(vs) && StaleCount(cur) <= StaleCount(vs)
    ensures |cur[k].addrs| < |vs[k].addrs| ==> Total(cur) < Total(vs)
    ensures Stale(vs[k]) && !Stale(cur[k]) ==> StaleCount(cur) < StaleCount(vs)
  {
    hide Stale;
    if |vs| > 1 {
      Fewer(vs[1..], cur[1..], if k == 0 then 0 else k - 1);
    }
  }

  /** What removing the failed addresses of the picked IAs does to each IA. */
  lemma {:induction false} DropPointwise(vs: seq<IAView>, cur: seq<IAView>, idx: seq<nat>, i: nat, d: Dad)
    requires DroppedUpTo(vs, cur, idx, |idx|) && AllSound(vs) && i < |vs|
    ensures cur[i].Sound() && Thinned(vs[i], cur[i], d) && cur[i].iaid == vs[i].iaid
    ensures |cur[i].addrs| <= |vs[i].addrs| && (Stale(cur[i]) ==> Stale(vs[i]))
    ensures i in idx ==> !HasYes(cur[i].addrs) && cur[i].tentative != Yes
    ensures i in idx && HasYes(vs[i].addrs) ==> |cur[i].addrs| < |vs[i].addrs|
    ensures Addrs(vs[i].addrs) - Addrs(cur[i].addrs) == if i in idx then Failed(vs[i].addrs) else {}
    ensures Judged(cur[i].addrs, d) == Judged(vs[i].addrs, d)
  {
    if j :| 0 <= j < |idx| && idx[j] == i {
      DroppedThins(vs[i], cur[i], d);
      FailedHeld(vs[i].addrs);
      PassedJudged(vs[i].addrs, d);
    } else {
      ThinnedSelf(vs[i], d);
    }
  }

  lemma {:induction false} FailedHeld(s: seq<Lease>)
    ensures Failed(s) <= Addrs(s)
  {
  }

  /** A round makes progress: addresses go, or a stale status does. */
  lemma {:induction false} RoundProgress(vs: seq<IAView>, cur: seq<IAView>, idx: seq<nat>, server: nat, d: Dad)
    requires DroppedUpTo(vs, cur, idx, |idx|) && AllSound(vs) && OneServer(vs, idx, server) && idx != []
    ensures Total(cur) <= Total(vs) && StaleCount(cur) <= StaleCount(vs)
    ensures Total(cur) < Total(vs) || StaleCount(cur) < StaleCount(vs)
  {
    var k := idx[0];
    assert vs[k].tentative == Yes;
    forall i | 0 <= i < |vs|
      ensures |cur[i].addrs| <= |vs[i].addrs| && (Stale(cur[i]) ==> Stale(vs[i]))
    {
      DropPointwise(vs, cur, idx, i, d);
    }
    DropPointwise(vs, cur, idx, k, d);
    Fewer(vs, cur, k);
  }

  /** A round removes exactly what its DECLINE names. */
  lemma {:induction false} RoundWithin(orig: seq<IAView>, vs: seq<IAView>, cur: seq<IAView>, idx: seq<nat>, d: Dad)
    requires AllSound(orig) && Within(orig, vs, d)
    requires DroppedUpTo(vs, cur, idx, |idx|) && forall j :: 0 <= j < |idx| ==> idx[j] < |vs|
    ensures Within(orig, cur, d)
    ensures Lost(orig, cur) == Lost(orig, vs) + Named(Parts(vs, idx))
    ensures LostAddrs(orig, cur) == LostAddrs(orig, vs) + FailedUpTo(vs, idx, |idx|)
  {
    forall i | 0 <= i < |orig|
      ensures cur[i].Sound() && Thinned(orig[i], cur[i], d)
              && orig[i].iaid == vs[i].iaid && orig[i].duid == vs[i].duid
      ensures Addrs(cur[i].addrs) <= Addrs(vs[i].addrs) <= Addrs(orig[i].addrs)
      ensures Addrs(vs[i].addrs) - Addrs(cur[i].addrs) == if i in idx then Failed(vs[i].addrs) else {}
      ensures Judged(cur[i].addrs, d) == Judged(vs[i].addrs, d)
    {
      DropPointwise(vs, cur, idx, i, d);
      ThinnedTrans(orig[i], vs[i], cur[i], d);
      ThinnedHeld(orig[i], vs[i], d);
      ThinnedHeld(vs[i], cur[i], d);
    }
    RoundLost(orig, vs, cur, idx);
  }

  lemma {:induction false} ThinnedHeld(v: IAView, w: IAView, d: Dad)
    requires Thinned(v, w, d)
    ensures Addrs(w.addrs) <= Addrs(v.addrs)
  {
    forall l | l in w.addrs
      ensures l.addr in Addrs(v.addrs)
    {
      assert v.addrs[IndexOf(v.addrs, l.addr)] in v.addrs;
    }
  }

  /** The addresses that the parts name, with their IAID and server. */
  ghost function Named(parts: seq<Part>): set<(nat, nat, Address)> {
    set j, a | 0 <= j < |parts| && a in parts[j].addrs :: (parts[j].iaid, parts[j].duid, a)
  }

  lemma {:induction false} RoundLost(orig: seq<IAView>, vs: seq<IAView>, cur: seq<IAView>, idx: seq<nat>)
    requires |orig| == |vs| == |cur| && forall j :: 0 <= j < |idx| ==> idx[j] < |vs|
    requires forall i :: 0 <= i < |orig| ==>
             && orig[i].iaid == vs[i].iaid && orig[i].duid == vs[i].duid
             && Addrs(cur[i].addrs) <= Addrs(vs[i].addrs) <= Addrs(orig[i].addrs)
    requires forall i :: 0 <= i < |orig| ==>
               Addrs(vs[i].addrs) - Addrs(cur[i].addrs) == if i in idx then Failed(vs[i].addrs) else {}
    ensures Lost(orig, cur) == Lost(orig, vs) + Named(Parts(vs, idx))
    ensures LostAddrs(orig, cur) == LostAddrs(orig, vs) + FailedUpTo(vs, idx, |idx|)
  {
    hide Addrs, Failed;
    var parts := Parts(vs, idx);
    forall i, a | 0 <= i < |orig| && a in Addrs(vs[i].addrs) - Addrs(cur[i].addrs)
      ensures a in FailedUpTo(vs, idx, |idx|) && (orig[i].iaid, orig[i].duid, a) in Named(parts)
    {
      assert i in idx;
      var j :| 0 <= j < |idx| && idx[j] == i;
      assert a in parts[j].addrs;
    }
    forall j, a | 0 <= j < |parts| && a in parts[j].addrs
      ensures a in Addrs(vs[idx[j]].addrs) - Addrs(cur[idx[j]].addrs)
    {
      assert idx[j] in idx;
    }
    forall p
      ensures p in Lost(orig, cur) <==> p in Lost(orig, vs) + Named(parts)
    {
      if p in Named(parts) {
        var j, a :| 0 <= j < |parts| && a in parts[j].addrs && p == (parts[j].iaid, parts[j].duid, a);
        assert a in Addrs(orig[idx[j]].addrs) - Addrs(cur[idx[j]].addrs);
      }
      if p in Lost(orig, vs) {
        var i, a :| 0 <= i < |orig| && a in Addrs(orig[i].addrs) - Addrs(vs[i].addrs) &&
          p == (orig[i].iaid, orig[i].duid, a);
        assert a in Addrs(orig[i].addrs) - Addrs(cur[i].addrs);
      }
      if p in Lost(orig, cur) && p !in Lost(orig, vs) {
        var i, a :| 0 <= i < |orig| && a in Addrs(orig[i].addrs) - Addrs(cur[i].addrs) &&
          p == (orig[i].iaid, orig[i].duid, a);
        assert a in Addrs(vs[i].addrs) - Addrs(cur[i].addrs);
      }
    }
    RoundLostAddrs(orig, vs, cur, idx);
  }

  lemma {:induction false} RoundLostAddrs(orig: seq<IAView>, vs: seq<IAView>, cur: seq<IAView>, idx: seq<nat>)
    requires |orig| == |vs| == |cur| && forall j :: 0 <= j < |idx| ==> idx[j] < |vs|
    requires forall i :: 0 <= i < |orig| ==> Addrs(cur[i].addrs) <= Addrs(vs[i].addrs) <= Addrs(orig[i].addrs)
    requires forall i :: 0 <= i < |orig| ==>
               Addrs(vs[i].addrs) - Addrs(cur[i].addrs) == if i in idx then Failed(vs[i].addrs) else {}
    ensures LostAddrs(orig, cur) == LostAddrs(orig, vs) + FailedUpTo(vs, idx, |idx|)
  {
    hide Addrs, Failed;
    forall a
      ensures a in LostAddrs(orig, cur) <==> a in LostAddrs(orig, vs) + FailedUpTo(vs, idx, |idx|)
    {
      if a in FailedUpTo(vs, idx, |idx|) {
        var j :| 0 <= j < |idx| && a in Failed(vs[idx[j]].addrs);
        assert idx[j] in idx && a in Addrs(vs[idx[j]].addrs) - Addrs(cur[idx[j]].addrs);
        assert a in Addrs(orig[idx[j]].addrs) - Addrs(cur[idx[j]].addrs);
      }
      if a in LostAddrs(orig, vs) {
        var i :| 0 <= i < |orig| && a in Addrs(orig[i].addrs) - Addrs(vs[i].addrs);
        assert a in Addrs(orig[i].addrs) - Addrs(cur[i].addrs);
      }
      if a in LostAddrs(orig, cur) {
        var i :| 0 <= i < |orig| && a in Addrs(orig[i].addrs) - Addrs(cur[i].addrs);
        if a in Addrs(vs[i].addrs) {
          assert a in Addrs(vs[i].addrs) - Addrs(cur[i].addrs);
          assert i in idx;
        } else {
          assert a in Addrs(orig[i].addrs) - Addrs(vs[i].addrs);
        }
      }
    }
  }

  // -- checkDecline ---------------------------------------------------------------------

  ghost function AllNamed(sent: seq<DeclineMsg>): set<(nat, nat, Address)> {
    set k, p | 0 <= k < |sent| && p in Named(sent[k].parts) :: p
  }

  /** Each DECLINE is addressed to the server of every IA it names. */
  ghost predicate SingleServer(m: DeclineMsg) {
    forall p <- m.parts :: p.duid == m.server
  }

  /** Third and fourth phase of a round: build the DECLINE, then remove. */
  method SendAndDrop(picked: Cursored<AddrIA>, server: nat, iface: Iface,
                     ghost ms: seq<AddrIA>, ghost idx: seq<nat>, ghost vs: seq<IAView>)
    returns (msg: DeclineMsg, ghost cur: seq<IAView>)
    requires Shows(ms, vs) && NoDup(ms) && Picks(ms, picked.lista, idx) && AllSound(vs) && OneServer(vs, idx, server)
    modifies iface, Set(ms)`AddrLst, Set(ms)`Tentative
    ensures Shows(ms, cur) && DroppedUpTo(vs, cur, idx, |idx|)
    ensures iface.addrs == old(iface.addrs) - FailedUpTo(vs, idx, |idx|)
    ensures msg.parts == Parts(vs, idx) && SingleServer(msg)
  {
    hide Dropped, Failed, DroppedUpTo, FailedUpTo;
    var parts := MakeParts(picked, ms, idx, vs);
    msg := DeclineMsg(server, parts);
    cur := DropPicked(picked, iface, ms, idx, vs);
  }

  /** One turn of the outer loop. */
  method Round(lst: Container<AddrIA>, iface: Iface, d: Dad, ghost orig: seq<IAView>, ghost vs: seq<IAView>)
    returns (more: bool, msg: DeclineMsg, ghost cur: seq<IAView>, ghost gone: set<Address>)
    requires Shows(lst.lista, vs) && NoDup(lst.lista) && AllSound(orig) && Within(orig, vs, d)
    modifies lst`it, iface, Set(lst.lista)`AddrLst, Set(lst.lista)`Tentative
    ensures Shows(lst.lista, cur) && Within(orig, cur, d)
    ensures Total(cur) <= Total(vs) && StaleCount(cur) <= StaleCount(vs)
    ensures more ==> Total(cur) < Total(vs) || StaleCount(cur) < StaleCount(vs)
    ensures more ==> SingleServer(msg) && Lost(orig, cur) == Lost(orig, vs) + Named(msg.parts)
    ensures iface.addrs == old(iface.addrs) - gone && LostAddrs(orig, cur) == LostAddrs(orig, vs) + gone
    ensures !more ==> Lost(orig, cur) == Lost(orig, vs)
    ensures !more ==> forall i :: 0 <= i < |cur| ==> Clear(cur[i].addrs, d)
  {
    hide Thinned, DadChecked, Dropped, Failed, DroppedUpTo, FailedUpTo, Total, StaleCount, Looked, Lost, LostAddrs,
      Named, Parts;
    msg := DeclineMsg(0, []);
    var first, k, c1 := FindFailed(lst, d, vs);
    LookedMeasures(vs, c1, d);
    LookedWithin(orig, vs, c1, d);
    if first.None? {
      return false, msg, c1, {};
    }
    assert first.value.View() == c1[k];
    var picked, idx, c2 := Collect(lst, first.value, d, k, c1);
    LookedMeasures(c1, c2, d);
    LookedWithin(orig, c1, c2, d);
    more := true;
    msg, cur := SendAndDrop(picked, first.value.DUID, iface, lst.lista, idx, c2);
    RoundProgress(c2, cur, idx, c1[k].duid, d);
    RoundWithin(orig, c2, cur, idx, d);
    gone := FailedUpTo(c2, idx, |idx|);
  }

  /** `checkDecline`, for any answers of the operating system: it terminates; every IA is
      left with exactly the addresses that do not fail, their statuses settled; those that
      went are off the interface and named, under the IAID and the server of their IA, by
      exactly the messages sent; and each message goes to the one server it names. */
  method CheckDecline(lst: Container<AddrIA>, iface: Iface, d: Dad, ghost orig: seq<IAView>)
    returns (sent: seq<DeclineMsg>, ghost cur: seq<IAView>)
    requires Shows(lst.lista, orig) && NoDup(lst.lista) && AllSound(orig)
    modifies lst`it, iface, Set(lst.lista)`AddrLst, Set(lst.lista)`Tentative
    ensures Shows(lst.lista, cur) && Within(orig, cur, d)
    ensures forall i :: 0 <= i < |cur| ==> cur[i].addrs == Judged(orig[i].addrs, d) && !HasYes(cur[i].addrs)
    ensures iface.addrs == old(iface.addrs) - LostAddrs(orig, cur)
    ensures AllNamed(sent) == Lost(orig, cur)
    ensures forall m <- sent :: SingleServer(m)
  {
    hide Thinned, Total, StaleCount, Lost, LostAddrs, Named, AllNamed, HasYes, Judged, Clear;
    sent, cur := [], orig;
    NothingLost(orig, d);
    while true
      invariant Shows(lst.lista, cur) && Within(orig, cur, d)
      invariant iface.addrs == old(iface.addrs) - LostAddrs(orig, cur)
      invariant AllNamed(sent) == Lost(orig, cur)
      invariant forall m <- sent :: SingleServer(m)
      decreases Total(cur), StaleCount(cur)
    {
      var more, msg, next, gone := Round(lst, iface, d, orig, cur);
      cur := next;
      if !more {
        AllClear(orig, cur, d);
        break;
      }
      NamedNext(sent, msg);
      sent := sent + [msg];
    }
  }

  lemma {:induction false} AllClear(orig: seq<IAView>, cur: seq<IAView>, d: Dad)
    requires Within(orig, cur, d) && forall i :: 0 <= i < |cur| ==> Clear(cur[i].addrs, d)
    ensures forall i :: 0 <= i < |cur| ==> cur[i].addrs == Judged(orig[i].addrs, d) && !HasYes(cur[i].addrs)
  {
    forall i | 0 <= i < |cur|
      ensures cur[i].addrs == Judged(orig[i].addrs, d) && !HasYes(cur[i].addrs)
    {
      ClearJudged(cur[i].addrs, d);
    }
  }

  /** So the DECLINEs name exactly the addresses that had failed before, and those of
      unknown status whose window of 3 seconds has closed and which the system calls
      duplicates; no other answer makes the client give an address up. */
  lemma {:induction false} DeclinedExactly(orig: seq<IAView>, cur: seq<IAView>, d: Dad, iaid: nat, server: nat,
                                         a: Address)
    requires |orig| == |cur| && AllSound(orig)
    requires forall i :: 0 <= i < |cur| ==> cur[i].addrs == Judged(orig[i].addrs, d)
    ensures (iaid, server, a) in Lost(orig, cur) <==>
            exists v, l :: v in orig && v.iaid == iaid && v.duid == server && l in v.addrs && l.addr == a
                           && (l.tentative == Yes
                               || (l.tentative == Unknown && (l.timestamp + 3) % ULONG < d.now
                                   && d.answer(a) == ProbeYes))
  {
    forall i | 0 <= i < |orig|
      ensures a in Addrs(orig[i].addrs) - Addrs(cur[i].addrs) <==>
              exists l :: l in orig[i].addrs && l.addr == a && Fails(l, d)
    {
      JudgedMeaning(orig[i].addrs, d);
      hide Judged, Fails;
      forall l, m | l in orig[i].addrs && m in orig[i].addrs && l.addr == m.addr == a
        ensures l == m
      {
        SameLease(orig[i].addrs, l, m);
      }
    }
    forall v, l | v in orig && l in v.addrs
      ensures Fails(l, d) <==> l.tentative == Yes || (l.tentative == Unknown && (l.timestamp + 3) % ULONG < d.now
                                                      && d.answer(l.addr) == ProbeYes)
    {
    }
    hide Judged, Fails, Addrs;
    if v, l :| v in orig && v.iaid == iaid && v.duid == server && l in v.addrs && l.addr == a && Fails(l, d) {
      var i :| 0 <= i < |orig| && orig[i] == v;
      assert a in Addrs(orig[i].addrs) - Addrs(cur[i].addrs);
    }
    if (iaid, server, a) in Lost(orig, cur) {
      var i :| 0 <= i < |orig| && a in Addrs(orig[i].addrs) - Addrs(cur[i].addrs)
                     && orig[i].iaid == iaid && orig[i].duid == server;
      var l :| l in orig[i].addrs && l.addr == a && Fails(l, d);
      assert orig[i] in orig;
    }
  }

  lemma {:induction false} NothingLost(vs: seq<IAView>, d: Dad)
    requires AllSound(vs)
    ensures Within(vs, vs, d) && Lost(vs, vs) == {} && LostAddrs(vs, vs) == {} && AllNamed([]) == {}
  {
    forall i | 0 <= i < |vs|
      ensures Thinned(vs[i], vs[i], d)
    {
      ThinnedSelf(vs[i], d);
    }
  }

  lemma {:induction false} NamedNext(sent: seq<DeclineMsg>, m: DeclineMsg)
    ensures AllNamed(sent + [m]) == AllNamed(sent) + Named(m.parts)
  {
    hide Named;
    forall p
      ensures p in AllNamed(sent + [m]) <==> p in AllNamed(sent) + Named(m.parts)
    {
      if p in AllNamed(sent) {
        var k :| 0 <= k < |sent| && p in Named(sent[k].parts);
        assert (sent + [m])[k] == sent[k];
      }
      if p in Named(m.parts) {
        assert (sent + [m])[|sent|] == m;
      }
    }
  }
}
