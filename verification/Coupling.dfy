/** Whole runs: whatever the client does to its leases, the addresses on the
    interface stay exactly the addresses in the database. */
module Coupling {
  import opened Containers
  import opened Leases
  import opened AddressIA
  import opened LeaseDb
  import opened Expiry
  import opened Decline
  import opened Replies

  // -- merging one reply ----------------------------------------------------------

  /** Holder `i` of `h` holds `s` and the interface follows. */
  ghost predicate Fits(h: seq<set<Address>>, i: nat, s: seq<Lease>, link: set<Address>) {
    i < |h| && UniqueAddrs(s) && Exclusive(h[i := Addrs(s)]) && link == Union(h[i := Addrs(s)])
  }

  ghost predicate Elsewhere(h: seq<set<Address>>, i: nat, a: Address) {
    exists j :: 0 <= j < |h| && j != i && a in h[j]
  }

  lemma {:induction false} AddrsAppend(s: seq<Lease>, l: Lease)
    ensures Addrs(s + [l]) == Addrs(s) + {l.addr}
  {
    assert forall m :: m in s + [l] <==> m in s || m == l;
  }

  lemma {:induction false} AddrsSame(s: seq<Lease>, t: seq<Lease>)
    requires |s| == |t| && forall i :: 0 <= i < |s| ==> s[i].addr == t[i].addr
    ensures Addrs(s) == Addrs(t) && (UniqueAddrs(s) <==> UniqueAddrs(t))
  {
    forall a
      ensures a in Addrs(s) <==> a in Addrs(t)
    {
      if a in Addrs(s) {
        var i :| 0 <= i < |s| && s[i].addr == a;
        assert t[i] in t;
      }
      if a in Addrs(t) {
        var i :| 0 <= i < |t| && t[i].addr == a;
        assert s[i] in s;
      }
    }
  }

  lemma {:induction false} HoldsAddr(s: seq<Lease>, a: Address)
    ensures Holds(s, a) <==> a in Addrs(s)
  {
    if Holds(s, a) {
      assert s[IndexOf(s, a)] in s;
    }
  }

  /** The effect of one offer on the set of addresses and on the interface. */
  lemma {:induction false} OneSets(m: Merge, o: Offer, now: ulong)
    requires UniqueAddrs(m.addrs)
    ensures var r := One(m, o, now);
            && UniqueAddrs(r.addrs)
            && (Withdraws(m.addrs, o) ==> Addrs(r.addrs) == Addrs(m.addrs) - {o.addr} && r.link == m.link - {o.addr})
            && (!Holds(m.addrs, o.addr) && o.valid != 0 ==>
                Addrs(r.addrs) == Addrs(m.addrs) + {o.addr} && r.link == m.link + {o.addr})
            && (!Withdraws(m.addrs, o) && (Holds(m.addrs, o.addr) || o.valid == 0) ==>
                Addrs(r.addrs) == Addrs(m.addrs) && r.link == m.link)
  {
    HoldsAddr(m.addrs, o.addr);
    DeletedMeaning(m.addrs, o.addr);
    var r := One(m, o, now);
    if Holds(m.addrs, o.addr) && o.valid != 0 {
      AddrsSame(m.addrs, r.addrs);
    } else if !Holds(m.addrs, o.addr) && o.valid != 0 {
      AddrsAppend(m.addrs, r.addrs[|m.addrs|]);
    }
  }

  lemma {:induction false} OneFits(h: seq<set<Address>>, i: nat, m: Merge, o: Offer, now: ulong)
    requires Fits(h, i, m.addrs, m.link) && !Elsewhere(h, i, o.addr)
    ensures var r := One(m, o, now); Fits(h, i, r.addrs, r.link)
  {
    hide One, Union, Addrs;
    OneSets(m, o, now);
    var r := One(m, o, now);
    var g, s := h[i := Addrs(m.addrs)], Addrs(r.addrs);
    assert g[i := s] == h[i := s];
    forall j | 0 <= j < |g| && j != i
      ensures s !! g[j]
    {
      assert g[i] !! g[j] && g[j] == h[j] && o.addr !in h[j];
    }
    HoldsAddr(m.addrs, o.addr);
    MemberOnLink(g, i);
    LocalChange(g, i, s, m.link);
    assert r.link == m.link - (g[i] - s) + (s - g[i]);
  }

  lemma {:induction false} MemberOnLink(h: seq<set<Address>>, i: nat)
    requires i < |h|
    ensures h[i] <= Union(h)
  {
  }

  lemma {:induction false} MergeFits(h: seq<set<Address>>, i: nat, m: Merge, offers: seq<Offer>, stop: bool, now: ulong)
    requires Fits(h, i, m.addrs, m.link)
    requires forall o <- offers :: !Elsewhere(h, i, o.addr)
    ensures var r := MergeAll(m, offers, stop, now); Fits(h, i, r.addrs, r.link)
    decreases |offers|
  {
    hide Fits, One, Elsewhere;
    if offers != [] {
      OneFits(h, i, m, offers[0], now);
      MergeFits(h, i, One(m, offers[0], now), offers[1..], stop, now);
    }
  }

  /** Exactly when one offer keeps an agreeing interface in agreement, for any
      holders at all: unless it withdraws an address that someone else also holds. */
  lemma {:induction false} OneOfferExactly(h: seq<set<Address>>, i: nat, m: Merge, o: Offer, now: ulong)
    requires i < |h| && UniqueAddrs(m.addrs) && h[i] == Addrs(m.addrs) && m.link == Union(h)
    ensures var r := One(m, o, now);
            r.link == Union(h[i := Addrs(r.addrs)]) <==> !(Withdraws(m.addrs, o) && Elsewhere(h, i, o.addr))
  {
    hide One;
    OneSets(m, o, now);
    HoldsAddr(m.addrs, o.addr);
    var r := One(m, o, now);
    var g := h[i := Addrs(r.addrs)];
    forall a | a != o.addr
      ensures a in Union(g) <==> a in Union(h)
    {
      if a in Union(h) {
        var j :| 0 <= j < |h| && a in h[j];
        assert a in g[j];
      }
      if a in Union(g) {
        var j :| 0 <= j < |g| && a in g[j];
        assert a in h[j];
      }
    }
    if Elsewhere(h, i, o.addr) {
      var j :| 0 <= j < |h| && j != i && o.addr in h[j];
      assert o.addr in g[j];
    }
    MemberOnLink(g, i);
    MemberOnLink(h, i);
    assert o.addr in Union(g) ==> o.addr in g[i] || Elsewhere(h, i, o.addr);
  }

  // -- what each step keeps ---------------------------------------------------------

  ghost predicate Good(db: Db) {
    db.Sound() && db.Coupled()
  }

  lemma {:induction false} UniqueIdsUpdate(vs: seq<IAView>, k: nat, w: IAView)
    requires UniqueIds(vs) && k < |vs| && w.iaid == vs[k].iaid
    ensures UniqueIds(vs[k := w])
  {
  }

  lemma {:induction false} AllSoundUpdate(vs: seq<IAView>, k: nat, w: IAView)
    requires (forall v <- vs :: v.Sound()) && k < |vs| && w.Sound()
    ensures forall v <- vs[k := w] :: v.Sound()
  {
    hide IAView.Sound;
  }

  lemma {:induction false} AllSoundJoin(db: Db)
    requires (forall v <- db.ias :: v.Sound()) && (forall v <- db.tas :: v.Sound()) && (forall v <- db.pds :: v.Sound())
    ensures forall v <- db.All() :: v.Sound()
  {
    hide IAView.Sound;
  }

  /** Replacing one IA by `w`, with the interface following, keeps everything. */
  lemma {:induction false} ReplaceIA(db: Db, db': Db, k: nat, w: IAView)
    requires Good(db) && k < |db.ias| && db'.ias == db.ias[k := w] && db'.tas == db.tas && db'.pds == db.pds
    requires w.Sound() && w.iaid == db.ias[k].iaid && Fits(db.Held(), k, w.addrs, db'.onLink)
    ensures Good(db')
  {
    assert db'.Held() == db.Held()[k := Addrs(w.addrs)] by { hide Addrs; }
    hide Addrs, Union, Exclusive, IAView.Sound;
    SoundParts(db);
    AllSoundUpdate(db.ias, k, w);
    AllSoundJoin(db');
    UniqueIdsUpdate(db.ias, k, w);
  }

  /** The same for a TA. */
  lemma {:induction false} ReplaceTA(db: Db, db': Db, k: nat, w: IAView)
    requires Good(db) && k < |db.tas| && db'.tas == db.tas[k := w] && db'.ias == db.ias && db'.pds == db.pds
    requires w.Sound() && w.iaid == db.tas[k].iaid && Fits(db.Held(), |db.ias| + k, w.addrs, db'.onLink)
    ensures Good(db')
  {
    assert db'.Held() == db.Held()[|db.ias| + k := Addrs(w.addrs)] by { hide Addrs; }
    hide Addrs, Union, Exclusive, IAView.Sound;
    SoundParts(db);
    AllSoundUpdate(db.tas, k, w);
    AllSoundJoin(db');
    UniqueIdsUpdate(db.tas, k, w);
  }

  lemma {:induction false} MergeKeepsNo(m: Merge, offers: seq<Offer>, stop: bool, now: ulong)
    requires AllNo(m.addrs) || m.added
    ensures var r := MergeAll(m, offers, stop, now); AllNo(r.addrs) || r.added
    decreases |offers|
  {
    if offers != [] {
      OneKeepsNo(m, offers[0], now);
      hide One, AllNo;
      MergeKeepsNo(One(m, offers[0], now), offers[1..], stop, now);
    }
  }

  lemma {:induction false} OneKeepsNo(m: Merge, o: Offer, now: ulong)
    requires AllNo(m.addrs) || m.added
    ensures var r := One(m, o, now); AllNo(r.addrs) || r.added
  {
  }

  lemma {:induction false} FitsSelf(db: Db, i: nat)
    requires Good(db) && i < |db.Holders()|
    ensures Fits(db.Held(), i, db.Holders()[i].addrs, db.onLink)
  {
    assert db.Holders()[i] in db.All();
    assert db.Held()[i := Addrs(db.Holders()[i].addrs)] == db.Held();
  }

  lemma {:induction false} MergedSound(v: IAView, offers: seq<Offer>, link: set<Address>, stop: bool, duid: nat,
                                       now: ulong)
    requires v.Sound()
    ensures var m := MergeAll(Merge(v.addrs, link, false), offers, stop, now);
            UniqueAddrs(m.addrs) ==> Merged(v, m, duid).Sound()
  {
    if v.tentative == No {
      MergeKeepsNo(Merge(v.addrs, link, false), offers, stop, now);
    }
  }

  /** The offers touch no address that another IA or TA holds. */
  ghost predicate Clean(db: Db, i: nat, offers: seq<Offer>) {
    forall o <- offers :: !Elsewhere(db.Held(), i, o.addr)
  }

  lemma {:induction false} ReplyNAGood(db: Db, iaid: nat, offers: seq<Offer>, t: Timing, duid: nat, now: ulong)
    requires Good(db) && Clean(db, IndexOfId(db.ias, iaid), offers)
    ensures Good(ReplyNA(db, iaid, offers, t, duid, now))
  {
    var k := IndexOfId(db.ias, iaid);
    if k < |db.ias| {
      var v := db.ias[k];
      assert db.Holders()[k] == v && v in db.All();
      var m0 := Merge(v.addrs, db.onLink, false);
      var m := MergeAll(m0, offers, true, now);
      FitsSelf(db, k);
      MergeFits(db.Held(), k, m0, offers, true, now);
      MergedSound(v, offers, db.onLink, true, duid, now);
      var w := Renewed(v, m, offers, t, duid, now);
      hide MergeAll, Elsewhere;
      AddrsSame(m.addrs, w.addrs);
      assert w.Sound() by { assert Merged(v, m, duid).Sound(); }
      ReplaceIA(db, ReplyNA(db, iaid, offers, t, duid, now), k, w);
    }
  }

  lemma {:induction false} NewTAGood(db: Db, db': Db, iaid: nat, ifindex: nat, duid: nat, now: ulong)
    requires Good(db) && db' == db.(tas := WithTA(db.tas, iaid, ifindex, duid, now))
    ensures Good(db') && IndexOfId(db.tas, iaid) < |db'.tas| && db'.tas[IndexOfId(db.tas, iaid)].iaid == iaid
    ensures forall i, a :: Elsewhere(db'.Held(), i, a) ==> Elsewhere(db.Held(), i, a)
  {
    SoundParts(db);
    if db' != db {
      var v := NewTA(iaid, ifindex, duid, now);
      assert db'.Holders() == db.Holders() + [v];
      assert Addrs(v.addrs) == {};
      assert db'.Held() == db.Held() + [{}] by { hide Addrs; }
      assert Union(db'.Held()) == Union(db.Held()) by { UnionEmpty(db.Held()); }
      assert v.Sound();
      hide IAView.Sound, Addrs;
      AllSoundJoin(db');
    }
  }

  lemma {:induction false} UnionEmpty(h: seq<set<Address>>)
    ensures Union(h + [{}]) == Union(h)
  {
    forall a | a in Union(h)
      ensures a in Union(h + [{}])
    {
      var i :| 0 <= i < |h| && a in h[i];
      assert a in (h + [{}])[i];
    }
  }

  lemma {:induction false} ReplyTAGood(db: Db, iaid: nat, ifindex: nat, offers: seq<Offer>, duid: nat, now: ulong)
    requires Good(db) && Clean(db, |db.ias| + IndexOfId(db.tas, iaid), offers)
    ensures Good(ReplyTA(db, iaid, ifindex, offers, duid, now))
  {
    var k := IndexOfId(db.tas, iaid);
    var d := db.(tas := WithTA(db.tas, iaid, ifindex, duid, now));
    NewTAGood(db, d, iaid, ifindex, duid, now);
    var v := d.tas[k];
    assert d.Holders()[|d.ias| + k] == v && v in d.All();
    var m0 := Merge(v.addrs, d.onLink, false);
    var m := MergeAll(m0, offers, false, now);
    FitsSelf(d, |d.ias| + k);
    MergeFits(d.Held(), |d.ias| + k, m0, offers, false, now);
    MergedSound(v, offers, d.onLink, false, duid, now);
    hide MergeAll, Elsewhere;
    var w := Merged(v, m, duid).(state := Configured);
    assert w.Sound() by { assert Merged(v, m, duid).Sound(); }
    ReplaceTA(d, ReplyTA(db, iaid, ifindex, offers, duid, now), k, w);
  }

  // -- steps that only remove -------------------------------------------------------

  /** `ws` is `vs` with some addresses gone. */
  ghost predicate Shrunk(vs: seq<IAView>, ws: seq<IAView>) {
    |vs| == |ws| && forall i :: 0 <= i < |vs| ==>
      ws[i].Sound() && ws[i].iaid == vs[i].iaid && Addrs(ws[i].addrs) <= Addrs(vs[i].addrs)
  }

  /** If what left the database left the interface too, they still agree. */
  lemma {:induction false} ShrunkGood(db: Db, db': Db)
    requires Good(db) && Shrunk(db.ias, db'.ias) && Shrunk(db.tas, db'.tas) && forall v <- db'.pds :: v.Sound()
    requires db'.onLink == db.onLink - LostAddrs(db.ias, db'.ias) - LostAddrs(db.tas, db'.tas)
    ensures Good(db')
  {
    hide IAView.Sound, Addrs;
    AllSoundJoin(db');
    var h, h' := db.Held(), db'.Held();
    assert forall i :: 0 <= i < |h| ==> h'[i] <= h[i];
    assert db'.onLink == db.onLink - GoneSets(h, h') by { LostIsGone(db, db'); }
    UnionShrinks(h, h');
  }

  ghost function GoneSets(h: seq<set<Address>>, h': seq<set<Address>>): set<Address>
    requires |h| == |h'|
  {
    set i, a | 0 <= i < |h| && a in h[i] - h'[i] :: a
  }

  lemma {:induction false} LostIsGone(db: Db, db': Db)
    requires |db.ias| == |db'.ias| && |db.tas| == |db'.tas|
    ensures GoneSets(db.Held(), db'.Held()) == LostAddrs(db.ias, db'.ias) + LostAddrs(db.tas, db'.tas)
  {
    hide Addrs;
    var h, h', n := db.Held(), db'.Held(), |db.ias|;
    forall a
      ensures a in GoneSets(h, h') <==> a in LostAddrs(db.ias, db'.ias) + LostAddrs(db.tas, db'.tas)
    {
      if a in LostAddrs(db.ias, db'.ias) {
        var i :| 0 <= i < n && a in Addrs(db.ias[i].addrs) - Addrs(db'.ias[i].addrs);
        assert a in h[i] - h'[i];
      }
      if a in LostAddrs(db.tas, db'.tas) {
        var i :| 0 <= i < |db.tas| && a in Addrs(db.tas[i].addrs) - Addrs(db'.tas[i].addrs);
        assert a in h[n + i] - h'[n + i];
      }
      if a in GoneSets(h, h') {
        var i :| 0 <= i < |h| && a in h[i] - h'[i];
        if i < n {
          assert a in Addrs(db.ias[i].addrs) - Addrs(db'.ias[i].addrs);
        } else {
          assert a in Addrs(db.tas[i - n].addrs) - Addrs(db'.tas[i - n].addrs);
        }
      }
    }
  }

  lemma {:induction false} UnionShrinks(h: seq<set<Address>>, h': seq<set<Address>>)
    requires |h| == |h'| && Exclusive(h) && forall i :: 0 <= i < |h| ==> h'[i] <= h[i]
    ensures Exclusive(h') && Union(h') == Union(h) - GoneSets(h, h')
  {
    forall a
      ensures a in Union(h') <==> a in Union(h) && a !in GoneSets(h, h')
    {
      if a in Union(h') {
        var i :| 0 <= i < |h| && a in h'[i];
        assert a in h[i];
        assert forall j :: 0 <= j < |h| && a in h[j] ==> j == i;
      }
      if a in Union(h) {
        var i :| 0 <= i < |h| && a in h[i];
        if a !in h'[i] {
          assert a in h[i] - h'[i];
        }
      }
    }
  }

  lemma {:induction false} SweptShrinks(vs: seq<IAView>, now: ulong)
    requires forall v <- vs :: v.Sound()
    ensures Shrunk(vs, SweptAll(vs, false, now))
    ensures LostAddrs(vs, SweptAll(vs, false, now)) == DeadIn(vs, |vs|, now)
  {
    var ws := SweptAll(vs, false, now);
    forall i | 0 <= i < |vs|
      ensures ws[i].Sound() && ws[i].iaid == vs[i].iaid
      ensures Addrs(ws[i].addrs) == Addrs(vs[i].addrs) - Dead(vs[i].addrs, now) &&
              Dead(vs[i].addrs, now) <= Addrs(vs[i].addrs)
    {
      SweptOne(vs[i], now);
    }
    hide SweptAll, Addrs, Dead;
    forall a
      ensures a in LostAddrs(vs, ws) <==> a in DeadIn(vs, |vs|, now)
    {
      if a in DeadIn(vs, |vs|, now) {
        var i :| 0 <= i < |vs| && a in Dead(vs[i].addrs, now);
        assert a in Addrs(vs[i].addrs) - Addrs(ws[i].addrs);
      }
    }
  }

  lemma {:induction false} SweptOne(v: IAView, now: ulong)
    requires v.Sound()
    ensures Swept(v, now).Sound()
    ensures Addrs(Live(v.addrs, now)) == Addrs(v.addrs) - Dead(v.addrs, now) && Dead(v.addrs, now) <= Addrs(v.addrs)
  {
    hide Live;
    var s, r := v.addrs, Live(v.addrs, now);
    LiveMeaning(s, now);
    assert forall i :: 0 <= i < |r| ==> r[i] in r;
    forall a
      ensures a in Addrs(r) <==> a in Addrs(s) && a !in Dead(s, now)
    {
      if a in Addrs(s) && a !in Dead(s, now) {
        var l :| l in s && l.addr == a;
        assert l in r;
      }
      if a in Addrs(r) {
        var l :| l in r && l.addr == a;
        forall m | m in s && m.addr == a
          ensures m == l
        {
          SameLease(s, l, m);
        }
      }
    }
  }

  lemma {:induction false} ExpireGood(db: Db, now: ulong)
    requires Good(db)
    ensures Good(Expire(db, now))
  {
    hide SweptAll, DeadIn, RanOutIds, LostAddrs, Shrunk, IAView.Sound;
    SoundParts(db);
    SweptShrinks(db.ias, now);
    SweptShrinks(db.tas, now);
    SweptPdsSound(db.pds, now);
    ShrunkGood(db, Expire(db, now));
  }

  lemma {:induction false} SweptPdsSound(vs: seq<IAView>, now: ulong)
    requires forall v <- vs :: v.Sound()
    ensures forall v <- SweptAll(vs, true, now) :: v.Sound()
  {
    forall i | 0 <= i < |vs|
      ensures SweptPd(vs[i], now).Sound()
    {
      assert vs[i] in vs;
      LiveMeaning(vs[i].prefixes, now);
    }
  }

  /** The sweep and then the database's own pass. */
  lemma {:induction false} ExpiryPassGood(db: Db, now: ulong)
    requires Good(db)
    ensures Good(Tidy(Expire(db, now), now))
  {
    var e := Expire(db, now);
    var t := Tidy(e, now);
    TidyDeletesNothing(db, now);
    hide Expire;
    ExpireGood(db, now);
    SoundParts(e);
    forall i | 0 <= i < |e.ias|
      ensures t.ias[i].Sound() && t.ias[i].iaid == e.ias[i].iaid && t.ias[i].addrs == e.ias[i].addrs
    {
      assert e.ias[i] in e.ias;
    }
    hide Tidied, IAView.Sound, Addrs;
    assert forall v :: v in e.tas ==> v.Sound();
    NothingLostPlain(e.tas);
    assert LostAddrs(e.ias, t.ias) == {};
    ShrunkGood(e, t);
  }

  lemma {:induction false} NothingLostPlain(vs: seq<IAView>)
    requires forall v <- vs :: v.Sound()
    ensures Shrunk(vs, vs) && LostAddrs(vs, vs) == {}
  {
    hide IAView.Sound, Addrs;
    assert forall i :: 0 <= i < |vs| ==> vs[i] in vs;
  }

  lemma {:induction false} DeclineGood(db: Db, db': Db, d: Dad)
    requires Good(db) && Within(db.ias, db'.ias, d) && db'.tas == db.tas && db'.pds == db.pds
    requires db'.onLink == db.onLink - LostAddrs(db.ias, db'.ias)
    ensures Good(db')
  {
    SoundParts(db);
    NothingLostPlain(db.tas);
    forall i | 0 <= i < |db.ias|
      ensures Addrs(db'.ias[i].addrs) <= Addrs(db.ias[i].addrs)
    {
      ThinnedHeld(db.ias[i], db'.ias[i], d);
    }
    hide IAView.Sound, Addrs;
    assert Shrunk(db.ias, db'.ias);
    ShrunkGood(db, db');
  }

  lemma {:induction false} ReleaseGood(db: Db, iaid: nat)
    requires Good(db)
    ensures Good(Release(db, iaid))
  {
    var k := IndexOfId(db.ias, iaid);
    if k < |db.ias| {
      var v, h := db.ias[k], db.Held();
      assert db.Holders()[k] == v && v in db.All();
      var w := v.(addrs := [], state := NotConfigured);
      MemberOnLink(h, k);
      assert h[k] == Addrs(v.addrs) && Addrs(w.addrs) == {};
      LocalChange(h, k, {}, db.onLink);
      ReplaceIA(db, Release(db, iaid), k, w);
    }
  }

  lemma {:induction false} AcceptGood(db: Db, iaid: nat, ts: ulong)
    requires Good(db)
    ensures Good(Accept(db, iaid, ts))
  {
    var k := IndexOfId(db.ias, iaid);
    if k < |db.ias| {
      var v, h := db.ias[k], db.Held();
      assert db.Holders()[k] == v && v in db.All();
      var w := v.(addrs := Restamped(v.addrs, ts), timestamp := ts, state := Configured);
      AddrsSame(v.addrs, w.addrs);
      MemberOnLink(h, k);
      FitsSelf(db, k);
      assert db.onLink + Addrs(v.addrs) == db.onLink;
      ReplaceIA(db, Accept(db, iaid, ts), k, w);
    }
  }

  lemma {:induction false} WithStateGood(db: Db, iaid: nat, s: EState)
    requires Good(db)
    ensures Good(WithState(db, iaid, s))
  {
    var k := IndexOfId(db.ias, iaid);
    if k < |db.ias| {
      var v := db.ias[k];
      assert db.Holders()[k] == v && v in db.All();
      FitsSelf(db, k);
      ReplaceIA(db, WithState(db, iaid, s), k, v.(state := s));
    }
  }

  // -- runs ---------------------------------------------------------------------------

  datatype Event =
    | GotNA(iaid: nat, offers: seq<Offer>, t: Timing, duid: nat, now: ulong)
    | GotTA(iaid: nat, ifindex: nat, offers: seq<Offer>, duid: nat, now: ulong)
    | ExpiryPass(now: ulong)
    | DeclinePass(d: Dad)
    | RebindFailed(iaid: nat)
    | Rejected(iaid: nat)
    | Accepted(iaid: nat, ts: ulong)
    | Restated(iaid: nat, s: EState)

  /** One step of the client.  A reply offers no address that another IA or TA holds;
      the answers of the operating system during a decline pass are arbitrary. */
  ghost predicate Next(db: Db, e: Event, db': Db) {
    match e
    case GotNA(iaid, offers, t, duid, now) =>
      Clean(db, IndexOfId(db.ias, iaid), offers) && db' == ReplyNA(db, iaid, offers, t, duid, now)
    case GotTA(iaid, ifindex, offers, duid, now) =>
      Clean(db, |db.ias| + IndexOfId(db.tas, iaid), offers) && db' == ReplyTA(db, iaid, ifindex, offers, duid, now)
    case ExpiryPass(now) => db' == Tidy(Expire(db, now), now)
    case DeclinePass(d) =>
      && Within(db.ias, db'.ias, d)
      && db' == db.(ias := db'.ias, onLink := db.onLink - LostAddrs(db.ias, db'.ias))
    case RebindFailed(iaid) => db' == Release(db, iaid)
    case Rejected(iaid) => db' == Release(db, iaid)
    case Accepted(iaid, ts) => db' == Accept(db, iaid, ts)
    case Restated(iaid, s) => db' == WithState(db, iaid, s)
  }

  lemma {:induction false} NextGood(db: Db, e: Event, db': Db)
    requires Good(db) && Next(db, e, db')
    ensures Good(db')
  {
    hide Good, Clean, ReplyNA, ReplyTA, Expire, Tidy, Within, LostAddrs, Release, Accept, WithState;
    match e
    case GotNA(iaid, offers, t, duid, now) => ReplyNAGood(db, iaid, offers, t, duid, now);
    case GotTA(iaid, ifindex, offers, duid, now) => ReplyTAGood(db, iaid, ifindex, offers, duid, now);
    case ExpiryPass(now) => ExpiryPassGood(db, now);
    case DeclinePass(d) => DeclineGood(db, db', d);
    case RebindFailed(iaid) => ReleaseGood(db, iaid);
    case Rejected(iaid) => ReleaseGood(db, iaid);
    case Accepted(iaid, ts) => AcceptGood(db, iaid, ts);
    case Restated(iaid, s) => WithStateGood(db, iaid, s);
  }

  /** IAs, TAs and PDs as the configuration creates them: nothing leased yet. */
  ghost predicate Start(db: Db) {
    && (forall v <- db.All() :: v.addrs == [] && v.prefixes == [])
    && UniqueIds(db.ias) && UniqueIds(db.tas) && db.onLink == {}
  }

  ghost predicate IsRun(dbs: seq<Db>, es: seq<Event>) {
    |dbs| == |es| + 1 && Start(dbs[0]) && forall k :: 0 <= k < |es| ==> Next(dbs[k], es[k], dbs[k + 1])
  }

  lemma {:induction false} StartGood(db: Db)
    requires Start(db)
    ensures Good(db)
  {
    forall i | 0 <= i < |db.Holders()|
      ensures db.Held()[i] == {}
    {
      assert db.Holders()[i] in db.All();
    }
  }

  /** In every state of every run the interface shows exactly the addresses in the
      database, no address is held twice, leases are unique in each IA, TA and PD, and
      every cached "no duplicate" is true. */
  lemma {:induction false} RunGood(dbs: seq<Db>, es: seq<Event>, k: nat)
    requires IsRun(dbs, es) && k < |dbs|
    ensures dbs[k].Sound() && dbs[k].onLink == Union(dbs[k].Held())
  {
    hide Start, Next;
    if k == 0 {
      StartGood(dbs[0]);
    } else {
      RunGood(dbs, es, k - 1);
      assert Good(dbs[k - 1]);
      NextGood(dbs[k - 1], es[k - 1], dbs[k]);
    }
  }

  /** `removeExpired` has to come first: the database's own pass alone keeps the
      agreement exactly when no address of an IA has expired. */
  lemma {:induction false} TidyAloneExactly(db: Db, now: ulong)
    requires Good(db)
    ensures Tidy(db, now).Coupled() <==> forall v <- db.ias :: Dead(v.addrs, now) == {}
  {
    var t := Tidy(db, now);
    var h, h' := db.Held(), t.Held();
    TidyHeld(db, now);
    hide Addrs, Dead, Tidied;
    UnionShrinks(h, h');
    GoneOnLink(h, h');
    if forall v <- db.ias :: Dead(v.addrs, now) == {} {
      assert forall i :: 0 <= i < |db.ias| ==> db.ias[i] in db.ias;
      assert forall i :: 0 <= i < |h| ==> h'[i] == h[i];
      assert GoneSets(h, h') == {};
    } else {
      var v :| v in db.ias && Dead(v.addrs, now) != {};
      var i :| 0 <= i < |db.ias| && db.ias[i] == v;
      var a :| a in Dead(v.addrs, now);
      assert a in h[i] - h'[i];
      assert a in GoneSets(h, h');
    }
  }

  lemma {:induction false} TidyHeld(db: Db, now: ulong)
    requires Good(db)
    ensures var h, h' := db.Held(), Tidy(db, now).Held();
            |h'| == |h| && forall i :: 0 <= i < |h| ==>
              if i >= |db.ias| then h'[i] == h[i]
              else h'[i] == h[i] - Dead(db.ias[i].addrs, now) && Dead(db.ias[i].addrs, now) <= h[i]
  {
    SoundParts(db);
    forall i | 0 <= i < |db.ias|
      ensures Addrs(Tidied(db.ias[i], now).addrs) == Addrs(db.ias[i].addrs) - Dead(db.ias[i].addrs, now)
      ensures Dead(db.ias[i].addrs, now) <= Addrs(db.ias[i].addrs)
    {
      assert db.ias[i] in db.ias;
      SweptOne(db.ias[i], now);
    }
    hide Addrs, Dead, Tidied;
  }

  lemma {:induction false} GoneOnLink(h: seq<set<Address>>, h': seq<set<Address>>)
    requires |h| == |h'|
    ensures Union(h) == Union(h) - GoneSets(h, h') <==> GoneSets(h, h') == {}
  {
    assert GoneSets(h, h') <= Union(h);
  }

  // -- the code performs these steps ------------------------------------------------------

  /** What a reply must satisfy for a step to be one of `Next`. */
  ghost predicate Allowed(db: Db, e: Event) {
    && (e.GotNA? ==> Clean(db, IndexOfId(db.ias, e.iaid), e.offers))
    && (e.GotTA? ==> Clean(db, |db.ias| + IndexOfId(db.tas, e.iaid), e.offers))
  }

  /** The methods that model the code carry out exactly such a step. */
  method Perform(c: Client, e: Event, ghost db: Db) returns (ghost db': Db)
    requires c.Separated() && c.Is(db) && Good(db) && Allowed(db, e)
    modifies c, {c.IAsLst, c.TALst, c.PDLst}, c.iface, c.Members()
    ensures c.Separated() && c.Is(db') && Next(db, e, db') && Good(db')
  {
    hide Clean, ReplyNA, ReplyTA, Expire, Tidy, LostAddrs, Release, Accept, WithState, Shows, Thinned;
    db' := db;
    match e {
    case GotNA(iaid, offers, t, duid, now) =>
      OnReplyNA(c, iaid, offers, t, duid, now, db);
      db' := ReplyNA(db, iaid, offers, t, duid, now);
    case GotTA(iaid, ifindex, offers, duid, now) =>
      OnReplyTA(c, iaid, ifindex, offers, duid, now, db);
      db' := ReplyTA(db, iaid, ifindex, offers, duid, now);
    case ExpiryPass(now) =>
      ExpireGood(db, now);
      RemoveExpired(c, now, db);
      AddrMgrDuties(c, now, Expire(db, now));
      db' := Tidy(Expire(db, now), now);
    case DeclinePass(d) =>
      SoundSeq(db);
      var sent, cur := CheckDecline(c.IAsLst, c.iface, d, db.ias);
      db' := db.(ias := cur, onLink := db.onLink - LostAddrs(db.ias, cur));
    case RebindFailed(iaid) =>
      SoundSeq(db);
      ReleaseIA(c, iaid, db);
      db' := Release(db, iaid);
    case Rejected(iaid) =>
      SoundSeq(db);
      ReleaseIA(c, iaid, db);
      db' := Release(db, iaid);
    case Accepted(iaid, ts) =>
      AcceptIA(c, iaid, ts, db);
      db' := Accept(db, iaid, ts);
    case Restated(iaid, s) =>
      SetIAState(c, iaid, s, db);
      db' := WithState(db, iaid, s);
    }
    NextGood(db, e, db');
  }

  lemma {:induction false} SoundSeq(db: Db)
    requires db.Sound()
    ensures AllSound(db.ias) && forall v <- db.ias :: UniqueAddrs(v.addrs)
  {
    SoundParts(db);
    assert forall i :: 0 <= i < |db.ias| ==> db.ias[i] in db.ias;
  }
}
