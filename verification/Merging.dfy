/** What a received IA_NA or IA_TA leaves in the database, lease by lease and field by
    field: ClntOptions/ClntOptIA_NA.cpp and ClntOptTA.cpp `doDuties`. */
module Merging {
  import opened Containers
  import opened Leases
  import opened AddressIA
  import opened LeaseDb
  import opened Doubles
  import opened Replies

  // -- the terms of the statements ------------------------------------------------------------

  /** The address is held when the first `n` offers have been read: it was offered and not
      withdrawn, or it was held all along. */
  ghost predicate HeldAt(held: set<Address>, offers: seq<Offer>, n: nat, a: Address)
    requires n <= |offers|
  {
    || (exists h :: 0 <= h < n && offers[h].addr == a && offers[h].valid != 0 && NotNamed(offers, h + 1, n, a))
    || (a in held && NotNamed(offers, 0, n, a))
  }

  ghost predicate NotNamed(offers: seq<Offer>, from: nat, to: nat, a: Address)
    requires to <= |offers|
  {
    forall i :: from <= i < to ==> offers[i].addr != a
  }

  /** Offer `i` withdraws an address that is held. */
  ghost predicate Withdrawal(held: set<Address>, offers: seq<Offer>, i: nat)
    requires i < |offers|
  {
    offers[i].valid == 0 && HeldAt(held, offers, i, offers[i].addr)
  }

  /** An IA_NA is read up to and including its first withdrawal, an IA_TA to the end. */
  ghost predicate Read(held: set<Address>, offers: seq<Offer>, stop: bool, i: nat)
    requires i < |offers|
  {
    stop ==> forall h :: 0 <= h < i ==> !Withdrawal(held, offers, h)
  }

  /** Offer `j` is read, and is the last one read for its address. */
  ghost predicate Decides(held: set<Address>, offers: seq<Offer>, stop: bool, j: nat) {
    && j < |offers| && Read(held, offers, stop, j)
    && forall i :: j < i < |offers| && Read(held, offers, stop, i) ==> offers[i].addr != offers[j].addr
  }

  /** No offer that is read is for the address. */
  ghost predicate Unread(held: set<Address>, offers: seq<Offer>, stop: bool, a: Address) {
    forall i :: 0 <= i < |offers| && Read(held, offers, stop, i) ==> offers[i].addr != a
  }

  /** Exactly one lease of that address, with these lifetimes, begun at `now`. */
  ghost predicate Stored(s: seq<Lease>, a: Address, pref: ulong, valid: ulong, now: ulong) {
    exists i :: 0 <= i < |s| && s[i].addr == a && s[i].pref == pref && s[i].valid == valid && s[i].timestamp == now
                && forall j :: 0 <= j < |s| && s[j].addr == a ==> j == i
  }

  // -- one offer --------------------------------------------------------------------------------

  lemma {:induction false} OneUnique(m: Merge, o: Offer, now: ulong)
    requires UniqueAddrs(m.addrs)
    ensures UniqueAddrs(One(m, o, now).addrs)
  {
    DeletedMeaning(m.addrs, o.addr);
  }

  lemma {:induction false} OneOthers(m: Merge, o: Offer, now: ulong, l: Lease)
    requires UniqueAddrs(m.addrs) && l.addr != o.addr
    ensures l in One(m, o, now).addrs <==> l in m.addrs
  {
    DeletedMeaning(m.addrs, o.addr);
    var k := IndexOf(m.addrs, o.addr);
    var s := One(m, o, now).addrs;
    hide Deleted;
    if k < |m.addrs| && o.valid != 0 {
      assert |s| == |m.addrs| && forall i :: 0 <= i < |s| && i != k ==> s[i] == m.addrs[i];
      assert s[k].addr == o.addr;
    }
  }

  /** What the offer's own address is left with. */
  lemma {:induction false} OneOwn(m: Merge, o: Offer, now: ulong)
    requires UniqueAddrs(m.addrs)
    ensures o.valid == 0 ==> o.addr !in Addrs(One(m, o, now).addrs)
    ensures o.valid != 0 && o.addr !in Addrs(m.addrs) ==>
              Lease(o.addr, o.length, o.pref, o.valid, now, Unknown) in One(m, o, now).addrs
    ensures forall l :: o.valid != 0 && l in m.addrs && l.addr == o.addr ==>
              Lease(o.addr, l.length, o.pref, o.valid, now, l.tentative) in One(m, o, now).addrs
  {
    DeletedMeaning(m.addrs, o.addr);
    HeldIndex(m.addrs, o.addr);
    var k := IndexOf(m.addrs, o.addr);
    var s := One(m, o, now).addrs;
    hide Deleted;
    forall l | o.valid != 0 && l in m.addrs && l.addr == o.addr
      ensures Lease(o.addr, l.length, o.pref, o.valid, now, l.tentative) in s
    {
      SameLease(m.addrs, l, m.addrs[k]);
      assert s[k] == Lease(o.addr, l.length, o.pref, o.valid, now, l.tentative);
    }
    if o.valid != 0 && o.addr !in Addrs(m.addrs) {
      assert s[|m.addrs|] == Lease(o.addr, o.length, o.pref, o.valid, now, Unknown);
    }
  }

  lemma {:induction false} HeldIndex(s: seq<Lease>, a: Address)
    ensures IndexOf(s, a) < |s| <==> a in Addrs(s)
  {
    var k := IndexOf(s, a);
    if k < |s| {
      assert s[k] in s;
    }
  }

  // -- all offers ---------------------------------------------------------------------------------

  /** The merge of the first `n` offers, without a stop. */
  function Upto(m: Merge, offers: seq<Offer>, n: nat, now: ulong): Merge
    requires n <= |offers|
  {
    MergeAll(m, offers[..n], false, now)
  }

  lemma {:induction false} MergeSnoc(m: Merge, offers: seq<Offer>, o: Offer, now: ulong)
    ensures MergeAll(m, offers + [o], false, now) == One(MergeAll(m, offers, false, now), o, now)
    decreases |offers|
  {
    if offers == [] {
      assert (offers + [o])[1..] == [];
    } else {
      assert (offers + [o])[1..] == offers[1..] + [o];
      MergeSnoc(One(m, offers[0], now), offers[1..], o, now);
    }
  }

  lemma {:induction false} UptoNext(m: Merge, offers: seq<Offer>, n: nat, now: ulong)
    requires n < |offers|
    ensures Upto(m, offers, n + 1, now) == One(Upto(m, offers, n, now), offers[n], now)
  {
    assert offers[..n + 1] == offers[..n] + [offers[n]];
    MergeSnoc(m, offers[..n], offers[n], now);
  }

  lemma {:induction false} UptoUnique(m: Merge, offers: seq<Offer>, n: nat, now: ulong)
    requires n <= |offers| && UniqueAddrs(m.addrs)
    ensures UniqueAddrs(Upto(m, offers, n, now).addrs)
  {
    if n > 0 {
      UptoUnique(m, offers, n - 1, now);
      UptoNext(m, offers, n - 1, now);
      OneUnique(Upto(m, offers, n - 1, now), offers[n - 1], now);
    }
  }

  lemma {:induction false} UptoUnnamed(m: Merge, offers: seq<Offer>, from: nat, n: nat, now: ulong, l: Lease)
    requires from <= n <= |offers| && UniqueAddrs(m.addrs) && NotNamed(offers, from, n, l.addr)
    ensures l in Upto(m, offers, n, now).addrs <==> l in Upto(m, offers, from, now).addrs
    decreases n
  {
    if from < n {
      UptoUnnamed(m, offers, from, n - 1, now, l);
      UptoUnique(m, offers, n - 1, now);
      UptoNext(m, offers, n - 1, now);
      OneOthers(Upto(m, offers, n - 1, now), offers[n - 1], now, l);
    }
  }

  lemma {:induction false} UptoHeld(m: Merge, offers: seq<Offer>, n: nat, now: ulong, a: Address)
    requires n <= |offers| && UniqueAddrs(m.addrs)
    ensures a in Addrs(Upto(m, offers, n, now).addrs) <==> HeldAt(Addrs(m.addrs), offers, n, a)
  {
    if n == 0 {
      assert offers[..0] == [];
    } else {
      var before, o := Upto(m, offers, n - 1, now), offers[n - 1];
      UptoHeld(m, offers, n - 1, now, a);
      UptoUnique(m, offers, n - 1, now);
      UptoNext(m, offers, n - 1, now);
      OneHeld(before, o, now, a);
      HeldNext(Addrs(m.addrs), offers, n - 1, a);
    }
  }

  lemma {:induction false} OneHeld(m: Merge, o: Offer, now: ulong, a: Address)
    requires UniqueAddrs(m.addrs)
    ensures a in Addrs(One(m, o, now).addrs) <==> if a == o.addr then o.valid != 0 else a in Addrs(m.addrs)
  {
    OneOwn(m, o, now);
    var s := One(m, o, now).addrs;
    if a == o.addr {
      if o.valid != 0 && a in Addrs(m.addrs) {
        var l :| l in m.addrs && l.addr == a;
        assert Lease(o.addr, l.length, o.pref, o.valid, now, l.tentative) in s;
      }
    } else {
      hide One;
      forall l: Lease | l.addr == a
        ensures l in s <==> l in m.addrs
      {
        OneOthers(m, o, now, l);
      }
    }
  }

  lemma {:induction false} HeldNext(held: set<Address>, offers: seq<Offer>, n: nat, a: Address)
    requires n < |offers|
    ensures HeldAt(held, offers, n + 1, a) <==>
            if offers[n].addr == a then offers[n].valid != 0 else HeldAt(held, offers, n, a)
  {
    if offers[n].addr == a {
      if offers[n].valid != 0 {
        assert NotNamed(offers, n + 1, n + 1, a);
      }
    } else {
      forall from: nat | from <= n
        ensures NotNamed(offers, from, n + 1, a) <==> NotNamed(offers, from, n, a)
      {
      }
    }
  }

  // -- where an IA_NA stops -------------------------------------------------------------------------

  /** How far it is read, in the terms above. */
  lemma {:induction false} ReachExactly(m: Merge, offers: seq<Offer>, now: ulong, i: nat)
    requires i < |offers| && UniqueAddrs(m.addrs)
    ensures i < Reach(m, offers, now) <==> Read(Addrs(m.addrs), offers, true, i)
  {
    ReachUpto(m, offers, now, i);
    forall h | 0 <= h < i
      ensures Withdraws(Upto(m, offers, h, now).addrs, offers[h]) <==> Withdrawal(Addrs(m.addrs), offers, h)
    {
      UptoHeld(m, offers, h, now, offers[h].addr);
      HeldIndex(Upto(m, offers, h, now).addrs, offers[h].addr);
    }
  }

  lemma {:induction false} ReachUpto(m: Merge, offers: seq<Offer>, now: ulong, i: nat)
    requires i < |offers|
    ensures i < Reach(m, offers, now) <==>
            forall h :: 0 <= h < i ==> !Withdraws(Upto(m, offers, h, now).addrs, offers[h])
    decreases |offers|
  {
    assert offers[..0] == [];
    if Withdraws(m.addrs, offers[0]) {
      assert Upto(m, offers, 0, now) == m;
    } else if i > 0 {
      var next, rest := One(m, offers[0], now), offers[1..];
      ReachUpto(next, rest, now, i - 1);
      hide One, Withdraws;
      forall h: nat | 0 < h < i
        ensures Upto(m, offers, h, now) == Upto(next, rest, h - 1, now) && offers[h] == rest[h - 1]
      {
        assert offers[..h][0] == offers[0] && offers[..h][1..] == rest[..h - 1];
      }
      assert Upto(m, offers, 0, now) == m;
      if forall h :: 0 <= h < i ==> !Withdraws(Upto(m, offers, h, now).addrs, offers[h]) {
        forall h | 0 <= h < i - 1
          ensures !Withdraws(Upto(next, rest, h, now).addrs, rest[h])
        {
          assert Upto(m, offers, h + 1, now) == Upto(next, rest, h, now) && offers[h + 1] == rest[h];
        }
      }
    } else {
      ReachPositive(m, offers, now);
    }
  }

  /** How many offers are read. */
  ghost function Extent(m: Merge, offers: seq<Offer>, stop: bool, now: ulong): (n: nat)
    ensures n <= |offers|
  {
    if stop then Reach(m, offers, now) else |offers|
  }

  lemma {:induction false} ExtentExactly(m: Merge, offers: seq<Offer>, stop: bool, now: ulong)
    requires UniqueAddrs(m.addrs)
    ensures MergeAll(m, offers, stop, now) == Upto(m, offers, Extent(m, offers, stop, now), now)
    ensures forall i :: 0 <= i < |offers| ==>
              (i < Extent(m, offers, stop, now) <==> Read(Addrs(m.addrs), offers, stop, i))
  {
    if stop {
      StopsAtWithdrawal(m, offers, now);
      forall i | 0 <= i < |offers|
        ensures i < Reach(m, offers, now) <==> Read(Addrs(m.addrs), offers, stop, i)
      {
        ReachExactly(m, offers, now, i);
      }
    } else {
      assert offers[..|offers|] == offers;
    }
  }

  // -- what is merged ---------------------------------------------------------------------------------

  /** The address of the deciding offer: gone if it withdraws it, and otherwise one lease
      with its lifetimes, new or with the length and status it had. */
  lemma {:induction false} MergedOwn(m: Merge, offers: seq<Offer>, stop: bool, now: ulong, j: nat)
    requires UniqueAddrs(m.addrs) && Decides(Addrs(m.addrs), offers, stop, j)
    ensures var s := MergeAll(m, offers, stop, now).addrs; var o := offers[j];
            && UniqueAddrs(s)
            && (o.valid == 0 ==> o.addr !in Addrs(s))
            && (o.valid != 0 && !HeldAt(Addrs(m.addrs), offers, j, o.addr) ==>
                  Lease(o.addr, o.length, o.pref, o.valid, now, Unknown) in s)
            && (o.valid != 0 ==>
                  exists l :: l in s && l.addr == o.addr && l.pref == o.pref && l.valid == o.valid
                              && l.timestamp == now)
            && forall l :: o.valid != 0 && l in m.addrs && l.addr == o.addr && NotNamed(offers, 0, j, o.addr) ==>
                 Lease(o.addr, l.length, o.pref, o.valid, now, l.tentative) in s
  {
    var n, o := Extent(m, offers, stop, now), offers[j];
    ExtentExactly(m, offers, stop, now);
    var before, after := Upto(m, offers, j, now), Upto(m, offers, j + 1, now);
    UptoUnique(m, offers, j, now);
    UptoUnique(m, offers, n, now);
    UptoNext(m, offers, j, now);
    OneOwn(before, o, now);
    UptoHeld(m, offers, j, now, o.addr);
    hide One, MergeAll, HeldAt, Read, Extent;
    assert NotNamed(offers, j + 1, n, o.addr);
    forall l: Lease | l.addr == o.addr
      ensures l in Upto(m, offers, n, now).addrs <==> l in after.addrs
    {
      UptoUnnamed(m, offers, j + 1, n, now, l);
    }
    forall l | l in m.addrs && l.addr == o.addr && NotNamed(offers, 0, j, o.addr)
      ensures l in before.addrs
    {
      UptoUnnamed(m, offers, 0, j, now, l);
      UptoZero(m, offers, now);
    }
    if o.valid != 0 && o.addr in Addrs(before.addrs) {
      var l :| l in before.addrs && l.addr == o.addr;
      assert Lease(o.addr, l.length, o.pref, o.valid, now, l.tentative) in after.addrs;
    }
  }

  lemma {:induction false} UptoZero(m: Merge, offers: seq<Offer>, now: ulong)
    ensures Upto(m, offers, 0, now) == m
  {
    assert offers[..0] == [];
  }

  lemma {:induction false} MergedUnread(m: Merge, offers: seq<Offer>, stop: bool, now: ulong, l: Lease)
    requires UniqueAddrs(m.addrs) && Unread(Addrs(m.addrs), offers, stop, l.addr)
    ensures l in MergeAll(m, offers, stop, now).addrs <==> l in m.addrs
  {
    var n := Extent(m, offers, stop, now);
    ExtentExactly(m, offers, stop, now);
    UptoZero(m, offers, now);
    hide MergeAll, Read, Extent;
    assert NotNamed(offers, 0, n, l.addr);
    UptoUnnamed(m, offers, 0, n, now, l);
  }

  /** A new address was read. */
  ghost predicate Gains(held: set<Address>, offers: seq<Offer>, stop: bool) {
    exists j :: 0 <= j < |offers| && Read(held, offers, stop, j) && offers[j].valid != 0
                && !HeldAt(held, offers, j, offers[j].addr)
  }

  lemma {:induction false} UptoAdded(m: Merge, offers: seq<Offer>, n: nat, now: ulong)
    requires n <= |offers| && UniqueAddrs(m.addrs)
    ensures Upto(m, offers, n, now).added <==>
            || m.added
            || exists j :: 0 <= j < n && offers[j].valid != 0
                           && !HeldAt(Addrs(m.addrs), offers, j, offers[j].addr)
  {
    if n == 0 {
      UptoZero(m, offers, now);
    } else {
      UptoAdded(m, offers, n - 1, now);
      UptoNext(m, offers, n - 1, now);
      UptoHeld(m, offers, n - 1, now, offers[n - 1].addr);
      HeldIndex(Upto(m, offers, n - 1, now).addrs, offers[n - 1].addr);
      hide HeldAt, MergeAll;
    }
  }

  lemma {:induction false} MergedAdded(m: Merge, offers: seq<Offer>, stop: bool, now: ulong)
    requires UniqueAddrs(m.addrs) && !m.added
    ensures MergeAll(m, offers, stop, now).added <==> Gains(Addrs(m.addrs), offers, stop)
  {
    var n := Extent(m, offers, stop, now);
    ExtentExactly(m, offers, stop, now);
    UptoAdded(m, offers, n, now);
    hide HeldAt, MergeAll, Read, Extent, Upto;
  }

  // -- a received IA_NA ---------------------------------------------------------------------------------

  lemma {:induction false} RestampedHas(s: seq<Lease>, now: ulong, l: Lease)
    ensures l in s ==> l.(timestamp := now) in Restamped(s, now)
    ensures l in Restamped(s, now) ==> l.timestamp == now && exists x :: x in s && l == x.(timestamp := now)
    ensures Addrs(Restamped(s, now)) == Addrs(s) && (UniqueAddrs(s) ==> UniqueAddrs(Restamped(s, now)))
  {
    var r := Restamped(s, now);
    if l in s {
      var i :| 0 <= i < |s| && s[i] == l;
      assert r[i] == l.(timestamp := now);
    }
    assert forall i :: 0 <= i < |s| ==> r[i].addr == s[i].addr && s[i] in s && r[i] in r;
    forall a
      ensures a in Addrs(r) <==> a in Addrs(s)
    {
      if x :| x in s && x.addr == a {
        var i :| 0 <= i < |s| && s[i] == x;
        assert r[i] in r && r[i].addr == a;
      }
      if x :| x in r && x.addr == a {
        var i :| 0 <= i < |r| && r[i] == x;
        assert s[i] in s && s[i].addr == a;
      }
    }
  }

  lemma {:induction false} StoredBy(s: seq<Lease>, l: Lease)
    requires UniqueAddrs(s) && l in s
    ensures Stored(s, l.addr, l.pref, l.valid, l.timestamp)
  {
    var i :| 0 <= i < |s| && s[i] == l;
  }

  /** A lease begun now expires exactly when its valid lifetime is over. */
  lemma {:induction false} StoredExpires(s: seq<Lease>, a: Address, pref: ulong, valid: ulong, now: ulong)
    requires Stored(s, a, pref, valid, now)
    ensures forall l, t: ulong :: l in s && l.addr == a ==> (Expired(l, t) <==> now + valid <= t)
  {
    forall l, t: ulong | l in s && l.addr == a
      ensures Expired(l, t) <==> now + valid <= t
    {
      TimeLeftMeaning(now, valid, t);
    }
  }

  ghost predicate HasIA(db: Db, iaid: nat) {
    IndexOfId(db.ias, iaid) < |db.ias| && UniqueAddrs(db.ias[IndexOfId(db.ias, iaid)].addrs)
  }

  /** The offer that decides about an address: if it withdraws the address, that is gone.
      Otherwise the IA has exactly one lease of it, begun now, with the preferred and valid
      lifetimes offered, so that it expires exactly when the valid lifetime is over.  A new
      one has the length offered and is still to be checked for duplicates; one held all
      along keeps its length and status. */
  lemma {:induction false} OfferDecides(db: Db, iaid: nat, offers: seq<Offer>, t: Timing, duid: nat, now: ulong, j: nat)
    requires HasIA(db, iaid)
    requires Decides(Addrs(db.ias[IndexOfId(db.ias, iaid)].addrs), offers, true, j)
    ensures var k := IndexOfId(db.ias, iaid); var v, o := db.ias[k], offers[j];
            var s := ReplyNA(db, iaid, offers, t, duid, now).ias[k].addrs;
            && (o.valid == 0 ==> o.addr !in Addrs(s))
            && (o.valid != 0 ==> Stored(s, o.addr, o.pref, o.valid, now))
            && (o.valid != 0 ==>
                  forall l, u: ulong :: l in s && l.addr == o.addr ==> (Expired(l, u) <==> now + o.valid <= u))
            && (o.valid != 0 && !HeldAt(Addrs(v.addrs), offers, j, o.addr) ==>
                  Lease(o.addr, o.length, o.pref, o.valid, now, Unknown) in s)
            && forall l :: o.valid != 0 && l in v.addrs && l.addr == o.addr && NotNamed(offers, 0, j, o.addr) ==>
                 Lease(o.addr, l.length, o.pref, o.valid, now, l.tentative) in s
  {
    var k := IndexOfId(db.ias, iaid);
    var v, o := db.ias[k], offers[j];
    var m0 := Merge(v.addrs, db.onLink, false);
    MergedOwn(m0, offers, true, now, j);
    var s0 := MergeAll(m0, offers, true, now).addrs;
    var s := Restamped(s0, now);
    assert ReplyNA(db, iaid, offers, t, duid, now).ias[k].addrs == s;
    hide MergeAll, ReplyNA, Renewed, Decides, HeldAt, NotNamed, Restamped, Stored, Expired;
    forall l: Lease
      ensures l in s0 ==> l.(timestamp := now) in s
      ensures Addrs(s) == Addrs(s0) && UniqueAddrs(s)
    {
      RestampedHas(s0, now, l);
    }
    if o.valid != 0 {
      var l :| l in s0 && l.addr == o.addr && l.pref == o.pref && l.valid == o.valid && l.timestamp == now;
      StoredBy(s, l.(timestamp := now));
      StoredExpires(s, o.addr, o.pref, o.valid, now);
    }
  }

  /** An address no offer is read for keeps its lease, but begun anew; none appears. */
  lemma {:induction false} UnreadKept(db: Db, iaid: nat, offers: seq<Offer>, t: Timing, duid: nat, now: ulong,
                                      a: Address)
    requires HasIA(db, iaid) && Unread(Addrs(db.ias[IndexOfId(db.ias, iaid)].addrs), offers, true, a)
    ensures var k := IndexOfId(db.ias, iaid); var v := db.ias[k];
            var s := ReplyNA(db, iaid, offers, t, duid, now).ias[k].addrs;
            forall l: Lease :: l.addr == a ==>
              (l in s <==> l.timestamp == now && exists x :: x in v.addrs && l == x.(timestamp := now))
  {
    var k := IndexOfId(db.ias, iaid);
    var v := db.ias[k];
    var m0 := Merge(v.addrs, db.onLink, false);
    var s0 := MergeAll(m0, offers, true, now).addrs;
    assert ReplyNA(db, iaid, offers, t, duid, now).ias[k].addrs == Restamped(s0, now);
    hide MergeAll, ReplyNA, Renewed, Unread, Restamped;
    forall l: Lease | l.addr == a
      ensures l in Restamped(s0, now) <==> l.timestamp == now && exists x :: x in v.addrs && l == x.(timestamp := now)
    {
      RestampedHas(s0, now, l);
      if x :| x in v.addrs && l == x.(timestamp := now) {
        MergedUnread(m0, offers, true, now, x);
        RestampedHas(s0, now, x);
      }
      if l in Restamped(s0, now) {
        var x :| x in s0 && l == x.(timestamp := now);
        MergedUnread(m0, offers, true, now, x);
      }
    }
  }

  /** The timers of a reply: as received if both are set; otherwise half of the first
      preferred lifetime, rounded down, and about 70% of it; without an offer no change. */
  ghost predicate TimersSet(v: IAView, w: IAView, offers: seq<Offer>, t: Timing) {
    if t.t1 != 0 && t.t2 != 0 then w.t1 == t.t1 && w.t2 == t.t2
    else if offers == [] then w.t1 == v.t1 && w.t2 == v.t2
    else
      && offers[0].pref - 1 <= 2 * w.t1 <= offers[0].pref
      && (offers[0].pref < 0x1_0000_0000 && 7 * offers[0].pref / 10 < 0x8000_0000 ==>
            7 * offers[0].pref - 20 < 10 * w.t2 <= 7 * offers[0].pref)
      && (offers[0].pref == INFINITY ==> w.t2 == t.unfit)
  }

  /** The other fields: the IA is configured and begun anew, its server and duplicate
      status change exactly if a new address was read, and no other member changes. */
  lemma {:induction false} ReplyFields(db: Db, iaid: nat, offers: seq<Offer>, t: Timing, duid: nat, now: ulong)
    requires HasIA(db, iaid)
    ensures var k := IndexOfId(db.ias, iaid); var v := db.ias[k]; var next := ReplyNA(db, iaid, offers, t, duid, now);
            && |next.ias| == |db.ias| && (forall i :: 0 <= i < |db.ias| && i != k ==> next.ias[i] == db.ias[i])
            && next.tas == db.tas && next.pds == db.pds && next.cfgPD == db.cfgPD && next.cfgTA == db.cfgTA
            && next.cfgIA.Keys == db.cfgIA.Keys
            && (forall id :: id in db.cfgIA ==> next.cfgIA[id] == if id == iaid then Configured else db.cfgIA[id])
            && var w := next.ias[k];
            && w.iaid == v.iaid && w.ifindex == v.ifindex && w.prefixes == v.prefixes
            && w.state == Configured && w.timestamp == now && TimersSet(v, w, offers, t)
            && var gains := Gains(Addrs(v.addrs), offers, true);
            && w.duid == (if gains then duid else v.duid) && w.tentative == (if gains then Unknown else v.tentative)
  {
    var k := IndexOfId(db.ias, iaid);
    var v := db.ias[k];
    MergedAdded(Merge(v.addrs, db.onLink, false), offers, true, now);
    if offers != [] && offers[0].pref <= INFINITY {
      DefaultT2Exactly(offers[0].pref, t.unfit);
    }
    hide MergeAll, Gains, Restamped, DefaultT2, Ulp;
  }

  /** What is received or asked for an IA that the database does not have changes nothing. */
  lemma {:induction false} UnknownIgnored(db: Db, iaid: nat, offers: seq<Offer>, t: Timing, duid: nat, now: ulong)
    requires IndexOfId(db.ias, iaid) == |db.ias|
    ensures ReplyNA(db, iaid, offers, t, duid, now) == Release(db, iaid) == Accept(db, iaid, now) == db
  {
  }

  // -- a received IA_TA ---------------------------------------------------------------------------------

  /** The TA before its offers are read: as it was, or new with nothing in it and timers
      that never run out. */
  lemma {:induction false} TABegins(db: Db, iaid: nat, ifindex: nat, duid: nat, now: ulong)
    ensures var k := IndexOfId(db.tas, iaid); var tas := WithTA(db.tas, iaid, ifindex, duid, now);
            && k < |tas| && (forall i :: 0 <= i < |db.tas| ==> tas[i] == db.tas[i])
            && (k == |db.tas| ==>
                  && |tas| == |db.tas| + 1 && tas[k].iaid == iaid && tas[k].ifindex == ifindex && tas[k].duid == duid
                  && tas[k].addrs == [] && tas[k].prefixes == [] && tas[k].tentative == Unknown
                  && tas[k].t1 == tas[k].t2 == INFINITY && tas[k].timestamp == now)
            && (k < |db.tas| ==> tas == db.tas)
  {
  }

  /** The same for an IA_TA, which is read to the end. */
  lemma {:induction false} TAOfferDecides(db: Db, iaid: nat, ifindex: nat, offers: seq<Offer>, duid: nat, now: ulong,
                                          j: nat)
    requires var v := WithTA(db.tas, iaid, ifindex, duid, now)[IndexOfId(db.tas, iaid)];
             UniqueAddrs(v.addrs) && Decides(Addrs(v.addrs), offers, false, j)
    ensures var k := IndexOfId(db.tas, iaid); var o := offers[j];
            var v := WithTA(db.tas, iaid, ifindex, duid, now)[k];
            var s := ReplyTA(db, iaid, ifindex, offers, duid, now).tas[k].addrs;
            && (o.valid == 0 ==> o.addr !in Addrs(s))
            && (o.valid != 0 ==> Stored(s, o.addr, o.pref, o.valid, now))
            && (o.valid != 0 ==>
                  forall l, u: ulong :: l in s && l.addr == o.addr ==> (Expired(l, u) <==> now + o.valid <= u))
            && (o.valid != 0 && !HeldAt(Addrs(v.addrs), offers, j, o.addr) ==>
                  Lease(o.addr, o.length, o.pref, o.valid, now, Unknown) in s)
            && forall l :: o.valid != 0 && l in v.addrs && l.addr == o.addr && NotNamed(offers, 0, j, o.addr) ==>
                 Lease(o.addr, l.length, o.pref, o.valid, now, l.tentative) in s
  {
    var k := IndexOfId(db.tas, iaid);
    var v, o := WithTA(db.tas, iaid, ifindex, duid, now)[k], offers[j];
    var m0 := Merge(v.addrs, db.onLink, false);
    MergedOwn(m0, offers, false, now, j);
    var s := MergeAll(m0, offers, false, now).addrs;
    assert ReplyTA(db, iaid, ifindex, offers, duid, now).tas[k].addrs == s;
    hide MergeAll, ReplyTA, Decides, HeldAt, NotNamed, Stored, WithTA, Expired;
    if o.valid != 0 {
      var l :| l in s && l.addr == o.addr && l.pref == o.pref && l.valid == o.valid && l.timestamp == now;
      StoredBy(s, l);
      StoredExpires(s, o.addr, o.pref, o.valid, now);
    }
  }

  /** An address that no offer is for keeps its lease as it was. */
  lemma {:induction false} TAUnreadKept(db: Db, iaid: nat, ifindex: nat, offers: seq<Offer>, duid: nat, now: ulong,
                                        l: Lease)
    requires UniqueAddrs(WithTA(db.tas, iaid, ifindex, duid, now)[IndexOfId(db.tas, iaid)].addrs)
    requires forall i :: 0 <= i < |offers| ==> offers[i].addr != l.addr
    ensures var k := IndexOfId(db.tas, iaid);
            l in ReplyTA(db, iaid, ifindex, offers, duid, now).tas[k].addrs <==>
            l in WithTA(db.tas, iaid, ifindex, duid, now)[k].addrs
  {
    var v := WithTA(db.tas, iaid, ifindex, duid, now)[IndexOfId(db.tas, iaid)];
    MergedUnread(Merge(v.addrs, db.onLink, false), offers, false, now, l);
    hide MergeAll, WithTA;
  }

  /** The TA and its configuration are configured; server and status change exactly if a
      new address was read; timers and time stamp stay, and so does every other member. */
  lemma {:induction false} TAFields(db: Db, iaid: nat, ifindex: nat, offers: seq<Offer>, duid: nat, now: ulong)
    requires UniqueAddrs(WithTA(db.tas, iaid, ifindex, duid, now)[IndexOfId(db.tas, iaid)].addrs)
    ensures var k := IndexOfId(db.tas, iaid); var tas := WithTA(db.tas, iaid, ifindex, duid, now);
            var next := ReplyTA(db, iaid, ifindex, offers, duid, now);
            && |next.tas| == |tas| && (forall i :: 0 <= i < |tas| && i != k ==> next.tas[i] == tas[i])
            && next.ias == db.ias && next.pds == db.pds && next.cfgIA == db.cfgIA && next.cfgPD == db.cfgPD
            && next.cfgTA == Configured
            && var v, w := tas[k], next.tas[k]; var gains := Gains(Addrs(v.addrs), offers, false);
            && w.iaid == v.iaid && w.ifindex == v.ifindex && w.prefixes == v.prefixes
            && w.t1 == v.t1 && w.t2 == v.t2 && w.timestamp == v.timestamp && w.state == Configured
            && w.duid == (if gains then duid else v.duid) && w.tentative == (if gains then Unknown else v.tentative)
  {
    var v := WithTA(db.tas, iaid, ifindex, duid, now)[IndexOfId(db.tas, iaid)];
    MergedAdded(Merge(v.addrs, db.onLink, false), offers, false, now);
    hide MergeAll, Gains, WithTA;
  }

  // -- a failed REBIND, a CONFIRM -----------------------------------------------------------------------

  /** Releasing an IA leaves it without addresses and NOTCONFIGURED, in the database and in
      the configuration, its addresses off the interface, and all else as it was. */
  lemma {:induction false} ReleaseFields(db: Db, iaid: nat)
    requires IndexOfId(db.ias, iaid) < |db.ias|
    ensures var k := IndexOfId(db.ias, iaid); var v, next := db.ias[k], Release(db, iaid);
            && |next.ias| == |db.ias| && (forall i :: 0 <= i < |db.ias| && i != k ==> next.ias[i] == db.ias[i])
            && next.ias[k].addrs == [] && next.ias[k].state == NotConfigured
            && next.ias[k] == v.(addrs := next.ias[k].addrs, state := next.ias[k].state)
            && next.tas == db.tas && next.pds == db.pds && next.cfgPD == db.cfgPD && next.cfgTA == db.cfgTA
            && next.cfgIA.Keys == db.cfgIA.Keys
            && (forall id :: id in db.cfgIA ==> next.cfgIA[id] == if id == iaid then NotConfigured else db.cfgIA[id])
            && forall a :: a in next.onLink <==> a in db.onLink && a !in Addrs(v.addrs)
  {
  }

  /** Accepting a CONFIRM leaves the IA CONFIGURED with the same addresses, all begun at
      `ts` and all on the interface, and all else as it was. */
  lemma {:induction false} AcceptFields(db: Db, iaid: nat, ts: ulong)
    requires IndexOfId(db.ias, iaid) < |db.ias|
    ensures var k := IndexOfId(db.ias, iaid); var v, next := db.ias[k], Accept(db, iaid, ts);
            && |next.ias| == |db.ias| && (forall i :: 0 <= i < |db.ias| && i != k ==> next.ias[i] == db.ias[i])
            && next.tas == db.tas && next.pds == db.pds
            && next.cfgIA == db.cfgIA && next.cfgPD == db.cfgPD && next.cfgTA == db.cfgTA
            && (forall a :: a in next.onLink <==> a in db.onLink || a in Addrs(v.addrs))
            && var w := next.ias[k];
            && w.state == Configured && w.timestamp == ts
            && w == v.(addrs := w.addrs, timestamp := w.timestamp, state := w.state)
            && |w.addrs| == |v.addrs|
            && forall i :: 0 <= i < |v.addrs| ==> w.addrs[i] == v.addrs[i].(timestamp := ts)
  {
  }
}
