/** Transactions and database together, over whole runs: no binding is lost, and the
    database never loses the IA of a configured IA_NA. */
module Worlds {
  import opened Containers
  import opened Leases
  import opened AddressIA
  import opened LeaseDb
  import opened Replies
  import opened Expiry
  import opened Coupling
  import opened Confirming
  import opened T = Transactions
  import opened Rebinding
  import C = Conservation

  /** The database has the IA of every configured IA_NA. */
  ghost predicate HasAll(w: World) {
    forall id :: NA(id) in w.tm.cfg ==> Has(w.db, id)
  }

  /** Database changes are steps of the client, an answer is carried out on the database as
      it is, and `checkConfirm` leaves nothing behind. */
  ghost predicate Lawful(w: World, h: Happening, ifaces: seq<CfgIface>) {
    match h
    case Tick(p, now) => true
    case Questions(p) => C.NoneForgotten(w.tm, ifaces, WaitingIn(w.db.ias))
    case Hears(s, wall) => s.Replied? ==> s.e.left.Keys == Bindings(w.db)
    case Leased(db) => exists e :: Next(w.db, e, db)
  }

  ghost predicate AllLawful(w: World, hs: seq<Happening>, ifaces: seq<CfgIface>, insist: bool)
    decreases |hs|
  {
    || hs == []
    || (Lawful(w, hs[0], ifaces) && AllLawful(Happens(w, hs[0], ifaces, insist), hs[1..], ifaces, insist))
  }

  /** What accepted CONFIRMs have left in process. */
  function KeptOver(w: World, hs: seq<Happening>, ifaces: seq<CfgIface>, insist: bool, kept: set<Binding>): set<Binding>
    decreases |hs|
  {
    if hs == [] then kept
    else
      var next := Happens(w, hs[0], ifaces, insist);
      KeptOver(next, hs[1..], ifaces, insist, C.StillKept(w.tm, next.tm, kept))
  }

  // -- no step removes an IA ------------------------------------------------------------------

  ghost predicate SameNames(db: Db, db': Db) {
    |db'.ias| == |db.ias| && forall i :: 0 <= i < |db.ias| ==> db'.ias[i].iaid == db.ias[i].iaid
  }

  lemma {:induction false} SameHas(db: Db, db': Db, id: nat)
    requires SameNames(db, db')
    ensures Has(db, id) <==> Has(db', id)
  {
    SameIds(db.ias, db'.ias, id);
  }

  lemma {:induction false} NextNames(db: Db, e: Event, db': Db)
    requires Next(db, e, db')
    ensures SameNames(db, db')
  {
    hide MergeAll, Clean;
  }

  lemma {:induction false} QuestionedNames(db: Db, ifaces: seq<CfgIface>)
    ensures SameNames(db, Questioned(db, ifaces))
    decreases |ifaces|
  {
    if ifaces != [] {
      QuestionedNames(QuestionedOn(db, ifaces[0]), ifaces[1..]);
    }
  }

  lemma {:induction false} HappensHas(w: World, h: Happening, ifaces: seq<CfgIface>, insist: bool)
    requires HasAll(w) && Lawful(w, h, ifaces)
    ensures HasAll(Happens(w, h, ifaces, insist))
  {
    var next := Happens(w, h, ifaces, insist);
    hide Take, Next, Has, Questioned, C.NoneForgotten;
    assert next.tm.cfg.Keys == w.tm.cfg.Keys by {
      match h
      case Tick(p, now) => C.TakeKeys(w.tm, Pass(Env(p, LeftOf(w.db, now))), ifaces, insist);
      case Questions(p) => C.TakeKeys(w.tm, Confirms(WaitingIn(w.db.ias), p), ifaces, insist);
      case Hears(s, wall) => C.TakeKeys(w.tm, s, ifaces, insist);
      case Leased(db) =>
    }
    forall id | NA(id) in next.tm.cfg
      ensures Has(next.db, id)
    {
      assert NA(id) in w.tm.cfg.Keys;
      match h
      case Tick(p, now) => ApplyAllKeeps(w.db, NewEffects(w.tm, next.tm), p.now, id);
      case Questions(p) =>
        QuestionedNames(w.db, ifaces);
        SameHas(w.db, next.db, id);
      case Hears(s, wall) => ApplyAllKeeps(w.db, NewEffects(w.tm, next.tm), wall, id);
      case Leased(db) =>
        var e :| Next(w.db, e, db);
        NextNames(w.db, e, db);
        SameHas(w.db, db, id);
    }
  }

  lemma {:induction false} HasKnown(w: World)
    requires HasAll(w)
    ensures C.KnowsAll(w.tm, Bindings(w.db))
  {
    forall b | b in w.tm.cfg
      ensures Known(b, Bindings(w.db))
    {
      if b.NA? {
        assert Has(w.db, b.iaid);
        var v := w.db.ias[IndexOfId(w.db.ias, b.iaid)];
        assert v in w.db.ias && NA(v.iaid) == b;
      }
    }
  }

  lemma {:induction false} HappensCovered(w: World, h: Happening, ifaces: seq<CfgIface>, insist: bool,
                                          kept: set<Binding>)
    requires C.Covered(w.tm, kept) && HasAll(w) && Lawful(w, h, ifaces)
    ensures var next := Happens(w, h, ifaces, insist); C.Covered(next.tm, C.StillKept(w.tm, next.tm, kept))
  {
    HasKnown(w);
    hide Take, Next, Bindings, LeftOf, C.KnowsAll, C.NoneForgotten;
    match h
    case Tick(p, now) => C.TakeCovered(w.tm, Pass(Env(p, LeftOf(w.db, now))), ifaces, insist, kept);
    case Questions(p) => C.TakeCovered(w.tm, Confirms(WaitingIn(w.db.ias), p), ifaces, insist, kept);
    case Hears(s, wall) =>
      if s.Pass? || s.Confirms? {
        Unmoved(w.tm, kept);
      } else {
        C.TakeCovered(w.tm, s, ifaces, insist, kept);
      }
    case Leased(db) => Unmoved(w.tm, kept);
  }

  lemma {:induction false} Unmoved(tm: TM, kept: set<Binding>)
    requires C.Covered(tm, kept)
    ensures C.Covered(tm, C.StillKept(tm, tm, kept))
  {
    hide C.Carried;
  }

  /** No binding is lost in any run of the client: every binding in process is carried by a
      live SOLICIT, REQUEST or CONFIRM, or was named by a CONFIRM that was accepted and has
      been in process since.  That replies find the IAs they configure is no proviso here:
      the database starts with them (see `Startup`) and never loses one. */
  lemma {:induction false} NothingLost(w: World, hs: seq<Happening>, ifaces: seq<CfgIface>, insist: bool,
                                       kept: set<Binding>)
    requires C.Covered(w.tm, kept) && HasAll(w) && AllLawful(w, hs, ifaces, insist)
    ensures var end := AllHappens(w, hs, ifaces, insist);
            C.Covered(end.tm, KeptOver(w, hs, ifaces, insist, kept)) && HasAll(end)
    decreases |hs|
  {
    if hs != [] {
      HappensCovered(w, hs[0], ifaces, insist, kept);
      HappensHas(w, hs[0], ifaces, insist);
      hide Happens, HasAll, Lawful, C.Covered, C.StillKept;
      var next := Happens(w, hs[0], ifaces, insist);
      NothingLost(next, hs[1..], ifaces, insist, C.StillKept(w.tm, next.tm, kept));
    }
  }
}
