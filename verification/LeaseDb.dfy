/** The client's lease database (AddrMgr/AddrClient.cpp, ClntAddrMgr/ClntAddrMgr.cpp),
    the addresses on its one configured interface (IfaceMgr/Iface.cpp) and the
    configured state of each IA, TA and PD. */
module LeaseDb {
  import opened Containers
  import opened Leases
  import opened AddressIA

  /** The interface as the add and delete calls leave it; the calls succeed and the
      prefix length is not part of an address's identity. */
  class Iface {
    var addrs: set<Address>

    method AddAddr(a: Address)
      modifies this
      ensures addrs == old(addrs) + {a}
    {
      addrs := addrs + {a};
    }

    method DelAddr(a: Address)
      modifies this
      ensures addrs == old(addrs) - {a}
    {
      addrs := addrs - {a};
    }
  }

  /** The database as a value, with the addresses on the interface. */
  datatype Db = Db(ias: seq<IAView>, tas: seq<IAView>, pds: seq<IAView>, onLink: set<Address>,
                   cfgIA: map<nat, EState>, cfgPD: map<nat, EState>, cfgTA: EState)
  {
    /** The IAs and TAs: their addresses live on the interface. */
    ghost function Holders(): seq<IAView> {
      ias + tas
    }

    ghost function All(): seq<IAView> {
      ias + tas + pds
    }

    ghost function Held(): seq<set<Address>> {
      HeldBy(Holders())
    }

    /** Leases are unique and status caches true in every IA, TA and PD; IAIDs are
        unique; no address is held twice. */
    ghost predicate Sound() {
      && (forall v <- All() :: v.Sound())
      && UniqueIds(ias) && UniqueIds(tas)
      && Exclusive(Held())
    }

    /** The database and the interface agree. */
    ghost predicate Coupled() {
      onLink == Union(Held())
    }
  }

  lemma {:induction false} SoundParts(db: Db)
    requires db.Sound()
    ensures (forall v <- db.ias :: v.Sound()) && (forall v <- db.tas :: v.Sound()) && (forall v <- db.pds :: v.Sound())
  {
    assert forall v :: v in db.ias || v in db.tas || v in db.pds ==> v in db.All();
  }

  ghost predicate UniqueIds(vs: seq<IAView>) {
    forall i, j :: 0 <= i < j < |vs| ==> vs[i].iaid != vs[j].iaid
  }

  ghost function HeldBy(vs: seq<IAView>): (h: seq<set<Address>>) {
    seq(|vs|, i requires 0 <= i < |vs| => Addrs(vs[i].addrs))
  }

  ghost function Union(h: seq<set<Address>>): set<Address> {
    set i, a | 0 <= i < |h| && a in h[i] :: a
  }

  ghost predicate Exclusive(h: seq<set<Address>>) {
    forall i, j :: 0 <= i < j < |h| ==> h[i] !! h[j]
  }

  /** If one holder goes from `h[i]` to `s` and the interface follows, the interface
      still shows exactly what is held. */
  lemma {:induction false} LocalChange(h: seq<set<Address>>, i: nat, s: set<Address>, on: set<Address>)
    requires i < |h| && Exclusive(h) && on == Union(h)
    requires forall j :: 0 <= j < |h| && j != i ==> s !! h[j]
    ensures Exclusive(h[i := s])
    ensures on - (h[i] - s) + (s - h[i]) == Union(h[i := s])
  {
    var h', on' := h[i := s], on - (h[i] - s) + (s - h[i]);
    forall a
      ensures a in on' <==> a in Union(h')
    {
      if a in on' {
        if a in s {
          assert a in h'[i];
        } else {
          var j :| 0 <= j < |h| && a in h[j];
          assert a in h'[j];
        }
      }
      if a in Union(h') {
        var j :| 0 <= j < |h'| && a in h'[j];
        if j != i {
          assert a in h[j];
        }
      }
    }
  }

  /** The members' values are `vs`. */
  ghost predicate Shows(ms: seq<AddrIA>, vs: seq<IAView>)
    reads Set(ms)
  {
    |ms| == |vs| && forall i :: 0 <= i < |ms| ==> ms[i].View() == vs[i]
  }

  ghost function Set(ms: seq<AddrIA>): set<AddrIA> {
    set m | m in ms
  }

  class Client {
    const IAsLst: Container<AddrIA>
    const TALst: Container<AddrIA>
    const PDLst: Container<AddrIA>
    const iface: Iface
    var cfgIA: map<nat, EState>
    var cfgPD: map<nat, EState>
    var cfgTA: EState

    /** No IA, TA or PD yet. */
    constructor (cfgIA: map<nat, EState>, cfgPD: map<nat, EState>, cfgTA: EState)
      ensures Separated() && Is(Db([], [], [], {}, cfgIA, cfgPD, cfgTA))
    {
      this.cfgIA, this.cfgPD, this.cfgTA := cfgIA, cfgPD, cfgTA;
      IAsLst := new Container();
      TALst := new Container();
      PDLst := new Container();
      iface := new Iface;
      new;
      iface.addrs := {};
    }

    /** The lists and their members are distinct objects. */
    ghost predicate Separated()
      reads {IAsLst, TALst, PDLst}`lista
    {
      && IAsLst != TALst && IAsLst != PDLst && TALst != PDLst
      && NoDup(IAsLst.lista) && NoDup(TALst.lista) && NoDup(PDLst.lista)
      && Set(IAsLst.lista) !! Set(TALst.lista) && Set(IAsLst.lista) !! Set(PDLst.lista)
      && Set(TALst.lista) !! Set(PDLst.lista)
    }

    ghost function Members(): set<AddrIA>
      reads {IAsLst, TALst, PDLst}`lista
    {
      Set(IAsLst.lista) + Set(TALst.lista) + Set(PDLst.lista)
    }

    /** The database has value `db`. */
    ghost predicate Is(db: Db)
      reads this, {IAsLst, TALst, PDLst}`lista, iface
      reads Members()
    {
      && Shows(IAsLst.lista, db.ias) && Shows(TALst.lista, db.tas) && Shows(PDLst.lista, db.pds)
      && iface.addrs == db.onLink && cfgIA == db.cfgIA && cfgPD == db.cfgPD && cfgTA == db.cfgTA
    }
  }
}
