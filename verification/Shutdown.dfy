/** ClntTransMgr.cpp `shutdown` and ClntMsgRelease.cpp: releasing every IA_NA, one message
    for each server and interface. */
module Shutdown {
  import opened Containers
  import opened Leases
  import opened AddressIA
  import opened LeaseDb
  import opened Replies

  /** Which interfaces exist, and which the configuration has. */
  datatype Net = Net(links: set<nat>, configured: set<nat>)

  /** A RELEASE: the server asked, the interface, the IAIDs it names, and whether `send`
      found an interface to transmit it on. */
  datatype ReleaseMsg = ReleaseMsg(server: nat, ifindex: nat, iaids: seq<nat>, sent: bool)

  function Releasable(): IAView -> bool {
    (v: IAView) => (v.state == Configured || v.state == InProcess) && v.addrs != []
  }

  function Alike(v: IAView): IAView -> bool {
    (w: IAView) => w.duid == v.duid && w.ifindex == v.ifindex
  }

  function Unlike(v: IAView): IAView -> bool {
    (w: IAView) => w.duid != v.duid || w.ifindex != v.ifindex
  }

  /** The next group and what it leaves in the database; `links` are the interfaces that
      exist.  On a missing interface the search stops at the first match, which joins
      the group but also stays in the database. */
  function NextGroup(vs: seq<IAView>, links: set<nat>): (r: (seq<IAView>, seq<IAView>))
    requires vs != []
    ensures |r.1| < |vs|
  {
    if vs[0].ifindex in links then
      FilterShorter(vs, Unlike(vs[0]));
      (Filter(vs, Alike(vs[0])), Filter(vs, Unlike(vs[0])))
    else
      var more := Filter(vs[1..], Alike(vs[0]));
      ([vs[0]] + (if more == [] then [] else [more[0]]), vs[1..])
  }

  lemma {:induction false} FilterLength<T>(s: seq<T>, keep: T -> bool)
    ensures |Filter(s, keep)| <= |s|
  {
    if s != [] {
      FilterLength(s[1..], keep);
    }
  }

  lemma {:induction false} FilterShorter<T>(s: seq<T>, keep: T -> bool)
    requires s != [] && !keep(s[0])
    ensures |Filter(s, keep)| < |s|
  {
    FilterLength(s[1..], keep);
  }

  function Groups(vs: seq<IAView>, links: set<nat>): seq<seq<IAView>>
    decreases |vs|
  {
    if vs == [] then [] else [NextGroup(vs, links).0] + Groups(NextGroup(vs, links).1, links)
  }

  function Ids(group: seq<IAView>): seq<nat> {
    seq(|group|, (i: nat) requires i < |group| => group[i].iaid)
  }

  /** The message for one group, made only if the configuration has the interface. */
  function MadeFor(group: seq<IAView>, net: Net): seq<ReleaseMsg> {
    if group == [] || group[0].ifindex !in net.configured then []
    else [ReleaseMsg(group[0].duid, group[0].ifindex, Ids(group), group[0].ifindex in net.links)]
  }

  function Made(groups: seq<seq<IAView>>, net: Net): seq<ReleaseMsg> {
    if groups == [] then [] else MadeFor(groups[0], net) + Made(groups[1..], net)
  }

  /** The addresses held on one of these interfaces. */
  function HeldOn(vs: seq<IAView>, ifs: set<nat>): set<(nat, Address)> {
    set v, a | v in vs && v.ifindex in ifs && a in Addrs(v.addrs) :: (v.ifindex, a)
  }

  /** The addresses that the message for a group takes off. */
  function GoneIn(group: seq<IAView>, net: Net): set<(nat, Address)> {
    if group == [] || group[0].ifindex !in net.configured then {} else HeldOn(group, net.links)
  }

  function GoneOf(groups: seq<seq<IAView>>, net: Net): set<(nat, Address)> {
    if groups == [] then {} else GoneIn(groups[0], net) + GoneOf(groups[1..], net)
  }

  // -- the code -----------------------------------------------------------------------------

  /** The client's IA_NAs.  Releasing reads and drops IAs but never changes one, so here
      they are values. */
  class AddrMgr {
    var IAsLst: Cursored<IAView>

    /** `TAddrClient::delIA`: the list's one cursor is moved by the search, and rewound. */
    method DelIA(iaid: nat) returns (found: bool)
      modifies this
      ensures found <==> IndexOfId(old(IAsLst.lista), iaid) < |old(IAsLst.lista)|
      ensures found ==> IAsLst == Cursored(Without(old(IAsLst.lista), IndexOfId(old(IAsLst.lista), iaid)), 0)
      ensures !found ==> IAsLst.lista == old(IAsLst.lista)
    {
      IAsLst := IAsLst.First();
      while IAsLst.Peek().Some?
        invariant IAsLst.Positioned() && IAsLst.lista == old(IAsLst.lista)
        invariant forall i :: 0 <= i < IAsLst.it ==> IAsLst.lista[i].iaid != iaid
        decreases |IAsLst.lista| - IAsLst.it
      {
        var ptr := IAsLst.Peek().value;
        IAsLst := IAsLst.Next();
        if ptr.iaid == iaid {
          IAsLst := IAsLst.Del();
          return true;
        }
      }
      found := false;
    }
  }

  lemma {:induction false} OwnIndex(vs: seq<IAView>, k: nat)
    requires UniqueIds(vs) && k < |vs|
    ensures IndexOfId(vs, vs[k].iaid) == k && UniqueIds(Without(vs, k))
  {
  }

  /** `delIA` for an IA that the list is known to hold: it is that one that goes. */
  method Take(mgr: AddrMgr, ghost k: nat, iaid: nat)
    requires UniqueIds(mgr.IAsLst.lista) && k < |mgr.IAsLst.lista| && mgr.IAsLst.lista[k].iaid == iaid
    modifies mgr
    ensures mgr.IAsLst == Cursored(Without(old(mgr.IAsLst.lista), k), 0) && UniqueIds(mgr.IAsLst.lista)
  {
    OwnIndex(mgr.IAsLst.lista, k);
    var _ := mgr.DelIA(iaid);
  }

  /** The scan for IAs to drop has passed the first `n`. */
  ghost predicate Dropping(vs: seq<IAView>, cur: seq<IAView>, n: int, keep: IAView -> bool) {
    && Filter(cur, keep) == Filter(vs, keep)
    && 0 <= n <= |cur| && forall i :: 0 <= i < n ==> keep(cur[i])
  }

  lemma {:induction false} DropNext(vs: seq<IAView>, cur: seq<IAView>, n: nat, keep: IAView -> bool)
    requires Dropping(vs, cur, n, keep) && n < |cur|
    ensures if keep(cur[n]) then Dropping(vs, cur, n + 1, keep) else Dropping(vs, Without(cur, n), 0, keep)
  {
    if !keep(cur[n]) {
      FilterWithout(cur, n, keep);
    }
  }

  lemma {:induction false} DropEnds(vs: seq<IAView>, cur: seq<IAView>, keep: IAView -> bool)
    requires Dropping(vs, cur, |cur|, keep)
    ensures cur == Filter(vs, keep)
  {
    FilterAll(cur, keep);
  }

  /** The first loop: every IA that is not to be released goes. */
  method DropIdle(mgr: AddrMgr)
    requires UniqueIds(mgr.IAsLst.lista)
    modifies mgr
    ensures mgr.IAsLst.lista == Filter(old(mgr.IAsLst.lista), Releasable()) && UniqueIds(mgr.IAsLst.lista)
  {
    assert Dropping(mgr.IAsLst.lista, mgr.IAsLst.lista, 0, Releasable());
    hide Dropping, UniqueIds, Without;
    mgr.IAsLst := mgr.IAsLst.First();
    while true
      invariant mgr.IAsLst.Positioned() && UniqueIds(mgr.IAsLst.lista)
      invariant Dropping(old(mgr.IAsLst.lista), mgr.IAsLst.lista, mgr.IAsLst.it, Releasable())
      decreases |mgr.IAsLst.lista|, |mgr.IAsLst.lista| - mgr.IAsLst.it
    {
      var r := mgr.IAsLst.Peek();
      if r.None? {
        break;
      }
      DropNext(old(mgr.IAsLst.lista), mgr.IAsLst.lista, mgr.IAsLst.it, Releasable());
      mgr.IAsLst := mgr.IAsLst.Next();
      if (r.value.state != Configured && r.value.state != InProcess) || |r.value.addrs| == 0 {
        Take(mgr, mgr.IAsLst.it - 1, r.value.iaid);
      }
    }
    DropEnds(old(mgr.IAsLst.lista), mgr.IAsLst.lista, Releasable());
  }

  /** The scan for IAs like the first: `cur` is left, `group` collected, `n` passed. */
  ghost predicate Picking(vs: seq<IAView>, links: set<nat>, cur: seq<IAView>, group: seq<IAView>, n: int)
    requires vs != []
  {
    && group + Filter(cur, Alike(vs[0])) == Filter(vs, Alike(vs[0]))
    && Filter(cur, Unlike(vs[0])) == Filter(vs, Unlike(vs[0]))
    && 0 <= n <= |cur| && (forall i :: 0 <= i < n ==> Unlike(vs[0])(cur[i]))
    && (vs[0].ifindex !in links ==> cur == vs[1..] && group == [vs[0]])
  }

  lemma {:induction false} PickBegins(vs: seq<IAView>, links: set<nat>)
    requires vs != []
    ensures Without(vs, 0) == vs[1..] && Picking(vs, links, vs[1..], [vs[0]], 0)
  {
  }

  lemma {:induction false} PickNext(vs: seq<IAView>, links: set<nat>, cur: seq<IAView>, group: seq<IAView>, n: nat)
    requires vs != [] && Picking(vs, links, cur, group, n) && n < |cur|
    ensures if Unlike(vs[0])(cur[n]) then Picking(vs, links, cur, group, n + 1)
            else if vs[0].ifindex in links then Picking(vs, links, Without(cur, n), group + [cur[n]], 0)
            else NextGroup(vs, links) == (group + [cur[n]], cur)
  {
    if Alike(vs[0])(cur[n]) {
      FilterFirst(cur, n, Alike(vs[0]));
      FilterWithout(cur, n, Unlike(vs[0]));
      assert group + ([cur[n]] + Filter(Without(cur, n), Alike(vs[0]))) ==
        group + [cur[n]] + Filter(Without(cur, n), Alike(vs[0]));
    }
  }

  lemma {:induction false} PickEnds(vs: seq<IAView>, links: set<nat>, cur: seq<IAView>, group: seq<IAView>)
    requires vs != [] && Picking(vs, links, cur, group, |cur|)
    ensures NextGroup(vs, links) == (group, cur)
  {
    FilterNone(cur, Alike(vs[0]));
    FilterAll(cur, Unlike(vs[0]));
    assert group + [] == group;
  }

  /** One turn of the main loop: takes the first IA and all that are like it. */
  method TakeGroup(mgr: AddrMgr, links: set<nat>) returns (released: Cursored<IAView>)
    requires mgr.IAsLst.lista != [] && UniqueIds(mgr.IAsLst.lista)
    modifies mgr
    ensures (released.lista, mgr.IAsLst.lista) == NextGroup(old(mgr.IAsLst.lista), links) && UniqueIds(mgr.IAsLst.lista)
  {
    ghost var vs := mgr.IAsLst.lista;
    PickBegins(vs, links);
    hide Picking, NextGroup, UniqueIds, Without;
    mgr.IAsLst := mgr.IAsLst.First();
    var first := mgr.IAsLst.Peek().value;
    released := Cursored([], -1).Append(first);
    Take(mgr, 0, first.iaid);
    while true
      invariant mgr.IAsLst.Positioned() && UniqueIds(mgr.IAsLst.lista)
      invariant Picking(vs, links, mgr.IAsLst.lista, released.lista, mgr.IAsLst.it)
      decreases |mgr.IAsLst.lista|, |mgr.IAsLst.lista| - mgr.IAsLst.it
    {
      var r := mgr.IAsLst.Peek();
      if r.None? {
        break;
      }
      var next := r.value;
      PickNext(vs, links, mgr.IAsLst.lista, released.lista, mgr.IAsLst.it);
      mgr.IAsLst := mgr.IAsLst.Next();
      if next.duid == first.duid && next.ifindex == first.ifindex {
        released := released.Append(next);
        if next.ifindex !in links {
          return;
        }
        Take(mgr, mgr.IAsLst.it - 1, next.iaid);
      }
    }
    PickEnds(vs, links, mgr.IAsLst.lista, released.lista);
  }

  /** Takes the addresses of one IA off its interface. */
  method TakeOff(x: IAView) returns (gone: set<(nat, Address)>)
    ensures gone == set a | a in Addrs(x.addrs) :: (x.ifindex, a)
  {
    gone := {};
    var lst := Cursored(x.addrs, 0);
    while lst.Peek().Some?
      invariant lst.Positioned() && lst.lista == x.addrs
      invariant gone == set a | a in Addrs(lst.lista[..lst.it]) :: (x.ifindex, a)
      decreases |lst.lista| - lst.it
    {
      var l := lst.Peek().value;
      AddrsNext(lst.lista, lst.it);
      lst := lst.Next();
      gone := gone + {(x.ifindex, l.addr)};
    }
    assert lst.lista[..lst.it] == lst.lista;
  }

  /** `sendRelease` and the constructor of the RELEASE: names the IAs and takes their
      addresses off. */
  method SendRelease(iaLst: Cursored<IAView>, net: Net) returns (made: seq<ReleaseMsg>, gone: set<(nat, Address)>)
    requires iaLst.lista != []
    ensures made == MadeFor(iaLst.lista, net) && gone == GoneIn(iaLst.lista, net)
  {
    ghost var group := iaLst.lista;
    var lst := iaLst.First();
    var server, ifindex := lst.Peek().value.duid, lst.Peek().value.ifindex;
    if ifindex !in net.configured {
      return [], {};
    }
    var iaids: seq<nat> := [];
    gone := {};
    HeldNone(net.links);
    hide HeldOn, Addrs;
    while lst.Peek().Some?
      invariant lst.Positioned() && lst.lista == group
      invariant iaids == Ids(group[..lst.it]) && gone == HeldOn(group[..lst.it], net.links)
      decreases |group| - lst.it
    {
      var x := lst.Peek().value;
      HeldNext(group, lst.it, net.links);
      lst := lst.Next();
      iaids := iaids + [x.iaid];
      if x.ifindex in net.links {
        var taken := TakeOff(x);
        gone := gone + taken;
      }
    }
    assert group[..lst.it] == group;
    made := [ReleaseMsg(server, ifindex, iaids, ifindex in net.links)];
  }

  lemma {:induction false} HeldNone(ifs: set<nat>)
    ensures HeldOn([], ifs) == {}
  {
  }

  lemma {:induction false} HeldNext(group: seq<IAView>, k: nat, ifs: set<nat>)
    requires k < |group|
    ensures var v := group[k];
            HeldOn(group[..k + 1], ifs) ==
            HeldOn(group[..k], ifs) + if v.ifindex in ifs then set a | a in Addrs(v.addrs) :: (v.ifindex, a) else {}
  {
    hide Addrs;
    assert forall v :: v in group[..k + 1] <==> v in group[..k] || v == group[k];
  }

  /** So far `made` and `gone`; the rest comes from the IAs `cur`. */
  ghost predicate Underway(all: seq<seq<IAView>>, net: Net, cur: seq<IAView>, made: seq<ReleaseMsg>,
                           gone: set<(nat, Address)>) {
    && made + Made(Groups(cur, net.links), net) == Made(all, net)
    && gone + GoneOf(Groups(cur, net.links), net) == GoneOf(all, net)
  }

  lemma {:induction false} UnderwayNext(all: seq<seq<IAView>>, net: Net, cur: seq<IAView>,
                                        made: seq<ReleaseMsg>, gone: set<(nat, Address)>)
    requires Underway(all, net, cur, made, gone) && cur != []
    ensures var (group, rest) := NextGroup(cur, net.links);
            group != [] && Underway(all, net, rest, made + MadeFor(group, net), gone + GoneIn(group, net))
  {
    var (group, rest) := NextGroup(cur, net.links);
    var gs := Groups(cur, net.links);
    assert gs[0] == group && gs[1..] == Groups(rest, net.links) && group != [];
    hide GoneIn, MadeFor, NextGroup;
    assert made + (MadeFor(group, net) + Made(gs[1..], net)) == made + MadeFor(group, net) + Made(gs[1..], net);
  }

  lemma {:induction false} UnderwayEnds(all: seq<seq<IAView>>, net: Net, made: seq<ReleaseMsg>,
                                        gone: set<(nat, Address)>)
    requires Underway(all, net, [], made, gone)
    ensures made == Made(all, net) && gone == GoneOf(all, net)
  {
  }

  /** `shutdown`, as far as it concerns IA_NAs. */
  method ShutdownAll(mgr: AddrMgr, net: Net) returns (made: seq<ReleaseMsg>, gone: set<(nat, Address)>)
    requires UniqueIds(mgr.IAsLst.lista)
    modifies mgr
    ensures mgr.IAsLst.lista == []
    ensures made == Made(Groups(Filter(old(mgr.IAsLst.lista), Releasable()), net.links), net)
    ensures gone == GoneOf(Groups(Filter(old(mgr.IAsLst.lista), Releasable()), net.links), net)
  {
    DropIdle(mgr);
    ghost var all := Groups(mgr.IAsLst.lista, net.links);
    made, gone := [], {};
    assert Underway(all, net, mgr.IAsLst.lista, made, gone);
    hide *;
    while |mgr.IAsLst.lista| > 0
      invariant UniqueIds(mgr.IAsLst.lista) && Underway(all, net, mgr.IAsLst.lista, made, gone)
      decreases |mgr.IAsLst.lista|
    {
      UnderwayNext(all, net, mgr.IAsLst.lista, made, gone);
      var released := TakeGroup(mgr, net.links);
      var msgs, off := SendRelease(released, net);
      made, gone := made + msgs, gone + off;
    }
    UnderwayEnds(all, net, made, gone);
  }

  // -- what it means ----------------------------------------------------------------------------

  lemma {:induction false} FilterParts(vs: seq<IAView>, v: IAView)
    ensures multiset(Filter(vs, Alike(v))) + multiset(Filter(vs, Unlike(v))) == multiset(vs)
    ensures |Filter(vs, Alike(v))| + |Filter(vs, Unlike(v))| == |vs|
  {
    if vs != [] {
      FilterParts(vs[1..], v);
      assert vs == [vs[0]] + vs[1..];
    }
  }

  ghost predicate LinksExist(vs: seq<IAView>, links: set<nat>) {
    forall v <- vs :: v.ifindex in links
  }

  /** With every interface there, each group is exactly the IAs of one server and one
      interface, in their order, and no two groups are for the same. */
  lemma {:induction false} GroupsExact(vs: seq<IAView>, links: set<nat>, i: nat)
    requires LinksExist(vs, links) && i < |Groups(vs, links)|
    ensures var gs := Groups(vs, links);
            && gs[i] != [] && gs[i][0] in vs && gs[i] == Filter(vs, Alike(gs[i][0]))
            && forall j :: 0 <= j < i ==> gs[j] != [] && !Alike(gs[j][0])(gs[i][0])
    decreases |vs|
  {
    var gs := Groups(vs, links);
    var rest := NextGroup(vs, links).1;
    assert NextGroup(vs, links).0[0] == vs[0];
    FilterIn(vs, Unlike(vs[0]));
    if i > 0 {
      GroupsExact(rest, links, i - 1);
      var g := gs[i][0];
      assert Unlike(vs[0])(g);
      FilterTwice(vs, Unlike(vs[0]), Alike(g));
      forall j | 0 <= j < i
        ensures gs[j] != [] && !Alike(gs[j][0])(g)
      {
        if j > 0 {
          assert gs[j] == Groups(rest, links)[j - 1];
        }
      }
    }
  }

  /** Every IA is in a group, the one of its server and interface. */
  lemma {:induction false} EveryIAGrouped(vs: seq<IAView>, links: set<nat>, v: IAView)
    requires LinksExist(vs, links) && v in vs
    ensures exists i :: 0 <= i < |Groups(vs, links)| && v in Groups(vs, links)[i]
    decreases |vs|
  {
    var gs := Groups(vs, links);
    FilterIn(vs, Alike(vs[0]));
    FilterIn(vs, Unlike(vs[0]));
    if Alike(vs[0])(v) {
      assert v in gs[0];
    } else {
      var rest := NextGroup(vs, links).1;
      EveryIAGrouped(rest, links, v);
      var i :| 0 <= i < |Groups(rest, links)| && v in Groups(rest, links)[i];
      assert gs[i + 1] == Groups(rest, links)[i];
    }
  }

  function Flat(gs: seq<seq<IAView>>): seq<IAView> {
    if gs == [] then [] else gs[0] + Flat(gs[1..])
  }

  /** No two IAs have the same server on the same missing interface. */
  ghost predicate Alone(vs: seq<IAView>, links: set<nat>) {
    forall v :: v in vs && v.ifindex !in links ==> |Filter(vs, Alike(v))| == 1
  }

  lemma {:induction false} AloneLinked(vs: seq<IAView>, links: set<nat>)
    requires vs != [] && vs[0].ifindex in links
    ensures Alone(vs, links) <==> Alone(Filter(vs, Unlike(vs[0])), links)
  {
    var rest := Filter(vs, Unlike(vs[0]));
    FilterIn(vs, Unlike(vs[0]));
    forall v | v in vs && v.ifindex !in links
      ensures v in rest && Filter(rest, Alike(v)) == Filter(vs, Alike(v))
    {
      assert Unlike(vs[0])(v);
      FilterTwice(vs, Unlike(vs[0]), Alike(v));
    }
  }

  lemma {:induction false} AloneMissing(vs: seq<IAView>, links: set<nat>)
    requires vs != [] && vs[0].ifindex !in links
    ensures Alone(vs, links) <==> Filter(vs[1..], Alike(vs[0])) == [] && Alone(vs[1..], links)
  {
    var more := Filter(vs[1..], Alike(vs[0]));
    FilterIn(vs[1..], Alike(vs[0]));
    assert Filter(vs, Alike(vs[0])) == [vs[0]] + more;
    if more == [] {
      forall v | v in vs[1..]
        ensures Filter(vs, Alike(v)) == Filter(vs[1..], Alike(v))
      {
        assert Alike(vs[0])(v) ==> v in more;
      }
    }
  }

  lemma {:induction false} FlatStep(vs: seq<IAView>, links: set<nat>)
    requires vs != []
    ensures var (group, rest) := NextGroup(vs, links);
            Flat(Groups(vs, links)) == group + Flat(Groups(rest, links))
  {
    var (group, rest) := NextGroup(vs, links);
    var gs := Groups(vs, links);
    assert gs[0] == group && gs[1..] == Groups(rest, links);
  }

  /** A group holds what it takes from the list, or one IA more if it stays there. */
  lemma {:induction false} GroupSize(vs: seq<IAView>, links: set<nat>)
    requires vs != []
    ensures var (group, rest) := NextGroup(vs, links);
            && |group| + |rest| >= |vs|
            && (Alone(vs, links) <==> Alone(rest, links) && |group| + |rest| == |vs|)
            && (|group| + |rest| == |vs| ==> multiset(group) + multiset(rest) == multiset(vs))
  {
    if vs[0].ifindex in links {
      AloneLinked(vs, links);
      FilterParts(vs, vs[0]);
    } else {
      AloneMissing(vs, links);
      assert vs == [vs[0]] + vs[1..];
    }
  }

  lemma {:induction false} FlatSize(vs: seq<IAView>, links: set<nat>)
    ensures |Flat(Groups(vs, links))| >= |vs|
    ensures |Flat(Groups(vs, links))| == |vs| <==> Alone(vs, links)
    ensures Alone(vs, links) ==> multiset(Flat(Groups(vs, links))) == multiset(vs)
    decreases |vs|
  {
    if vs != [] {
      FlatStep(vs, links);
      GroupSize(vs, links);
      var (group, rest) := NextGroup(vs, links);
      hide NextGroup, Groups, Flat, Alone;
      FlatSize(rest, links);
    }
  }

  /** The grouping is a partition if and only if no two IAs share a server on a missing
      interface, where the search breaks off. */
  lemma {:induction false} PartitionExact(vs: seq<IAView>, links: set<nat>)
    ensures multiset(Flat(Groups(vs, links))) == multiset(vs) <==> Alone(vs, links)
  {
    FlatSize(vs, links);
    assert |multiset(Flat(Groups(vs, links)))| == |Flat(Groups(vs, links))| && |multiset(vs)| == |vs|;
  }

  function Of(server: nat, ifindex: nat): IAView -> bool {
    (v: IAView) => v.duid == server && v.ifindex == ifindex
  }

  /** The message is right about the IAs it names: they are of its server and interface, and
      if it is transmitted it names all of those, in order. */
  ghost predicate Truthful(m: ReleaseMsg, vs: seq<IAView>, net: Net) {
    && m.ifindex in net.configured && (m.sent <==> m.ifindex in net.links) && m.iaids != []
    && (forall id <- m.iaids :: exists v :: v in vs && v.iaid == id && v.duid == m.server && v.ifindex == m.ifindex)
    && (m.sent ==> m.iaids == Ids(Filter(vs, Of(m.server, m.ifindex))))
  }

  lemma {:induction false} FirstTruthful(vs: seq<IAView>, net: Net, m: ReleaseMsg)
    requires vs != [] && m in MadeFor(NextGroup(vs, net.links).0, net)
    ensures Truthful(m, vs, net)
  {
    var group := NextGroup(vs, net.links).0;
    FilterIn(vs, Alike(vs[0]));
    FilterIn(vs[1..], Alike(vs[0]));
    assert group[0] == vs[0] && forall v <- group :: v in vs && Alike(vs[0])(v);
    FilterAgrees(vs, Alike(vs[0]), Of(m.server, m.ifindex));
    forall id | id in m.iaids
      ensures exists v :: v in vs && v.iaid == id && v.duid == m.server && v.ifindex == m.ifindex
    {
      var i :| 0 <= i < |group| && group[i].iaid == id;
      assert group[i] in group;
    }
  }

  /** A message that is right about the rest is right about all. */
  lemma {:induction false} TruthfulMore(vs: seq<IAView>, net: Net, m: ReleaseMsg)
    requires vs != [] && Truthful(m, NextGroup(vs, net.links).1, net)
    ensures Truthful(m, vs, net)
  {
    var rest := NextGroup(vs, net.links).1;
    FilterIn(vs, Unlike(vs[0]));
    if vs[0].ifindex in net.links {
      assert m.iaids[0] in m.iaids;
      assert !Of(m.server, m.ifindex)(vs[0]);
      FilterTwice(vs, Unlike(vs[0]), Of(m.server, m.ifindex));
    }
    hide Ids;
  }

  /** Every RELEASE that is made goes to the server of the IAs it names, over their
      interface ... */
  lemma {:induction false} MadeExactly(vs: seq<IAView>, net: Net, m: ReleaseMsg)
    requires m in Made(Groups(vs, net.links), net)
    ensures Truthful(m, vs, net)
    decreases |vs|
  {
    if vs != [] {
      var (group, rest) := NextGroup(vs, net.links);
      var gs := Groups(vs, net.links);
      assert gs[0] == group && gs[1..] == Groups(rest, net.links);
      if m in MadeFor(group, net) {
        FirstTruthful(vs, net, m);
      } else {
        hide NextGroup, MadeFor, Truthful;
        MadeExactly(rest, net, m);
        TruthfulMore(vs, net, m);
      }
    }
  }

  /** The IAIDs in the messages that are transmitted. */
  function SentIds(made: seq<ReleaseMsg>): seq<nat> {
    if made == [] then [] else (if made[0].sent then made[0].iaids else []) + SentIds(made[1..])
  }

  function On(ifs: set<nat>): IAView -> bool {
    (v: IAView) => v.ifindex in ifs
  }

  lemma {:induction false} SentAppend(a: seq<ReleaseMsg>, b: seq<ReleaseMsg>)
    ensures SentIds(a + b) == SentIds(a) + SentIds(b)
  {
    if a == [] {
      assert a + b == b;
    } else {
      assert (a + b)[1..] == a[1..] + b;
      SentAppend(a[1..], b);
    }
  }

  lemma {:induction false} IdsCons(v: IAView, vs: seq<IAView>)
    ensures Ids([v] + vs) == [v.iaid] + Ids(vs)
  {
  }

  /** Those on the interfaces are the group of `v` and those among the others. */
  lemma {:induction false} OnParts(vs: seq<IAView>, v: IAView, ifs: set<nat>)
    requires v.ifindex in ifs
    ensures multiset(Ids(Filter(vs, On(ifs)))) ==
            multiset(Ids(Filter(vs, Alike(v)))) + multiset(Ids(Filter(Filter(vs, Unlike(v)), On(ifs))))
  {
    if vs != [] {
      OnParts(vs[1..], v, ifs);
      var x := vs[0];
      IdsCons(x, Filter(vs[1..], On(ifs)));
      IdsCons(x, Filter(vs[1..], Alike(v)));
      IdsCons(x, Filter(Filter(vs[1..], Unlike(v)), On(ifs)));
      var rest := Filter(vs[1..], Unlike(v));
      assert ([x] + rest)[1..] == rest;
      hide Ids;
    }
  }

  lemma {:induction false} SentStep(vs: seq<IAView>, net: Net)
    requires vs != []
    ensures var (group, rest) := NextGroup(vs, net.links);
            SentIds(Made(Groups(vs, net.links), net)) ==
            (if vs[0].ifindex in net.links * net.configured then Ids(group) else []) +
              SentIds(Made(Groups(rest, net.links), net))
  {
    var (group, rest) := NextGroup(vs, net.links);
    var gs := Groups(vs, net.links);
    assert gs[0] == group && gs[1..] == Groups(rest, net.links) && group[0] == vs[0];
    SentAppend(MadeFor(group, net), Made(gs[1..], net));
    hide NextGroup, Ids, Made;
    assert SentIds([]) == [];
  }

  /** ... exactly the IAs whose interface exists and is configured are named in a RELEASE
      that is transmitted, each of them once ... */
  lemma {:induction false} SentExactly(vs: seq<IAView>, net: Net)
    ensures multiset(SentIds(Made(Groups(vs, net.links), net))) ==
            multiset(Ids(Filter(vs, On(net.links * net.configured))))
    decreases |vs|
  {
    if vs != [] {
      var ifs := net.links * net.configured;
      var (group, rest) := NextGroup(vs, net.links);
      SentStep(vs, net);
      SentExactly(rest, net);
      if vs[0].ifindex in ifs {
        OnParts(vs, vs[0], ifs);
      } else if vs[0].ifindex in net.links {
        FilterTwice(vs, Unlike(vs[0]), On(ifs));
      }
      hide Groups, Made, SentIds, Ids;
    }
  }

  lemma {:induction false} FilterWhole<T>(s: seq<T>, keep: T -> bool)
    ensures |Filter(s, keep)| == |s| ==> forall i :: 0 <= i < |s| ==> keep(s[i])
  {
    if s != [] {
      FilterLength(s[1..], keep);
      FilterWhole(s[1..], keep);
    }
  }

  /** ... so every IA to be released is, if and only if all their interfaces exist and are
      configured. */
  lemma {:induction false} AllSent(vs: seq<IAView>, net: Net)
    ensures multiset(SentIds(Made(Groups(vs, net.links), net))) == multiset(Ids(vs)) <==>
            forall v :: v in vs ==> v.ifindex in net.links && v.ifindex in net.configured
  {
    var ifs := net.links * net.configured;
    SentExactly(vs, net);
    var on := Filter(vs, On(ifs));
    assert |multiset(Ids(on))| == |on| && |multiset(Ids(vs))| == |vs|;
    FilterWhole(vs, On(ifs));
    hide Groups, Made, SentIds;
    if forall i :: 0 <= i < |vs| ==> On(ifs)(vs[i]) {
      FilterAll(vs, On(ifs));
    }
  }

  /** Over the whole shutdown: an IA is released exactly if it is CONFIGURED or INPROCESS, has
      an address, and is on an interface that exists and is configured. */
  lemma {:induction false} ReleasedExactly(vs: seq<IAView>, net: Net, iaid: nat)
    ensures iaid in SentIds(Made(Groups(Filter(vs, Releasable()), net.links), net)) <==>
            exists v :: && v in vs && v.iaid == iaid && (v.state == Configured || v.state == InProcess)
                        && |v.addrs| > 0 && v.ifindex in net.links && v.ifindex in net.configured
  {
    var due, ifs := Filter(vs, Releasable()), net.links * net.configured;
    SentExactly(due, net);
    FilterIn(vs, Releasable());
    FilterIn(due, On(ifs));
    var on, sent := Filter(due, On(ifs)), SentIds(Made(Groups(due, net.links), net));
    hide Groups, Made, SentIds, Filter;
    assert iaid in sent <==> iaid in multiset(sent);
    assert iaid in Ids(on) <==> iaid in multiset(Ids(on));
    if iaid in Ids(on) {
      var i :| 0 <= i < |on| && Ids(on)[i] == iaid;
      assert on[i] in on;
    }
    if v :| && v in vs && v.iaid == iaid && (v.state == Configured || v.state == InProcess)
            && |v.addrs| > 0 && v.ifindex in net.links && v.ifindex in net.configured {
      assert v in on;
      var i :| 0 <= i < |on| && on[i] == v;
      assert Ids(on)[i] == iaid;
    }
  }

  lemma {:induction false} GroupMembers(vs: seq<IAView>, links: set<nat>)
    requires vs != []
    ensures var (group, rest) := NextGroup(vs, links);
            && (forall v :: v in vs <==> v in group || v in rest)
            && group != [] && forall v :: v in group ==> v.ifindex == group[0].ifindex == vs[0].ifindex
  {
    FilterIn(vs, Alike(vs[0]));
    FilterIn(vs, Unlike(vs[0]));
    FilterIn(vs[1..], Alike(vs[0]));
    assert vs == [vs[0]] + vs[1..];
  }

  lemma {:induction false} GoneMeaning(vs: seq<IAView>, net: Net)
    ensures GoneOf(Groups(vs, net.links), net) == HeldOn(vs, net.links * net.configured)
    decreases |vs|
  {
    if vs != [] {
      var ifs := net.links * net.configured;
      var (group, rest) := NextGroup(vs, net.links);
      GroupMembers(vs, net.links);
      GoneMeaning(rest, net);
      assert Groups(vs, net.links)[0] == group && Groups(vs, net.links)[1..] == Groups(rest, net.links);
      hide NextGroup, Groups, Addrs;
      assert GoneIn(group, net) == HeldOn(group, ifs);
      assert HeldOn(group, ifs) + HeldOn(rest, ifs) == HeldOn(vs, ifs);
    }
  }

  /** Releasing takes off exactly the addresses of the IAs in CONFIGURED or INPROCESS
      whose interface exists and is configured.  An address of an IA in any other state
      stays on its interface although its IA is dropped, unless another IA holds it too. */
  lemma {:induction false} GoneExactly(vs: seq<IAView>, net: Net, ifindex: nat, a: Address)
    ensures (ifindex, a) in GoneOf(Groups(Filter(vs, Releasable()), net.links), net) <==>
            && ifindex in net.links && ifindex in net.configured
            && exists v :: v in vs && v.ifindex == ifindex && a in Addrs(v.addrs)
                           && (v.state == Configured || v.state == InProcess)
  {
    GoneMeaning(Filter(vs, Releasable()), net);
    FilterIn(vs, Releasable());
    hide GoneOf, Groups;
    if v :| v in vs && v.ifindex == ifindex && a in Addrs(v.addrs) && (v.state == Configured || v.state == InProcess) {
      assert v in Filter(vs, Releasable());
    }
  }
}
