/** AddrMgr/AddrIA.cpp and AddrMgr/AddrClient.cpp: the nested minimum folds. */
module Timers {
  import opened Containers
  import opened Leases
  import opened AddressIA
  import opened LeaseDb

  // -- valid lifetimes ----------------------------------------------------------

  function ValidOf(v: IAView, now: ulong): seq<nat> {
    ValidTimers(v.addrs, now) + ValidTimers(v.prefixes, now)
  }

  /** The valid timers of every lease of every member. */
  function AllValid(vs: seq<IAView>, now: ulong): seq<nat> {
    if vs == [] then [] else AllValid(vs[..|vs| - 1], now) + ValidOf(vs[|vs| - 1], now)
  }

  lemma {:induction false} AllValidConcat(s: seq<IAView>, t: seq<IAView>, now: ulong)
    ensures AllValid(s + t, now) == AllValid(s, now) + AllValid(t, now)
  {
    if t == [] {
      assert s + t == s;
    } else {
      assert (s + t)[..|s + t| - 1] == s + t[..|t| - 1];
      AllValidConcat(s, t[..|t| - 1], now);
    }
  }

  lemma {:induction false} AllValidNext(vs: seq<IAView>, n: nat, now: ulong)
    requires n < |vs|
    ensures MinTimer(AllValid(vs[..n + 1], now)) == Min(MinTimer(AllValid(vs[..n], now)), MinTimer(ValidOf(vs[n], now)))
  {
    assert vs[..n + 1][..n] == vs[..n];
    MinTimerConcat(AllValid(vs[..n], now), ValidOf(vs[n], now));
  }

  method MemberValid(ghost ms: seq<AddrIA>, ghost k: nat, m: AddrIA, now: ulong, ghost vs: seq<IAView>)
    returns (t: ulong)
    requires Shows(ms, vs) && k < |ms| && ms[k] == m
    modifies m`AddrLst, m`PrefixLst
    ensures Shows(ms, vs)
    ensures t == MinTimer(ValidOf(vs[k], now))
  {
    assert m.View() == vs[k];
    t := m.GetValidTimeout(now);
  }

  method FoldValid(lst: Container<AddrIA>, start: ulong, now: ulong, ghost vs: seq<IAView>) returns (ts: ulong)
    requires start <= INFINITY && Shows(lst.lista, vs)
    modifies lst`it, Set(lst.lista)`AddrLst, Set(lst.lista)`PrefixLst
    ensures Shows(lst.lista, vs)
    ensures ts == Min(start, MinTimer(AllValid(vs, now)))
  {
    hide ValidOf;
    hide MinTimer;
    MinTimerMeaning([]);
    ts := start;
    lst.First();
    while true
      invariant lst.Positioned() && Shows(lst.lista, vs)
      invariant ts == Min(start, MinTimer(AllValid(vs[..lst.it], now)))
      decreases |lst.lista| - lst.it
    {
      var r := lst.Get();
      if r.None? {
        break;
      }
      AllValidNext(vs, lst.it - 1, now);
      var t := MemberValid(lst.lista, lst.it - 1, r.value, now, vs);
      if ts > t {
        ts := t;
      }
    }
    assert vs[..lst.it] == vs;
  }

  lemma {:induction false} MinOfThree(a: seq<IAView>, b: seq<IAView>, d: seq<IAView>, now: ulong)
    ensures MinTimer(AllValid(a + b + d, now)) ==
            Min(Min(Min(INFINITY, MinTimer(AllValid(a, now))), MinTimer(AllValid(b, now))), MinTimer(AllValid(d, now)))
  {
    AllValidConcat(a, b, now);
    AllValidConcat(a + b, d, now);
    MinTimerConcat(AllValid(a, now), AllValid(b, now));
    MinTimerConcat(AllValid(a + b, now), AllValid(d, now));
    MinTimerMeaning(AllValid(a, now));
  }

  method GetValidTimeout(c: Client, now: ulong, ghost db: Db) returns (ts: ulong)
    requires c.Separated() && c.Is(db)
    modifies {c.IAsLst, c.TALst, c.PDLst}`it, c.Members()`AddrLst, c.Members()`PrefixLst
    ensures c.Is(db)
    ensures ts == MinTimer(AllValid(db.ias + db.tas + db.pds, now))
  {
    hide AllValid;
    hide MinTimer;
    MinOfThree(db.ias, db.tas, db.pds, now);
    ts := FoldValid(c.IAsLst, INFINITY, now, db.ias);
    ts := FoldValid(c.TALst, ts, now, db.tas);
    ts := FoldValid(c.PDLst, ts, now, db.pds);
  }
}
