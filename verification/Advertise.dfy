/** ClntTransMgr.cpp `getMaxPreference` and `sortAdvertiseLst`: the list of servers
    that answered a SOLICIT, best first. */
module Advertise {
  import opened Containers

  /** A stored ADVERTISE: the server's DUID and its preference, one octet on the wire
      and 0 if the option is absent. */
  datatype Advert = Advert(server: nat, pref: nat)

  /** Index of the first element of greatest preference. */
  function BestIndex(s: seq<Advert>): (k: nat)
    requires s != []
    ensures k < |s|
    ensures forall i :: 0 <= i < |s| ==> s[i].pref <= s[k].pref
    ensures forall i :: 0 <= i < k ==> s[i].pref < s[k].pref
  {
    if |s| == 1 then 0
    else
      var k := BestIndex(s[..|s| - 1]);
      if s[|s| - 1].pref > s[k].pref then |s| - 1 else k
  }

  function Sorted(s: seq<Advert>): (r: seq<Advert>)
    ensures |r| == |s|
    decreases |s|
  {
    if s == [] then [] else [s[BestIndex(s)]] + Sorted(Without(s, BestIndex(s)))
  }

  // -- the code ---------------------------------------------------------------

  method GetMaxPreference(lst: Cursored<Advert>) returns (max: int, left: Cursored<Advert>)
    ensures left.lista == lst.lista
    ensures max == if lst.lista == [] then -1 else lst.lista[BestIndex(lst.lista)].pref
  {
    left := lst;
    if |lst.lista| == 0 {
      return -1, left;
    }
    max := 0;
    left := left.First();
    while left.Peek().Some?
      invariant left.Positioned() && left.lista == lst.lista
      invariant max >= 0 && forall i :: 0 <= i < left.it ==> lst.lista[i].pref <= max
      invariant max == 0 || exists i :: 0 <= i < left.it && lst.lista[i].pref == max
      decreases |lst.lista| - left.it
    {
      var x := left.Peek().value;
      left := left.Next();
      if max < x.pref {
        max := x.pref;
      }
    }
  }

  /** The search for an advertisement of the greatest preference. */
  method FindBest(lst: Cursored<Advert>, max: int) returns (found: Option<Advert>, left: Cursored<Advert>)
    requires lst.lista != [] && max == lst.lista[BestIndex(lst.lista)].pref
    ensures left == Cursored(lst.lista, BestIndex(lst.lista) + 1)
    ensures found == Some(lst.lista[BestIndex(lst.lista)])
  {
    hide BestIndex;
    left := lst.First();
    while true
      invariant left.lista == lst.lista && 0 <= left.it <= BestIndex(lst.lista)
      decreases |lst.lista| - left.it
    {
      found := left.Peek();
      left := left.Next();
      if found.None? || found.value.pref == max {
        break;
      }
    }
  }

  /** Selection sort that takes the first best element each time.  The outer loop
      makes progress because the maximum is attained. */
  method SortAdvertiseLst(lst: Cursored<Advert>) returns (r: Cursored<Advert>)
    ensures r == Cursored(Sorted(lst.lista), -1)
  {
    hide BestIndex;
    var rest := lst;
    var sorted: seq<Advert> := [];
    while |rest.lista| > 0
      invariant Sorted(lst.lista) == sorted + Sorted(rest.lista)
      decreases |rest.lista|
    {
      var max, found;
      max, rest := GetMaxPreference(rest);
      found, rest := FindBest(rest, max);
      if found.Some? {
        sorted := sorted + [found.value];
        rest := rest.Del();
      }
    }
    r := Cursored(sorted, -1);
  }

  // -- what it means ------------------------------------------------------------

  function HasPref(p: nat): Advert -> bool {
    (a: Advert) => a.pref == p
  }

  ghost predicate NonIncreasing(s: seq<Advert>) {
    forall i, j :: 0 <= i < j < |s| ==> s[i].pref >= s[j].pref
  }

  lemma {:induction false} SortedIn(s: seq<Advert>)
    ensures multiset(Sorted(s)) == multiset(s)
    decreases |s|
  {
    if s != [] {
      hide BestIndex;
      var k := BestIndex(s);
      SortedIn(Without(s, k));
      MultisetWithout(s, k);
      assert multiset([s[k]] + Sorted(Without(s, k))) == multiset{s[k]} + multiset(Sorted(Without(s, k)));
    }
  }

  /** The result is ordered by preference, best first ... */
  lemma {:induction false} SortedOrder(s: seq<Advert>)
    ensures NonIncreasing(Sorted(s))
    decreases |s|
  {
    if s != [] {
      var k := BestIndex(s);
      var r := Sorted(Without(s, k));
      SortedOrder(Without(s, k));
      SortedIn(Without(s, k));
      forall j | 0 <= j < |r|
        ensures r[j].pref <= s[k].pref
      {
        assert r[j] in multiset(r);
        assert r[j] in Without(s, k);
      }
    }
  }

  /** ... and among servers of equal preference in order of arrival. */
  lemma {:induction false} SortedStable(s: seq<Advert>, p: nat)
    ensures Filter(Sorted(s), HasPref(p)) == Filter(s, HasPref(p))
    decreases |s|
  {
    if s != [] {
      var k := BestIndex(s);
      var t := Without(s, k);
      SortedStable(t, p);
      if s[k].pref == p {
        FilterFirst(s, k, HasPref(p));
      } else {
        FilterWithout(s, k, HasPref(p));
      }
    }
  }

  /** Sorting a sorted list changes nothing, so sorting before every REQUEST keeps
      the order of the servers still to be tried. */
  lemma {:induction false} SortedAgain(s: seq<Advert>)
    requires NonIncreasing(s)
    ensures Sorted(s) == s
    decreases |s|
  {
    if s != [] {
      hide BestIndex;
      assert s[0].pref >= s[BestIndex(s)].pref;
      assert Without(s, 0) == s[1..];
      SortedAgain(s[1..]);
    }
  }
}
