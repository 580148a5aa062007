/** ClntIfaceMgr/ClntIfaceIface.cpp: bringing the stored list of an option (DNS
    servers, domains, NTP, SIP, NIS and NIS+ servers) in line with the list a
    server sent.  The six copies of the algorithm differ only in the element type
    and in the operating system call, so both are parameters here. */
module OptionLists {
  import opened Containers

  /** What the operating system is told, in order. */
  datatype OsCall<T> = OsAdd(entry: T) | OsDel(entry: T)

  function Wanted<T(==,!new)>(wanted: seq<T>): T -> bool {
    x => x in wanted
  }

  function Unwanted<T(==,!new)>(wanted: seq<T>): T -> bool {
    x => x !in wanted
  }

  /** The entries of `wanted` to append to `have`, each when first met. */
  function NewOnes<T(==,!new)>(have: seq<T>, wanted: seq<T>): seq<T>
    decreases wanted
  {
    if wanted == [] then []
    else if wanted[0] in have then NewOnes(have, wanted[1..])
    else [wanted[0]] + NewOnes(have + [wanted[0]], wanted[1..])
  }

  function Adds<T>(s: seq<T>): (r: seq<OsCall<T>>) {
    seq(|s|, i requires 0 <= i < |s| => OsAdd(s[i]))
  }

  function Dels<T>(s: seq<T>): (r: seq<OsCall<T>>) {
    seq(|s|, i requires 0 <= i < |s| => OsDel(s[i]))
  }

  function Stale<T(==,!new)>(have: seq<T>, wanted: seq<T>): seq<T> {
    Filter(have, Unwanted(wanted))
  }

  function Kept<T(==,!new)>(have: seq<T>, wanted: seq<T>): seq<T> {
    Filter(have, Wanted(wanted))
  }

  function Reconciled<T(==,!new)>(have: seq<T>, wanted: seq<T>): seq<T> {
    Kept(have, wanted) + NewOnes(Kept(have, wanted), wanted)
  }

  function Calls<T(==,!new)>(have: seq<T>, wanted: seq<T>): seq<OsCall<T>> {
    Dels(Stale(have, wanted)) + Adds(NewOnes(Kept(have, wanted), wanted))
  }

  // -- the code ---------------------------------------------------------------

  class IfaceOption<T(==,!new)> {
    const stored: Container<T>
    var log: seq<OsCall<T>>

    constructor ()
      ensures fresh(stored) && stored.lista == [] && log == []
    {
      stored := new Container();
      log := [];
    }

    /** The inner search loop: is `x` on the list? */
    static method Search(lst: Container<T>, x: T) returns (found: bool)
      modifies lst`it
      ensures found <==> x in lst.lista
      ensures lst.Positioned()
    {
      lst.First();
      while true
        invariant lst.Positioned() && x !in lst.lista[..lst.it]
        decreases |lst.lista| - lst.it
      {
        var y := lst.Get();
        if y.None? {
          return false;
        }
        if y.value == x {
          return true;
        }
      }
    }

    method RemoveStale(wanted: Container<T>)
      requires wanted != stored
      modifies this`log, stored, wanted`it
      ensures stored.lista == Kept(old(stored.lista), wanted.lista)
      ensures log == old(log) + Dels(Stale(old(stored.lista), wanted.lista))
    {
      stored.First();
      ghost var was, before, gone: seq<T> := stored.lista, log, [];
      assert Removing(was, stored.lista, wanted.lista, gone, 0);
      while true
        invariant stored.Positioned() && log == before + Dels(gone)
        invariant Removing(was, stored.lista, wanted.lista, gone, stored.it)
        decreases |stored.lista|, |stored.lista| - stored.it
      {
        hide Removing, Dels;
        var x := stored.Get();
        if x.None? {
          break;
        }
        var found := Search(wanted, x.value);
        RemovingNext(was, stored.lista, wanted.lista, gone, stored.it - 1);
        if !found {
          CallsAppend(gone, x.value);
          gone := gone + [x.value];
          log := log + [OsDel(x.value)];
          stored.Del();
        }
      }
      RemovingEnds(was, stored.lista, wanted.lista, gone);
    }

    method AddNew(wanted: Container<T>)
      requires wanted != stored
      modifies this`log, stored, wanted`it
      ensures stored.lista == old(stored.lista) + NewOnes(old(stored.lista), wanted.lista)
      ensures log == old(log) + Adds(NewOnes(old(stored.lista), wanted.lista))
    {
      wanted.First();
      ghost var have, before, added: seq<T> := stored.lista, log, [];
      AddingBegins(have, wanted.lista);
      while true
        invariant wanted.Positioned() && stored.lista == have + added && log == before + Adds(added)
        invariant Adding(have, wanted.lista, added, wanted.it)
        decreases |wanted.lista| - wanted.it
      {
        hide Adding, Adds, NewOnes;
        var x := wanted.Get();
        if x.None? {
          break;
        }
        AddingNext(have, wanted.lista, added, wanted.it - 1);
        var found := Search(stored, x.value);
        if !found {
          CallsAppend(added, x.value);
          added := added + [x.value];
          log := log + [OsAdd(x.value)];
          stored.Append(x.value);
        }
      }
      AddingEnds(have, wanted.lista, added);
    }

    method SetList(wanted: Container<T>)
      requires wanted != stored
      modifies this`log, stored, wanted`it
      ensures stored.lista == Reconciled(old(stored.lista), wanted.lista)
      ensures log == old(log) + Calls(old(stored.lista), wanted.lista)
    {
      RemoveStale(wanted);
      AddNew(wanted);
    }
  }

  // -- what it amounts to -----------------------------------------------------

  lemma {:induction false} StaleStep<T(!new)>(s: seq<T>, k: nat, wanted: seq<T>)
    requires k < |s| && s[k] !in wanted
    requires forall i :: 0 <= i < k ==> s[i] in wanted
    ensures Kept(Without(s, k), wanted) == Kept(s, wanted)
    ensures Stale(s, wanted) == [s[k]] + Stale(Without(s, k), wanted)
  {
    FilterWithout(s, k, Wanted(wanted));
    FilterFirst(s, k, Unwanted(wanted));
  }

  lemma {:induction false} NothingStale<T(!new)>(s: seq<T>, wanted: seq<T>)
    requires forall i :: 0 <= i < |s| ==> s[i] in wanted
    ensures Kept(s, wanted) == s && Stale(s, wanted) == []
  {
    FilterAll(s, Wanted(wanted));
    FilterNone(s, Unwanted(wanted));
  }

  /** The scan for stale entries has passed the first `n`; `gone` have been removed. */
  ghost predicate Removing<T(!new)>(was: seq<T>, cur: seq<T>, wanted: seq<T>, gone: seq<T>, n: int) {
    && 0 <= n <= |cur| && (forall i :: 0 <= i < n ==> cur[i] in wanted)
    && Kept(cur, wanted) == Kept(was, wanted) && Stale(was, wanted) == gone + Stale(cur, wanted)
  }

  lemma {:induction false} RemovingNext<T(!new)>(was: seq<T>, cur: seq<T>, wanted: seq<T>, gone: seq<T>, n: nat)
    requires Removing(was, cur, wanted, gone, n) && n < |cur|
    ensures if cur[n] in wanted then Removing(was, cur, wanted, gone, n + 1)
            else Removing(was, Without(cur, n), wanted, gone + [cur[n]], 0)
  {
    if cur[n] !in wanted {
      StaleStep(cur, n, wanted);
      hide Kept, Stale;
      assert gone + ([cur[n]] + Stale(Without(cur, n), wanted)) == gone + [cur[n]] + Stale(Without(cur, n), wanted);
    }
  }

  lemma {:induction false} RemovingEnds<T(!new)>(was: seq<T>, cur: seq<T>, wanted: seq<T>, gone: seq<T>)
    requires Removing(was, cur, wanted, gone, |cur|)
    ensures cur == Kept(was, wanted) && gone == Stale(was, wanted)
  {
    NothingStale(cur, wanted);
  }

  /** The first `n` entries of the new list have been looked at; `added` were new. */
  ghost predicate Adding<T(!new)>(have: seq<T>, wanted: seq<T>, added: seq<T>, n: int) {
    0 <= n <= |wanted| && NewOnes(have, wanted) == added + NewOnes(have + added, wanted[n..])
  }

  lemma {:induction false} AddingBegins<T(!new)>(have: seq<T>, wanted: seq<T>)
    ensures Adding(have, wanted, [], 0)
  {
    assert have + [] == have && wanted[0..] == wanted;
  }

  lemma {:induction false} AddingNext<T(!new)>(have: seq<T>, wanted: seq<T>, added: seq<T>, n: nat)
    requires Adding(have, wanted, added, n) && n < |wanted|
    ensures Adding(have, wanted, if wanted[n] in have + added then added else added + [wanted[n]], n + 1)
  {
    assert wanted[n..][1..] == wanted[n + 1..];
    assert (have + added) + [wanted[n]] == have + (added + [wanted[n]]);
  }

  lemma {:induction false} AddingEnds<T(!new)>(have: seq<T>, wanted: seq<T>, added: seq<T>)
    requires Adding(have, wanted, added, |wanted|)
    ensures added == NewOnes(have, wanted)
  {
  }

  lemma {:induction false} CallsAppend<T>(s: seq<T>, x: T)
    ensures Dels(s + [x]) == Dels(s) + [OsDel(x)]
    ensures Adds(s + [x]) == Adds(s) + [OsAdd(x)]
  {
  }

  function FirstIndex<T(==,!new)>(s: seq<T>, x: T): (k: nat)
    requires x in s
    ensures k < |s| && s[k] == x && x !in s[..k]
  {
    if s[0] == x then 0 else 1 + FirstIndex(s[1..], x)
  }

  /** `NewOnes` lists exactly wanted \ have, once each ... */
  lemma {:induction false} NewOnesMeaning<T(!new)>(have: seq<T>, wanted: seq<T>)
    ensures forall x :: x in NewOnes(have, wanted) <==> x in wanted && x !in have
    ensures NoDup(NewOnes(have, wanted))
    decreases wanted
  {
    if wanted != [] {
      if wanted[0] in have {
        NewOnesMeaning(have, wanted[1..]);
      } else {
        NewOnesMeaning(have + [wanted[0]], wanted[1..]);
        NoDupConcat([wanted[0]], NewOnes(have + [wanted[0]], wanted[1..]));
      }
    }
  }

  lemma {:induction false} FirstLater<T(!new)>(s: seq<T>, x: T)
    requires s != [] && x in s && x != s[0]
    ensures FirstIndex(s, s[0]) == 0 && x in s[1..] && FirstIndex(s, x) == 1 + FirstIndex(s[1..], x)
  {
  }

  lemma {:induction false} NewFirst<T(!new)>(have: seq<T>, wanted: seq<T>, k: nat)
    requires wanted != [] && wanted[0] !in have && 0 < k < |NewOnes(have, wanted)|
    ensures NewOnes(have, wanted)[0] == wanted[0] != NewOnes(have, wanted)[k]
  {
    NewOnesMeaning(have, wanted);
  }

  /** ... in first-appearance order. */
  lemma {:induction false} NewOnesOrder<T(!new)>(have: seq<T>, wanted: seq<T>, i: nat, j: nat)
    requires i < j < |NewOnes(have, wanted)|
    ensures var r := NewOnes(have, wanted);
            r[i] in wanted && r[j] in wanted && FirstIndex(wanted, r[i]) < FirstIndex(wanted, r[j])
    decreases wanted
  {
    var r := NewOnes(have, wanted);
    NewOnesMeaning(have, wanted);
    assert r[i] in r && r[j] in r && r[i] != r[j];
    hide FirstIndex, NoDup;
    if wanted[0] in have {
      NewOnesOrder(have, wanted[1..], i, j);
      FirstLater(wanted, r[i]);
      FirstLater(wanted, r[j]);
    } else {
      NewFirst(have, wanted, j);
      FirstLater(wanted, r[j]);
      if i > 0 {
        NewFirst(have, wanted, i);
        NewOnesOrder(have + [wanted[0]], wanted[1..], i - 1, j - 1);
        FirstLater(wanted, r[i]);
      }
    }
  }

  /** The stored list afterwards: the wanted entries and no others, the old ones
      first and in their old order, and no duplicates unless the old list had some. */
  lemma {:induction false} ReconciledMeaning<T(!new)>(have: seq<T>, wanted: seq<T>)
    ensures forall x :: x in Reconciled(have, wanted) <==> x in wanted
    ensures Kept(have, wanted) <= Reconciled(have, wanted)
    ensures NoDup(have) ==> NoDup(Reconciled(have, wanted))
  {
    var kept := Kept(have, wanted);
    FilterIn(have, Wanted(wanted));
    NewOnesMeaning(kept, wanted);
    if NoDup(have) {
      FilterNoDup(have, Wanted(wanted));
      NoDupConcat(kept, NewOnes(kept, wanted));
    }
  }

  /** Exactly have \ wanted is deleted and exactly wanted \ have added, each added
      entry once and each deleted one once if the old list held it once; all
      deletions come first. */
  lemma {:induction false} CallsMeaning<T(!new)>(have: seq<T>, wanted: seq<T>)
    ensures forall x :: OsDel(x) in Calls(have, wanted) <==> x in have && x !in wanted
    ensures forall x :: OsAdd(x) in Calls(have, wanted) <==> x in wanted && x !in have
    ensures NoDup(have) ==> NoDup(Calls(have, wanted))
    ensures forall i, j :: 0 <= i < j < |Calls(have, wanted)| && Calls(have, wanted)[i].OsAdd? ==>
            Calls(have, wanted)[j].OsAdd?
  {
    var stale, newOnes := Stale(have, wanted), NewOnes(Kept(have, wanted), wanted);
    FilterIn(have, Wanted(wanted));
    FilterIn(have, Unwanted(wanted));
    NewOnesMeaning(Kept(have, wanted), wanted);
    if NoDup(have) {
      FilterNoDup(have, Unwanted(wanted));
    }
    forall x
      ensures OsDel(x) in Calls(have, wanted) <==> x in stale
      ensures OsAdd(x) in Calls(have, wanted) <==> x in newOnes
    {
      if x in stale {
        var i :| 0 <= i < |stale| && stale[i] == x;
        assert Calls(have, wanted)[i] == OsDel(x);
      }
      if x in newOnes {
        var i :| 0 <= i < |newOnes| && newOnes[i] == x;
        assert Calls(have, wanted)[|stale| + i] == OsAdd(x);
      }
    }
  }

  /** A repeated announcement changes nothing and makes no operating system call. */
  lemma {:induction false} Idempotent<T(!new)>(have: seq<T>, wanted: seq<T>)
    ensures Calls(Reconciled(have, wanted), wanted) == []
    ensures Reconciled(Reconciled(have, wanted), wanted) == Reconciled(have, wanted)
  {
    var now := Reconciled(have, wanted);
    ReconciledMeaning(have, wanted);
    NothingStale(now, wanted);
    NewOnesMeaning(now, wanted);
    assert |NewOnes(now, wanted)| == 0 || NewOnes(now, wanted)[0] in NewOnes(now, wanted);
  }

  function Elements<T(!new)>(s: seq<T>): set<T> {
    set x | x in s
  }

  /** The operating system's own set after a run of calls. */
  function OsAfter<T(!new)>(os: set<T>, calls: seq<OsCall<T>>): set<T>
    decreases calls
  {
    if calls == [] then os
    else OsAfter(if calls[0].OsAdd? then os + {calls[0].entry} else os - {calls[0].entry}, calls[1..])
  }

  lemma {:induction false} OsAfterAppend<T(!new)>(os: set<T>, a: seq<OsCall<T>>, b: seq<OsCall<T>>)
    ensures OsAfter(os, a + b) == OsAfter(OsAfter(os, a), b)
    decreases a
  {
    if a == [] {
      assert a + b == b;
    } else {
      assert (a + b)[1..] == a[1..] + b;
      OsAfterAppend(if a[0].OsAdd? then os + {a[0].entry} else os - {a[0].entry}, a[1..], b);
    }
  }

  lemma {:induction false} OsAfterDels<T(!new)>(os: set<T>, s: seq<T>)
    ensures OsAfter(os, Dels(s)) == os - Elements(s)
    decreases s
  {
    if s != [] {
      assert Dels(s)[1..] == Dels(s[1..]);
      OsAfterDels(os - {s[0]}, s[1..]);
    }
  }

  lemma {:induction false} OsAfterAdds<T(!new)>(os: set<T>, s: seq<T>)
    ensures OsAfter(os, Adds(s)) == os + Elements(s)
    decreases s
  {
    if s != [] {
      assert Adds(s)[1..] == Adds(s[1..]);
      OsAfterAdds(os + {s[0]}, s[1..]);
    }
  }

  /** If the operating system held what was stored, it then holds what is wanted. */
  lemma {:induction false} OsInStep<T(!new)>(have: seq<T>, wanted: seq<T>)
    ensures OsAfter(Elements(have), Calls(have, wanted)) == Elements(wanted)
  {
    var stale, newOnes := Stale(have, wanted), NewOnes(Kept(have, wanted), wanted);
    var os := Elements(have);
    OsAfterAppend(os, Dels(stale), Adds(newOnes));
    OsAfterDels(os, stale);
    OsAfterAdds(OsAfter(os, Dels(stale)), newOnes);
    FilterIn(have, Wanted(wanted));
    FilterIn(have, Unwanted(wanted));
    NewOnesMeaning(Kept(have, wanted), wanted);
  }
}
