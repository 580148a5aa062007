/** AddrMgr/AddrIA.cpp: one IA_NA, IA_TA or IA_PD with its addresses or prefixes,
    its timers and its cached duplicate-address-detection status. */
module AddressIA {
  import opened Containers
  import opened Leases

  datatype EState = NotConfigured | InProcess | Configured | Failed | Disabled | ConfirmMe

  /** The answer of the operating system's tentative check. */
  datatype Probe = ProbeYes | ProbeNo | ProbeUnclear

  /** What a check goes by: the clock, and the system's answer for every address. */
  datatype Dad = Dad(now: ulong, answer: Address -> Probe)

  /** A duplicate fails; an inconclusive check passes. */
  function Verdict(p: Probe): Tri {
    match p
    case ProbeYes => Yes
    case ProbeNo => No
    case ProbeUnclear => No
  }

  /** The DAD window of an address whose status is unknown has closed. */
  predicate WindowClosed(l: Lease, now: ulong) {
    (l.timestamp + DADTIMEOUT) % ULONG < now
  }

  /** `m` is `l`, or `l` with an unknown status settled after its window closed. */
  predicate SettledAt(l: Lease, m: Lease, d: Dad) {
    || m == l
    || (l.tentative == Unknown && WindowClosed(l, d.now) && m == l.(tentative := Verdict(d.answer(l.addr))))
  }

  ghost predicate Settled(s: seq<Lease>, t: seq<Lease>, d: Dad) {
    |s| == |t| && forall i :: 0 <= i < |s| ==> SettledAt(s[i], t[i], d)
  }

  ghost predicate AllNo(s: seq<Lease>) {
    forall i :: 0 <= i < |s| ==> s[i].tentative == No
  }

  ghost predicate HasYes(s: seq<Lease>) {
    exists i :: 0 <= i < |s| && s[i].tentative == Yes
  }

  predicate Pending(l: Lease, now: ulong) {
    l.tentative == Unknown && !WindowClosed(l, now)
  }

  /** The scan of `getTentative` has passed the first `n` addresses. */
  ghost predicate Scanned(was: seq<Lease>, s: seq<Lease>, n: nat, d: Dad) {
    && n <= |s| && Settled(was, s, d)
    && (forall i :: 0 <= i < n ==> s[i].tentative == No || Pending(s[i], d.now))
    && (forall i :: n <= i < |s| ==> s[i] == was[i])
  }

  /** What `setTentative` computes. */
  ghost predicate Summary(s: seq<Lease>, r: Tri) {
    && (r == Yes <==> HasYes(s))
    && (r == No <==> AllNo(s))
  }

  /** Seconds left in the DAD window; the subtraction is modular as in the source. */
  function DadTimer(l: Lease, now: ulong): nat {
    if l.tentative == Unknown then ((l.timestamp + DADTIMEOUT) % ULONG - now) % ULONG else INFINITY
  }

  function DadTimers(s: seq<Lease>, now: ulong): seq<nat> {
    seq(|s|, i requires 0 <= i < |s| => DadTimer(s[i], now))
  }

  function Restamped(s: seq<Lease>, ts: ulong): seq<Lease> {
    seq(|s|, i requires 0 <= i < |s| => s[i].(timestamp := ts))
  }

  /** The longest valid time left of any lease, 0 if there is none. */
  function MaxValid(s: seq<Lease>, now: ulong): nat {
    if s == [] then 0
    else var m := MaxValid(s[..|s| - 1], now); var v := ValidLeft(s[|s| - 1], now); if m < v then v else m
  }

  /** The value of an IA: what its fields and its two lists hold. */
  datatype IAView = IAView(iaid: nat, ifindex: nat, addrs: seq<Lease>, prefixes: seq<Lease>,
                           t1: ulong, t2: ulong, state: EState, tentative: Tri, timestamp: ulong, duid: nat)
  {
    /** Leases are unique and a cached "no duplicate" is true of every address. */
    ghost predicate Sound() {
      UniqueAddrs(addrs) && UniqueAddrs(prefixes) && (tentative == No ==> AllNo(addrs))
    }
  }

  /** What `getTentative` may do to an IA: settle statuses whose window closed, and
      cache a summary; nothing at all if a status is already cached. */
  ghost predicate DadChecked(v: IAView, w: IAView, d: Dad) {
    && w == v.(addrs := w.addrs, tentative := w.tentative)
    && (v.tentative != Unknown ==> w == v)
    && (v.tentative == Unknown ==> Settled(v.addrs, w.addrs, d) && Summary(w.addrs, w.tentative))
    && (w.tentative == Unknown ==> forall i :: 0 <= i < |w.addrs| ==>
        w.addrs[i].tentative == No || Pending(w.addrs[i], d.now))
  }

  lemma {:induction false} ScanNext(v: IAView, s: seq<Lease>, n: nat, m: Lease, d: Dad)
    requires v.tentative == Unknown && Scanned(v.addrs, s, n, d) && n < |s| && SettledAt(s[n], m, d)
    ensures m.tentative == No || Pending(m, d.now) ==> Scanned(v.addrs, s[n := m], n + 1, d)
    ensures m.tentative == Yes ==> DadChecked(v, v.(addrs := s[n := m], tentative := Yes), d)
  {
    assert s[n := m][n] == m;
  }

  lemma {:induction false} ScanEnds(v: IAView, s: seq<Lease>, d: Dad)
    requires v.tentative == Unknown && Scanned(v.addrs, s, |s|, d)
    ensures DadChecked(v, v.(addrs := s, tentative := if AllNo(s) then No else Unknown), d)
  {
  }

  function DadTimeout(v: IAView, now: ulong): nat {
    match v.tentative
    case Yes => 0
    case No => INFINITY
    case Unknown => MinTimer(DadTimers(v.addrs, now))
  }

  class AddrIA {
    const IAID: nat
    const Ifindex: nat
    var AddrLst: Cursored<Lease>
    var PrefixLst: Cursored<Lease>
    var T1: ulong
    var T2: ulong
    var State: EState
    var Tentative: Tri
    var Timestamp: ulong
    var DUID: nat

    constructor (iaid: nat, ifindex: nat, t1: ulong, t2: ulong, duid: nat, now: ulong)
      ensures View() == IAView(iaid, ifindex, [], [], t1, t2, NotConfigured, Unknown, now, duid)
    {
      IAID, Ifindex, T1, T2, DUID, Timestamp := iaid, ifindex, t1, t2, duid, now;
      State, Tentative := NotConfigured, Unknown;
      AddrLst, PrefixLst := Cursored([], -1), Cursored([], -1);
    }

    ghost function View(): IAView
      reads this
    {
      IAView(IAID, Ifindex, AddrLst.lista, PrefixLst.lista, T1, T2, State, Tentative, Timestamp, DUID)
    }

    // -- lists ----------------------------------------------------------------

    method AddAddr(l: Lease)
      modifies this
      ensures View() == old(View()).(addrs := old(AddrLst).lista + [l], tentative := Unknown)
    {
      AddrLst := AddrLst.Append(l);
      Tentative := Unknown;
    }

    /** Leaves the cursor just after the address found. */
    method GetAddrByValue(a: Address) returns (r: Option<Lease>)
      modifies this`AddrLst
      ensures AddrLst.lista == old(AddrLst).lista
      ensures r.Some? <==> IndexOf(AddrLst.lista, a) < |AddrLst.lista|
      ensures r.Some? ==> AddrLst.it == IndexOf(AddrLst.lista, a) + 1 && r.value == AddrLst.lista[AddrLst.it - 1]
    {
      r, AddrLst := Find(AddrLst, a);
    }

    method DelAddr(a: Address) returns (found: bool)
      modifies this`AddrLst
      ensures AddrLst.lista == Deleted(old(AddrLst).lista, a)
      ensures found <==> IndexOf(old(AddrLst).lista, a) < |old(AddrLst).lista|
      ensures found ==> AddrLst.it == 0
    {
      found, AddrLst := DelFrom(AddrLst, a);
    }

    method DelPrefix(a: Address) returns (found: bool)
      modifies this`PrefixLst
      ensures PrefixLst.lista == Deleted(old(PrefixLst).lista, a)
      ensures found <==> IndexOf(old(PrefixLst).lista, a) < |old(PrefixLst).lista|
      ensures found ==> PrefixLst.it == 0
    {
      found, PrefixLst := DelFrom(PrefixLst, a);
    }

    method SetTimestamp(ts: ulong)
      modifies this`Timestamp, this`AddrLst
      ensures Timestamp == ts && AddrLst.lista == Restamped(old(AddrLst).lista, ts)
    {
      Timestamp := ts;
      AddrLst := AddrLst.First();
      while AddrLst.Peek().Some?
        invariant AddrLst.Positioned() && |AddrLst.lista| == |old(AddrLst).lista| && Timestamp == ts
        invariant forall i :: 0 <= i < |AddrLst.lista| ==>
          AddrLst.lista[i] == if i < AddrLst.it then old(AddrLst).lista[i].(timestamp := ts) else old(AddrLst).lista[i]
        decreases |AddrLst.lista| - AddrLst.it
      {
        var l := AddrLst.Peek().value;
        AddrLst := AddrLst.Next();
        AddrLst := AddrLst.SetLast(l.(timestamp := ts));
      }
    }

    // -- timers ---------------------------------------------------------------

    /** What is left until T1: the exact distance, 0 once it has come, infinite only if the
        deadline does not fit. */
    method GetT1Timeout(now: ulong) returns (t: ulong)
      ensures Timestamp + T1 >= ULONG ==> t == INFINITY
      ensures Timestamp + T1 <= now ==> t == 0
      ensures now <= Timestamp + T1 < ULONG ==> now + t == Timestamp + T1
      ensures t == TimeLeft(Timestamp, T1, now)
    {
      var ts: ulong := (Timestamp + T1) % ULONG;
      TimeLeftMeaning(Timestamp, T1, now);
      if ts < Timestamp {
        return INFINITY;
      }
      t := if ts > now then ts - now else 0;
    }

    /** What is left until T2: the exact distance, 0 once it has come, infinite only if the
        deadline does not fit. */
    method GetT2Timeout(now: ulong) returns (t: ulong)
      ensures Timestamp + T2 >= ULONG ==> t == INFINITY
      ensures Timestamp + T2 <= now ==> t == 0
      ensures now <= Timestamp + T2 < ULONG ==> now + t == Timestamp + T2
      ensures t == TimeLeft(Timestamp, T2, now)
    {
      var ts: ulong := (Timestamp + T2) % ULONG;
      TimeLeftMeaning(Timestamp, T2, now);
      if ts < Timestamp {
        return INFINITY;
      }
      t := if ts > now then ts - now else 0;
    }

    method GetValidTimeout(now: ulong) returns (ts: ulong)
      modifies this`AddrLst, this`PrefixLst
      ensures AddrLst.lista == old(AddrLst).lista && PrefixLst.lista == old(PrefixLst).lista
      ensures ts == MinTimer(ValidTimers(AddrLst.lista, now) + ValidTimers(PrefixLst.lista, now))
    {
      MinTimerConcat(ValidTimers(AddrLst.lista, now), ValidTimers(PrefixLst.lista, now));
      MinTimerMeaning(ValidTimers(AddrLst.lista, now));
      ts, AddrLst := FoldMin(AddrLst, INFINITY, now);
      ts, PrefixLst := FoldMin(PrefixLst, ts, now);
    }

    method GetMaxValidTimeout(now: ulong) returns (ts: ulong)
      modifies this`AddrLst, this`PrefixLst
      ensures AddrLst.lista == old(AddrLst).lista && PrefixLst.lista == old(PrefixLst).lista
      ensures ts == MaxValid(AddrLst.lista + PrefixLst.lista, now)
    {
      MaxValidConcat(AddrLst.lista, PrefixLst.lista, now);
      ts, AddrLst := FoldMax(AddrLst, 0, now);
      ts, PrefixLst := FoldMax(PrefixLst, ts, now);
    }

    // -- duplicate address detection --------------------------------------------

    /** Checks the addresses, asking the operating system about each whose window closed. */
    method GetTentative(d: Dad) returns (r: Tri)
      modifies this`Tentative, this`AddrLst
      ensures r == Tentative && DadChecked(old(View()), View(), d)
    {
      if Tentative != Unknown {
        return Tentative;
      }
      AddrLst := AddrLst.First();
      ghost var v := View();
      var allChecked := true;
      assert Scanned(v.addrs, AddrLst.lista, 0, d);
      while AddrLst.Peek().Some?
        invariant AddrLst.Positioned() && View() == v.(addrs := AddrLst.lista)
        invariant Scanned(v.addrs, AddrLst.lista, AddrLst.it, d)
        invariant allChecked <==> forall i :: 0 <= i < AddrLst.it ==> AddrLst.lista[i].tentative == No
        decreases |AddrLst.lista| - AddrLst.it
      {
        hide Scanned, DadChecked;
        var l := AddrLst.Peek().value;
        AddrLst := AddrLst.Next();
        ghost var s, n := AddrLst.lista, AddrLst.it - 1;
        ScanNext(v, s, n, l, d);
        assert s[n := l] == s;
        match l.tentative
        case Yes =>
          Tentative := Yes;
          return Yes;
        case No =>
        case Unknown =>
          if WindowClosed(l, d.now) {
            var answer := d.answer(l.addr);
            var status := if answer == ProbeYes then Yes else No;
            ScanNext(v, s, n, l.(tentative := status), d);
            AddrLst := AddrLst.SetLast(l.(tentative := status));
            if answer == ProbeYes {
              Tentative := Yes;
              return Yes;
            }
          } else {
            allChecked := false;
          }
      }
      ScanEnds(v, AddrLst.lista, d);
      if allChecked {
        Tentative := No;
        return No;
      }
      return Unknown;
    }

    /** Recomputes the cached status from the addresses. */
    method SetTentative()
      modifies this`Tentative, this`AddrLst
      ensures AddrLst.lista == old(AddrLst).lista && Summary(AddrLst.lista, Tentative)
    {
      AddrLst := AddrLst.First();
      Tentative := No;
      while AddrLst.Peek().Some?
        invariant AddrLst.Positioned() && Tentative != Yes && AddrLst.lista == old(AddrLst).lista
        invariant forall i :: 0 <= i < AddrLst.it ==> AddrLst.lista[i].tentative != Yes
        invariant Tentative == No <==> forall i :: 0 <= i < AddrLst.it ==> AddrLst.lista[i].tentative == No
        decreases |AddrLst.lista| - AddrLst.it
      {
        var l := AddrLst.Peek().value;
        AddrLst := AddrLst.Next();
        match l.tentative
        case Yes =>
          Tentative := Yes;
          return;
        case No =>
        case Unknown =>
          Tentative := Unknown;
      }
    }

    /** Time until the first DAD window closes. */
    method GetTentativeTimeout(d: Dad) returns (min: ulong)
      modifies this`Tentative, this`AddrLst
      ensures DadChecked(old(View()), View(), d)
      ensures min == DadTimeout(View(), d.now)
    {
      var now := d.now;
      min := INFINITY;
      var status := GetTentative(d);
      if status == Yes {
        return 0;
      }
      if status == No {
        return;
      }
      AddrLst := AddrLst.First();
      ghost var timers := DadTimers(AddrLst.lista, now);
      label scan:
      while AddrLst.Peek().Some?
        invariant AddrLst.Positioned() && AddrLst.lista == old@scan(AddrLst).lista && Tentative == Unknown
        invariant min == MinTimer(timers[..AddrLst.it])
        decreases |AddrLst.lista| - AddrLst.it
      {
        MinTimerMeaning(timers[..AddrLst.it]);
        var l := AddrLst.Peek().value;
        AddrLst := AddrLst.Next();
        if l.tentative == Unknown && min > ((l.timestamp + DADTIMEOUT) % ULONG - now) % ULONG {
          min := ((l.timestamp + DADTIMEOUT) % ULONG - now) % ULONG;
        }
        assert timers[..AddrLst.it][..AddrLst.it - 1] == timers[..AddrLst.it - 1];
      }
      assert timers[..AddrLst.it] == timers;
    }
  }

  // -- list walks ---------------------------------------------------------------

  method Find(lst: Cursored<Lease>, a: Address) returns (r: Option<Lease>, left: Cursored<Lease>)
    ensures left.lista == lst.lista && left.Positioned()
    ensures r.Some? <==> IndexOf(lst.lista, a) < |lst.lista|
    ensures r.Some? ==> left.it == IndexOf(lst.lista, a) + 1 && r.value == lst.lista[left.it - 1]
  {
    left := lst.First();
    while true
      invariant left.Positioned() && left.lista == lst.lista
      invariant forall i :: 0 <= i < left.it ==> lst.lista[i].addr != a
      decreases |lst.lista| - left.it
    {
      r := left.Peek();
      left := left.Next();
      if r.None? || r.value.addr == a {
        return;
      }
    }
  }

  method DelFrom(lst: Cursored<Lease>, a: Address) returns (found: bool, left: Cursored<Lease>)
    ensures left.lista == Deleted(lst.lista, a)
    ensures found <==> IndexOf(lst.lista, a) < |lst.lista|
    ensures found ==> left.it == 0
  {
    var r;
    r, left := Find(lst, a);
    found := r.Some?;
    if found {
      left := left.Del();
    }
  }

  method FoldMin(lst: Cursored<Lease>, start: ulong, now: ulong) returns (ts: ulong, left: Cursored<Lease>)
    requires start <= INFINITY
    ensures left.lista == lst.lista
    ensures ts == Min(start, MinTimer(ValidTimers(lst.lista, now)))
  {
    ts, left := start, lst.First();
    ghost var timers := ValidTimers(lst.lista, now);
    while left.Peek().Some?
      invariant left.Positioned() && left.lista == lst.lista
      invariant ts == Min(start, MinTimer(timers[..left.it]))
      decreases |lst.lista| - left.it
    {
      var l := left.Peek().value;
      left := left.Next();
      if ts > ValidLeft(l, now) {
        ts := ValidLeft(l, now);
      }
      assert timers[..left.it][..left.it - 1] == timers[..left.it - 1];
    }
    assert timers[..left.it] == timers;
  }

  method FoldMax(lst: Cursored<Lease>, start: ulong, now: ulong) returns (ts: ulong, left: Cursored<Lease>)
    ensures left.lista == lst.lista
    ensures ts == var m := MaxValid(lst.lista, now); if start < m then m else start
  {
    ts, left := start, lst.First();
    while left.Peek().Some?
      invariant left.Positioned() && left.lista == lst.lista
      invariant ts == var m := MaxValid(lst.lista[..left.it], now); if start < m then m else start
      decreases |lst.lista| - left.it
    {
      var l := left.Peek().value;
      left := left.Next();
      if ts < ValidLeft(l, now) {
        ts := ValidLeft(l, now);
      }
      assert lst.lista[..left.it][..left.it - 1] == lst.lista[..left.it - 1];
    }
    assert lst.lista[..left.it] == lst.lista;
  }

  // -- facts ------------------------------------------------------------------

  lemma {:induction false} MaxValidConcat(s: seq<Lease>, t: seq<Lease>, now: ulong)
    ensures MaxValid(s + t, now) == var a, b := MaxValid(s, now), MaxValid(t, now); if a < b then b else a
  {
    if t == [] {
      assert s + t == s;
    } else {
      assert (s + t)[..|s + t| - 1] == s + t[..|t| - 1];
      MaxValidConcat(s, t[..|t| - 1], now);
    }
  }

  lemma {:induction false} MaxValidMeaning(s: seq<Lease>, now: ulong)
    ensures forall i :: 0 <= i < |s| ==> ValidLeft(s[i], now) <= MaxValid(s, now)
    ensures MaxValid(s, now) > 0 ==> exists i :: 0 <= i < |s| && ValidLeft(s[i], now) == MaxValid(s, now)
  {
    if s != [] {
      MaxValidMeaning(s[..|s| - 1], now);
      assert forall i :: 0 <= i < |s| - 1 ==> s[..|s| - 1][i] == s[i];
      if MaxValid(s, now) == MaxValid(s[..|s| - 1], now) > 0 {
        var i :| 0 <= i < |s| - 1 && ValidLeft(s[..|s| - 1][i], now) == MaxValid(s, now);
        assert ValidLeft(s[i], now) == MaxValid(s, now);
      }
    }
  }

  lemma {:induction false} SettledKeeps(s: seq<Lease>, t: seq<Lease>, d: Dad)
    requires Settled(s, t, d)
    ensures Addrs(s) == Addrs(t)
    ensures UniqueAddrs(s) <==> UniqueAddrs(t)
    ensures HasYes(s) ==> HasYes(t)
    ensures AllNo(s) ==> s == t
  {
    assert forall i :: 0 <= i < |s| ==> s[i].addr == t[i].addr;
    forall a
      ensures a in Addrs(s) <==> a in Addrs(t)
    {
      if a in Addrs(s) {
        var i :| 0 <= i < |s| && s[i].addr == a;
        assert t[i] in t;
      }
      if a in Addrs(t) {
        var i :| 0 <= i < |t| && t[i].addr == a;
        assert s[i] in s;
      }
    }
    if i :| 0 <= i < |s| && s[i].tentative == Yes {
      assert t[i].tentative == Yes;
    }
  }

  lemma {:induction false} DadCheckedSound(v: IAView, w: IAView, d: Dad)
    requires DadChecked(v, w, d)
    ensures v.Sound() ==> w.Sound()
    ensures Addrs(v.addrs) == Addrs(w.addrs)
    ensures v.Sound() && w.tentative != Yes ==> !HasYes(w.addrs)
  {
    if v.tentative == Unknown {
      SettledKeeps(v.addrs, w.addrs, d);
    }
  }

  lemma {:induction false} ModIdentity(x: int)
    requires 0 <= x < ULONG
    ensures x % ULONG == x
  {
  }

  /** The modular subtraction never wraps: once `getTentative` has run, the window
      of every address still unknown is open, and the timer is what is left of it. */
  lemma {:induction false} DadTimerNoWrap(v: IAView, w: IAView, d: Dad, i: nat)
    requires DadChecked(v, w, d) && w.tentative == Unknown && i < |w.addrs| && w.addrs[i].tentative == Unknown
    ensures DadTimer(w.addrs[i], d.now) == (w.addrs[i].timestamp + DADTIMEOUT) % ULONG - d.now >= 0
    ensures w.addrs[i].timestamp + DADTIMEOUT < ULONG ==>
            d.now + DadTimer(w.addrs[i], d.now) == w.addrs[i].timestamp + DADTIMEOUT
  {
    var l := w.addrs[i];
    assert Pending(l, d.now);
    ModIdentity((l.timestamp + DADTIMEOUT) % ULONG - d.now);
    if l.timestamp + DADTIMEOUT < ULONG {
      ModIdentity(l.timestamp + DADTIMEOUT);
    }
  }

  /** The check settles an address exactly as the system answered: as failed for a
      duplicate, as passed otherwise; and only once its window has closed. */
  lemma {:induction false} SettlesAsAnswered(v: IAView, w: IAView, d: Dad, i: nat)
    requires DadChecked(v, w, d) && i < |v.addrs|
    ensures |w.addrs| == |v.addrs| && w.addrs[i] == v.addrs[i].(tentative := w.addrs[i].tentative)
    ensures w.addrs[i] != v.addrs[i] ==>
              var l := v.addrs[i];
              && l.tentative == Unknown && (l.timestamp + 3 < d.now || l.timestamp + 3 >= ULONG)
              && (w.addrs[i].tentative == Yes <==> d.answer(l.addr) == ProbeYes)
              && (w.addrs[i].tentative == No <==> d.answer(l.addr) == ProbeNo || d.answer(l.addr) == ProbeUnclear)
  {
    if v.addrs[i].timestamp + DADTIMEOUT < ULONG {
      ModIdentity(v.addrs[i].timestamp + DADTIMEOUT);
    }
  }

  /** An address that has failed, or is a duplicate whose window has closed. */
  predicate Fails(l: Lease, d: Dad) {
    l.tentative == Yes || (l.tentative == Unknown && WindowClosed(l, d.now) && d.answer(l.addr) == ProbeYes)
  }

  /** One that has passed, or is to pass now. */
  predicate Passes(l: Lease, d: Dad) {
    l.tentative == No || (l.tentative == Unknown && WindowClosed(l, d.now) && d.answer(l.addr) != ProbeYes)
  }

  /** The status returned follows from the answers: if none was cached, an IA has failed
      if and only if some address fails, and passed if and only if all pass. */
  lemma {:induction false} StatusAsAnswered(v: IAView, w: IAView, d: Dad)
    requires DadChecked(v, w, d)
    ensures v.tentative != Unknown ==> w.tentative == v.tentative
    ensures v.tentative == Unknown ==> (w.tentative == Yes <==> exists i :: 0 <= i < |v.addrs| && Fails(v.addrs[i], d))
    ensures v.tentative == Unknown ==> (w.tentative == No <==> forall i :: 0 <= i < |v.addrs| ==> Passes(v.addrs[i], d))
  {
    if v.tentative == Unknown {
      assert forall i :: 0 <= i < |v.addrs| ==> SettledAt(v.addrs[i], w.addrs[i], d);
      if w.tentative == Yes {
        var i :| 0 <= i < |w.addrs| && w.addrs[i].tentative == Yes;
        assert Fails(v.addrs[i], d);
      } else {
        assert forall i :: 0 <= i < |w.addrs| ==> w.addrs[i].tentative != Yes;
        assert forall i :: 0 <= i < |w.addrs| ==> w.addrs[i].tentative == No || Pending(w.addrs[i], d.now);
        assert forall i :: 0 <= i < |v.addrs| ==> !Fails(v.addrs[i], d);
      }
    }
  }
}
