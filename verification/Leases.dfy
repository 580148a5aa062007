/** AddrMgr/AddrAddr.cpp: one leased address or prefix and its clock arithmetic.

    `unsigned long` is 64 bits wide and wraps; the sentinel DHCPV6_INFINITY and the
    start value UINT_MAX of every minimum are 2^32 - 1. */
module Leases {
  import opened Containers

  const ULONG: int := 0x1_0000_0000_0000_0000
  const INFINITY: int := 0xffff_ffff
  const DADTIMEOUT := 3

  type ulong = x: int | 0 <= x < ULONG

  /** An IPv6 address, compared by value. */
  type Address = nat

  datatype Tri = Unknown | No | Yes

  datatype Lease = Lease(addr: Address, length: nat, pref: ulong, valid: ulong, timestamp: ulong, tentative: Tri)

  /** Seconds until `from + span`, computed as the source does. */
  function TimeLeft(from: ulong, span: ulong, now: ulong): ulong {
    var ts := (from + span) % ULONG;
    if ts < from then INFINITY else if ts > now then ts - now else 0
  }

  function ValidLeft(l: Lease, now: ulong): ulong {
    TimeLeft(l.timestamp, l.valid, now)
  }

  predicate Expired(l: Lease, now: ulong) {
    ValidLeft(l, now) == 0
  }

  /** The modular test is right: the time left is 0 exactly when the deadline has
      come, and it can only be called infinite if the deadline does not fit. */
  lemma {:induction false} TimeLeftMeaning(from: ulong, span: ulong, now: ulong)
    ensures TimeLeft(from, span, now) == 0 <==> from + span < ULONG && from + span <= now
    ensures from + span < ULONG && now <= from + span ==> now + TimeLeft(from, span, now) == from + span
    ensures from + span >= ULONG ==> TimeLeft(from, span, now) == INFINITY
  {
    if from + span >= ULONG {
      assert (from + span) % ULONG == from + span - ULONG;
    } else {
      assert (from + span) % ULONG == from + span;
    }
  }

  // -- running minima ---------------------------------------------------------

  function Min(a: int, b: int): int {
    if a <= b then a else b
  }

  /** The minimum of the timers, or UINT_MAX if none is below that. */
  function MinTimer(ts: seq<nat>): nat {
    if ts == [] then INFINITY else Min(MinTimer(ts[..|ts| - 1]), ts[|ts| - 1])
  }

  lemma {:induction false} MinTimerMeaning(ts: seq<nat>)
    ensures forall i :: 0 <= i < |ts| ==> MinTimer(ts) <= ts[i]
    ensures MinTimer(ts) <= INFINITY
    ensures MinTimer(ts) < INFINITY ==> exists i :: 0 <= i < |ts| && ts[i] == MinTimer(ts)
  {
    if ts != [] {
      MinTimerMeaning(ts[..|ts| - 1]);
    }
  }

  lemma {:induction false} MinTimerConcat(s: seq<nat>, t: seq<nat>)
    ensures MinTimer(s + t) == Min(MinTimer(s), MinTimer(t))
  {
    if t == [] {
      assert s + t == s;
      MinTimerMeaning(s);
    } else {
      assert (s + t)[..|s + t| - 1] == s + t[..|t| - 1];
      MinTimerConcat(s, t[..|t| - 1]);
    }
  }

  lemma {:induction false} MinTimerZero(ts: seq<nat>)
    ensures MinTimer(ts) == 0 <==> 0 in ts
  {
    MinTimerMeaning(ts);
    if 0 in ts {
      var i :| 0 <= i < |ts| && ts[i] == 0;
    }
  }

  function ValidTimers(s: seq<Lease>, now: ulong): seq<nat> {
    seq(|s|, i requires 0 <= i < |s| => ValidLeft(s[i], now))
  }

  // -- expiry -----------------------------------------------------------------

  function IsLive(now: ulong): Lease -> bool {
    l => !Expired(l, now)
  }

  /** The leases that have not expired, in order. */
  function Live(s: seq<Lease>, now: ulong): seq<Lease> {
    Filter(s, IsLive(now))
  }

  ghost predicate UniqueAddrs(s: seq<Lease>) {
    forall i, j :: 0 <= i < j < |s| ==> s[i].addr != s[j].addr
  }

  function Addrs(s: seq<Lease>): set<Address> {
    set l | l in s :: l.addr
  }

  lemma {:induction false} LiveMeaning(s: seq<Lease>, now: ulong)
    ensures forall l :: l in Live(s, now) <==> l in s && !Expired(l, now)
    ensures UniqueAddrs(s) ==> UniqueAddrs(Live(s, now))
  {
    FilterIn(s, IsLive(now));
    if s != [] {
      LiveMeaning(s[1..], now);
      if UniqueAddrs(s) && !Expired(s[0], now) {
        var r := Live(s[1..], now);
        forall j | 0 <= j < |r|
          ensures s[0].addr != r[j].addr
        {
          assert r[j] in r && r[j] in s[1..];
        }
      }
    }
  }

  lemma {:induction false} NothingExpired(s: seq<Lease>, now: ulong)
    requires forall i :: 0 <= i < |s| ==> !Expired(s[i], now)
    ensures Live(s, now) == s
  {
    FilterAll(s, IsLive(now));
  }

  lemma {:induction false} ExpiredGone(s: seq<Lease>, k: nat, now: ulong)
    requires k < |s| && Expired(s[k], now)
    ensures Live(Without(s, k), now) == Live(s, now)
  {
    FilterWithout(s, k, IsLive(now));
  }

  /** The aggregate guard: a minimum of 0 over the valid timers says exactly that
      some lease has expired. */
  lemma {:induction false} GuardExact(s: seq<Lease>, now: ulong)
    ensures MinTimer(ValidTimers(s, now)) == 0 <==> exists i :: 0 <= i < |s| && Expired(s[i], now)
    ensures MinTimer(ValidTimers(s, now)) != 0 ==> Live(s, now) == s
  {
    MinTimerZero(ValidTimers(s, now));
    if forall i :: 0 <= i < |s| ==> !Expired(s[i], now) {
      NothingExpired(s, now);
    }
    if i :| 0 <= i < |s| && Expired(s[i], now) {
      assert ValidTimers(s, now)[i] == 0;
    }
  }

  // -- finding and deleting by address ----------------------------------------

  /** Index of the first lease of `a`, or the length of the list. */
  function IndexOf(s: seq<Lease>, a: Address): (k: nat)
    ensures k <= |s|
    ensures k < |s| ==> s[k].addr == a
    ensures forall i :: 0 <= i < k ==> s[i].addr != a
  {
    if s == [] || s[0].addr == a then 0 else 1 + IndexOf(s[1..], a)
  }

  function Deleted(s: seq<Lease>, a: Address): seq<Lease> {
    if IndexOf(s, a) < |s| then Without(s, IndexOf(s, a)) else s
  }

  lemma {:induction false} IndexOfUnique(s: seq<Lease>, k: nat)
    requires UniqueAddrs(s) && k < |s|
    ensures IndexOf(s, s[k].addr) == k
  {
  }

  lemma {:induction false} SameLease(s: seq<Lease>, l: Lease, m: Lease)
    requires UniqueAddrs(s) && l in s && m in s && l.addr == m.addr
    ensures l == m
  {
    var i :| 0 <= i < |s| && s[i] == l;
    var j :| 0 <= j < |s| && s[j] == m;
  }

  lemma {:induction false} DeletedMeaning(s: seq<Lease>, a: Address)
    requires UniqueAddrs(s)
    ensures UniqueAddrs(Deleted(s, a))
    ensures Addrs(Deleted(s, a)) == Addrs(s) - {a}
    ensures forall l :: l in Deleted(s, a) <==> l in s && l.addr != a
  {
    var k := IndexOf(s, a);
    var r := Deleted(s, a);
    if k < |s| {
      assert forall i :: 0 <= i < |r| ==> r[i] == s[if i < k then i else i + 1];
      forall l | l in s && l.addr != a
        ensures l in r
      {
        var i :| 0 <= i < |s| && s[i] == l;
        assert r[if i < k then i else i - 1] == l;
      }
    }
    assert forall l :: l in r <==> l in s && l.addr != a;
    forall b
      ensures b in Addrs(r) <==> b in Addrs(s) && b != a
    {
      if b in Addrs(s) && b != a {
        var l :| l in s && l.addr == b;
        assert l in r;
      }
    }
  }
}
