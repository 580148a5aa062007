/** ClntIfaceMgr.cpp `numBits`, `calculateSubprefix` and the loop of `modifyPrefix`:
    splitting a delegated prefix among the downlink interfaces. */
module Subprefix {

  // -- how many bits ----------------------------------------------------------------------

  function Pow2(k: nat): (r: nat)
    ensures r >= 1
  {
    if k == 0 then 1 else 2 * Pow2(k - 1)
  }

  /** How often `m` can be halved before it is 0, less one. */
  function Halvings(m: nat): nat {
    if m / 2 == 0 then 0 else 1 + Halvings(m / 2)
  }

  function BitsFor(n: nat): nat {
    if n == 0 then 0 else Halvings(n - 1) + 1
  }

  method NumBits(n: nat) returns (bits: nat)
    ensures bits == BitsFor(n)
  {
    bits := 0;
    if n == 0 {
      return 0;
    }
    var i: nat := n - 1;
    while true
      invariant bits + Halvings(i) == Halvings(n - 1)
      decreases i
    {
      i := i / 2;
      if i == 0 {
        break;
      }
      bits := bits + 1;
    }
    bits := bits + 1;
  }

  /** `k` bits can tell `n` things apart, and no fewer can: the ceiling of log2. */
  predicate Least(n: nat, k: nat) {
    n <= Pow2(k) && (k > 0 ==> Pow2(k - 1) < n)
  }

  lemma {:induction false} HalvingsMeaning(m: nat)
    requires m >= 1
    ensures Pow2(Halvings(m)) <= m < 2 * Pow2(Halvings(m))
  {
    if m / 2 != 0 {
      HalvingsMeaning(m / 2);
    }
  }

  /** The comment promises the ceiling of log2: true unless there is a single interface. */
  lemma {:induction false} BitsForExact(n: nat)
    ensures Least(n, BitsFor(n)) <==> n != 1
  {
    if n >= 2 {
      HalvingsMeaning(n - 1);
    }
  }

  lemma {:induction false} Pow2Grows(j: nat, k: nat)
    requires j <= k
    ensures Pow2(j) <= Pow2(k)
    decreases k
  {
    if j < k {
      Pow2Grows(j, k - 1);
    }
  }

  lemma {:induction false} EightBits(n: nat)
    requires 2 <= n <= 256
    ensures 1 <= BitsFor(n) <= 8
    ensures BitsFor(n) == 8 <==> n > 128
  {
    BitsForExact(n);
    assert Pow2(7) == 128 && Pow2(8) == 256;
    if BitsFor(n) > 8 {
      Pow2Grows(8, BitsFor(n) - 1);
    } else if BitsFor(n) < 8 {
      Pow2Grows(BitsFor(n), 7);
    }
  }

  // -- octets and bits -----------------------------------------------------------------------

  /** A number below 8 as a shift count. */
  function Count(k: nat): (c: bv8)
    requires k < 8
    ensures c < 8
  {
    match k
    case 0 => 0
    case 1 => 1
    case 2 => 2
    case 3 => 3
    case 4 => 4
    case 5 => 5
    case 6 => 6
    case _ => 7
  }

  predicate BitAt(b: bv8, k: bv8)
    requires k < 8
  {
    (b << k) & 0x80 != 0
  }

  /** Bit `k` of an octet, most significant first. */
  predicate Bit(b: bv8, k: nat)
    requires k < 8
  {
    BitAt(b, Count(k))
  }

  function AllBits(buf: seq<bv8>): (r: seq<bool>)
    ensures |r| == 8 * |buf|
  {
    seq(8 * |buf|, (k: nat) requires k < 8 * |buf| => Bit(buf[k / 8], k % 8))
  }

  /** The specification of both paths: bits `p` to `p + 7` become the index, as far as
      the address reaches; no other bit changes. */
  function Replaced(bits: seq<bool>, p: nat, index: bv8): (r: seq<bool>)
    ensures |r| == |bits|
  {
    seq(|bits|, (k: nat) requires k < |bits| => if p <= k < p + 8 then Bit(index, k - p) else bits[k])
  }

  /** Misc/addrpack.c `readUint16`: the octets are plain `char`, so where that type is
      signed an octet of 0x80 or more counts as negative. */
  function ReadUint16(hi: bv8, lo: bv8, signedChar: bool): bv16 {
    ((hi as bv16) << 8) + (if signedChar && lo >= 0x80 then 0xff00 | lo as bv16 else lo as bv16)
  }

  function Bitmask(r: bv8): bv16
    requires r < 8
  {
    0xff00 >> r
  }

  function Infix(index: bv8, r: bv8): bv16
    requires r < 8
  {
    ((index as bv16) << 8) >> r
  }

  /** The octets after `index` was laid over bits `r` to `r + 7` of them. */
  function Mixed(existing: bv16, index: bv8, r: bv8): bv16
    requires r < 8
  {
    (existing & !Bitmask(r)) | (Bitmask(r) & Infix(index, r))
  }

  function High(x: bv16): bv8 {
    ((x >> 8) & 0xff) as bv8
  }

  function Low(x: bv16): bv8 {
    (x & 0xff) as bv8
  }

  /** The 17 octets that `calculateSubprefix` ends up with. */
  function Split(buf: seq<bv8>, p: nat, index: bv8, signedChar: bool): (r: seq<bv8>)
    requires |buf| == 17 && p <= 128
    ensures |r| == 17
  {
    var o := p / 8;
    if p % 8 == 0 then buf[o := index]
    else
      var x := Mixed(ReadUint16(buf[o], buf[o + 1], signedChar), index, Count(p % 8));
      buf[o := High(x)][o + 1 := Low(x)]
  }

  function SubLen(p: nat, n: nat): nat {
    if p + BitsFor(n) < 64 then 64 else p + BitsFor(n)
  }

  function Octet(i: nat): bv8 {
    (i % 256) as bv8
  }

  /** The 16 octets of the address that is made of them. */
  function Sub(prefix: seq<bv8>, p: nat, i: nat, signedChar: bool): (r: seq<bv8>)
    requires |prefix| == 16 && p <= 128
    ensures |r| == 16
  {
    Split(prefix + [0], p, Octet(i), signedChar)[..16]
  }

  // -- the code -----------------------------------------------------------------------------

  /** One octet more than the address, for the index behind a very long prefix. */
  method Padded(prefix: seq<bv8>) returns (buf: array<bv8>)
    requires |prefix| == 16
    ensures fresh(buf) && buf[..] == prefix + [0]
  {
    buf := new bv8[17](_ => 0);
    for j := 0 to 16
      invariant buf[..j] == prefix[..j] && buf[16] == 0
    {
      buf[j] := prefix[j];
    }
  }

  /** The path for a prefix that ends inside an octet. */
  method MixIndex(hi: bv8, lo: bv8, index: bv8, r: bv8, signedChar: bool) returns (existing: bv16)
    requires r < 8
    ensures existing == Mixed(ReadUint16(hi, lo, signedChar), index, r)
  {
    hide ReadUint16;
    existing := ReadUint16(hi, lo, signedChar);
    var bitmask := Bitmask(r);
    var infixmask := Infix(index, r);
    existing := existing & !bitmask;
    existing := existing | (bitmask & infixmask);
    hide Bitmask, Infix;
  }

  method CalculateSubprefix(prefix: seq<bv8>, prefixLen: nat, numPrefixes: nat, i: nat, signedChar: bool)
    returns (addr: seq<bv8>, subprefixLen: nat)
    requires |prefix| == 16 && prefixLen <= 128
    ensures numPrefixes == 1 ==> addr == prefix && subprefixLen == prefixLen
    ensures numPrefixes != 1 ==>
            addr == Sub(prefix, prefixLen, i, signedChar) && subprefixLen == SubLen(prefixLen, numPrefixes)
  {
    if numPrefixes == 1 {
      return prefix, prefixLen;
    }
    hide Mixed, ReadUint16, Count, High, Low, Octet, Halvings;
    var buf := Padded(prefix);
    var bitShift := NumBits(numPrefixes);
    subprefixLen := prefixLen + bitShift;
    var offset := prefixLen / 8;
    if prefixLen % 8 == 0 {
      buf[offset] := Octet(i);
    } else {
      var existing := MixIndex(buf[offset], buf[offset + 1], Octet(i), Count(prefixLen % 8), signedChar);
      buf[offset] := High(existing);
      buf[offset + 1] := Low(existing);
    }
    if subprefixLen < 64 {
      subprefixLen := 64;
    }
    addr := buf[..16];
  }

  /** The sub-prefix of interface `i` of `n`. */
  function Share(prefix: seq<bv8>, p: nat, n: nat, i: nat, signedChar: bool): (seq<bv8>, nat)
    requires |prefix| == 16 && p <= 128
  {
    if n == 1 then (prefix, p) else (Sub(prefix, p, i, signedChar), SubLen(p, n))
  }

  /** `modifyPrefix` for `n` downlink interfaces; `accepts` are the answers of the
      operating system and `asked` the sub-prefixes it is given, one for each interface.
      A prefix longer than /120 or more than 256 interfaces are refused outright. */
  method ModifyPrefix(prefix: seq<bv8>, prefixLen: nat, n: nat, skip: bool, accepts: seq<bool>, signedChar: bool)
    returns (ok: bool, asked: seq<(seq<bv8>, nat)>)
    requires |prefix| == 16 && |accepts| >= n
    ensures prefixLen > 120 || n > 256 ==> !ok && asked == []
    ensures prefixLen <= 120 && n <= 256 ==>
              |asked| == n && forall i :: 0 <= i < n ==> asked[i] == Share(prefix, prefixLen, n, i, signedChar)
    ensures prefixLen <= 120 && n <= 256 ==> (ok <==> n == 0 || skip || true in accepts[..n])
  {
    hide Sub, SubLen;
    asked := [];
    if prefixLen > 120 {
      return false, asked;
    }
    if n == 0 && !skip {
      return true, asked;
    }
    var conf := 0;
    for i := 0 to n
      invariant |asked| == i && (i > 0 ==> n <= 256)
      invariant forall j :: 0 <= j < i ==> asked[j] == Share(prefix, prefixLen, n, j, signedChar)
      invariant conf >= 0 && (conf > 0 <==> true in accepts[..i])
    {
      if n > 256 {
        return false, asked;
      }
      var addr, len := CalculateSubprefix(prefix, prefixLen, n, i, signedChar);
      asked := asked + [(addr, len)];
      assert accepts[..i + 1] == accepts[..i] + [accepts[i]];
      if accepts[i] {
        conf := conf + 1;
      }
    }
    ok := conf > 0 || skip;
  }

  // -- the two paths ------------------------------------------------------------------------

  /** What the 16-bit read makes of the first octet. */
  function Borrowed(hi: bv8, lo: bv8, signedChar: bool): bv8 {
    if signedChar && lo >= 0x80 then hi - 1 else hi
  }

  lemma {:induction false} ReadBorrows(hi: bv8, lo: bv8, signedChar: bool)
    ensures High(ReadUint16(hi, lo, signedChar)) == Borrowed(hi, lo, signedChar)
    ensures Low(ReadUint16(hi, lo, signedChar)) == lo
  {
  }

  /** Bit by bit, the two octets are what they were around the index. */
  lemma {:induction false} HighBits(w: bv16, index: bv8, r: bv8, k: bv8)
    requires 1 <= r < 8 && k < 8
    ensures BitAt(High(Mixed(w, index, r)), k) <==> if k < r then BitAt(High(w), k) else BitAt(index, k - r)
  {
  }

  lemma {:induction false} LowBits(w: bv16, index: bv8, r: bv8, k: bv8)
    requires 1 <= r < 8 && k < 8
    ensures BitAt(Low(Mixed(w, index, r)), k) <==> if k < r then BitAt(index, k + 8 - r) else BitAt(Low(w), k)
  {
  }

  lemma {:induction false} Counts(k: nat, r: nat)
    requires k < 8 && r < 8
    ensures Count(k) < Count(r) <==> k < r
    ensures r >= 1 ==> Count(r) >= 1
    ensures k >= r ==> Count(k) - Count(r) == Count(k - r)
    ensures k < r ==> Count(k) + 8 - Count(r) == Count(k + 8 - r)
  {
  }

  lemma {:induction false} BorrowBits(h: bv8, r: bv8, k: bv8)
    requires 1 <= r < 8 && k < r
    ensures h & (0xff >> r) != 0 ==> BitAt(h - 1, k) == BitAt(h, k)
    ensures h & (0xff >> r) == 0 ==> BitAt(h - 1, r - 1) != BitAt(h, r - 1)
  {
  }

  lemma {:induction false} EqualBits(x: bv8, y: bv8)
    ensures x == y <==> forall k: nat :: k < 8 ==> Bit(x, k) == Bit(y, k)
  {
    if forall k: nat :: k < 8 ==> Bit(x, k) == Bit(y, k) {
      assert Bit(x, 0) == Bit(y, 0) && Bit(x, 1) == Bit(y, 1) && Bit(x, 2) == Bit(y, 2) && Bit(x, 3) == Bit(y, 3);
      assert Bit(x, 4) == Bit(y, 4) && Bit(x, 5) == Bit(y, 5) && Bit(x, 6) == Bit(y, 6) && Bit(x, 7) == Bit(y, 7);
      SameOctet(x, y);
    }
  }

  lemma {:induction false} SameOctet(x: bv8, y: bv8)
    requires BitAt(x, 0) == BitAt(y, 0) && BitAt(x, 1) == BitAt(y, 1) &&
             BitAt(x, 2) == BitAt(y, 2) && BitAt(x, 3) == BitAt(y, 3)
    requires BitAt(x, 4) == BitAt(y, 4) && BitAt(x, 5) == BitAt(y, 5) &&
             BitAt(x, 6) == BitAt(y, 6) && BitAt(x, 7) == BitAt(y, 7)
    ensures x == y
  {
  }

  /** The octets as the 16-bit read sees them. */
  function AsRead(buf: seq<bv8>, p: nat, signedChar: bool): (r: seq<bv8>)
    requires |buf| == 17 && p <= 128
    ensures |r| == 17
  {
    var o := p / 8;
    if p % 8 == 0 then buf else buf[o := Borrowed(buf[o], buf[o + 1], signedChar)]
  }

  lemma {:induction false} MixedBit(hi: bv8, lo: bv8, index: bv8, r: nat, signedChar: bool, k: nat)
    requires 1 <= r < 8 && k < 8
    ensures var x := Mixed(ReadUint16(hi, lo, signedChar), index, Count(r));
            && (Bit(High(x), k) <==> if k < r then Bit(Borrowed(hi, lo, signedChar), k) else Bit(index, k - r))
            && (Bit(Low(x), k) <==> if k < r then Bit(index, k + 8 - r) else Bit(lo, k))
  {
    hide Count, BitAt, High, Low, Mixed, ReadUint16, Borrowed;
    ReadBorrows(hi, lo, signedChar);
    Counts(k, r);
    var w := ReadUint16(hi, lo, signedChar);
    var x := Mixed(w, index, Count(r));
    assert BitAt(High(x), Count(k)) <==> if k < r then BitAt(High(w), Count(k)) else BitAt(index, Count(k - r)) by {
      HighBits(w, index, Count(r), Count(k));
    }
    assert BitAt(Low(x), Count(k)) <==> if k < r then BitAt(index, Count(k + 8 - r)) else BitAt(Low(w), Count(k)) by {
      LowBits(w, index, Count(r), Count(k));
    }
  }

  /** Both paths refine one specification: write the index into bits `p` to `p + 7`. */
  lemma {:induction false} SplitBits(buf: seq<bv8>, p: nat, index: bv8, signedChar: bool)
    requires |buf| == 17 && p <= 128
    ensures AllBits(Split(buf, p, index, signedChar)) == Replaced(AllBits(AsRead(buf, p, signedChar)), p, index)
  {
    hide Bit, High, Low, Mixed, ReadUint16, Borrowed, Count;
    var o, r := p / 8, p % 8;
    var out := Split(buf, p, index, signedChar);
    var was := AsRead(buf, p, signedChar);
    forall k: nat | k < 136
      ensures Bit(out[k / 8], k % 8) == if p <= k < p + 8 then Bit(index, k - p) else Bit(was[k / 8], k % 8)
    {
      if r != 0 && (k / 8 == o || k / 8 == o + 1) {
        MixedBit(buf[o], buf[o + 1], index, r, signedChar, k % 8);
      }
    }
  }

  // -- the address of a sub-prefix ------------------------------------------------------------

  /** The signed read borrows from the top `r` bits: the second octet counts as negative
      and the other bits of the first are all zero. */
  predicate Borrows(hi: bv8, lo: bv8, r: nat, signedChar: bool)
    requires r < 8
  {
    signedChar && lo >= 0x80 && hi & (0xff >> Count(r)) == 0
  }

  /** It borrows from the delegated bits. */
  predicate Garbled(prefix: seq<bv8>, p: nat, signedChar: bool)
    requires |prefix| == 16 && p <= 128
  {
    var buf := prefix + [0];
    p % 8 != 0 && Borrows(buf[p / 8], buf[p / 8 + 1], p % 8, signedChar)
  }

  lemma {:induction false} SubBits(prefix: seq<bv8>, p: nat, i: nat, signedChar: bool)
    requires |prefix| == 16 && p <= 128
    ensures AllBits(Sub(prefix, p, i, signedChar)) ==
            Replaced(AllBits(AsRead(prefix + [0], p, signedChar)[..16]), p, Octet(i))
  {
    hide Bit, Split, AsRead, Octet;
    SplitBits(prefix + [0], p, Octet(i), signedChar);
    var out := Split(prefix + [0], p, Octet(i), signedChar);
    var was := AsRead(prefix + [0], p, signedChar);
    assert AllBits(out)[..128] == AllBits(out[..16]);
    assert AllBits(was)[..128] == AllBits(was[..16]);
    assert Replaced(AllBits(was), p, Octet(i))[..128] == Replaced(AllBits(was)[..128], p, Octet(i));
  }

  lemma {:induction false} CountBefore(k: nat, r: nat)
    requires k < r && 1 <= r < 8
    ensures Count(k) < Count(r) && 1 <= Count(r) && Count(r - 1) == Count(r) - 1
  {
    Counts(k, r);
  }

  lemma {:induction false} BorrowedBits(h: bv8, l: bv8, r: nat, signedChar: bool, k: nat)
    requires 1 <= r < 8 && k < r
    ensures !Borrows(h, l, r, signedChar) ==> Bit(Borrowed(h, l, signedChar), k) == Bit(h, k)
    ensures Borrows(h, l, r, signedChar) ==> Bit(Borrowed(h, l, signedChar), r - 1) != Bit(h, r - 1)
  {
    CountBefore(k, r);
    hide BitAt, Count;
    if signedChar && l >= 0x80 {
      BorrowBits(h, Count(r), Count(k));
    }
  }

  /** The bits above `p` as they are read: unchanged unless the read borrows, and then
      the last delegated bit flips. */
  lemma {:induction false} ReadBits(prefix: seq<bv8>, p: nat, signedChar: bool, k: nat)
    requires |prefix| == 16 && p <= 128 && k < 128 && (k < p || k >= p + 8)
    ensures !Garbled(prefix, p, signedChar) ==>
            AllBits(AsRead(prefix + [0], p, signedChar)[..16])[k] == AllBits(prefix)[k]
    ensures Garbled(prefix, p, signedChar) && k == p - 1 ==>
            AllBits(AsRead(prefix + [0], p, signedChar)[..16])[k] != AllBits(prefix)[k]
  {
    var o, r := p / 8, p % 8;
    hide Bit, Count, Borrowed, Borrows;
    var was := AsRead(prefix + [0], p, signedChar)[..16];
    assert AllBits(was)[k] == Bit(was[k / 8], k % 8) && AllBits(prefix)[k] == Bit(prefix[k / 8], k % 8) by {
      hide AsRead, Garbled;
    }
    hide AllBits;
    if r != 0 && k / 8 == o {
      var buf := prefix + [0];
      BorrowedBits(buf[o], buf[o + 1], r, signedChar, k % 8);
    }
  }

  lemma {:induction false} SplitRight(prefix: seq<bv8>, p: nat, i: nat, signedChar: bool)
    requires |prefix| == 16 && p <= 128 && !Garbled(prefix, p, signedChar)
    ensures AllBits(Sub(prefix, p, i, signedChar)) == Replaced(AllBits(prefix), p, Octet(i))
  {
    SubBits(prefix, p, i, signedChar);
    hide AllBits, Garbled, AsRead, Sub, Octet, Bit;
    forall k: nat | k < 128 && (k < p || k >= p + 8)
      ensures AllBits(AsRead(prefix + [0], p, signedChar)[..16])[k] == AllBits(prefix)[k]
    {
      ReadBits(prefix, p, signedChar, k);
    }
  }

  lemma {:induction false} SplitWrong(prefix: seq<bv8>, p: nat, i: nat, signedChar: bool)
    requires |prefix| == 16 && p <= 128 && Garbled(prefix, p, signedChar)
    ensures p > 0 && AllBits(Sub(prefix, p, i, signedChar))[p - 1] != AllBits(prefix)[p - 1]
  {
    SubBits(prefix, p, i, signedChar);
    hide AllBits, AsRead, Sub, Octet, Bit;
    assert p > 0;
    hide Garbled;
    ReadBits(prefix, p, signedChar, p - 1);
  }

  /** The result is right, every delegated and every lower bit unchanged and the index
      in between, if and only if the read does not borrow; and only then does the
      sub-prefix lie inside the delegated block. */
  lemma {:induction false} SplitExact(prefix: seq<bv8>, p: nat, i: nat, signedChar: bool)
    requires |prefix| == 16 && p <= 128
    ensures AllBits(Sub(prefix, p, i, signedChar)) == Replaced(AllBits(prefix), p, Octet(i)) <==>
            !Garbled(prefix, p, signedChar)
    ensures AllBits(Sub(prefix, p, i, signedChar))[..p] == AllBits(prefix)[..p] <==> !Garbled(prefix, p, signedChar)
  {
    hide AllBits, Garbled, Sub, Octet, Bit;
    var bits, sub := AllBits(prefix), AllBits(Sub(prefix, p, i, signedChar));
    if Garbled(prefix, p, signedChar) {
      SplitWrong(prefix, p, i, signedChar);
      assert sub[..p][p - 1] != bits[..p][p - 1];
      assert Replaced(bits, p, Octet(i))[p - 1] == bits[p - 1];
    } else {
      SplitRight(prefix, p, i, signedChar);
      assert Replaced(bits, p, Octet(i))[..p] == bits[..p];
    }
  }

  /** A prefix without garbage behind its delegated bits is always split right. */
  lemma {:induction false} CleanSplit(prefix: seq<bv8>, p: nat, signedChar: bool)
    requires |prefix| == 16 && p <= 128
    requires forall k :: p <= k < 128 ==> !AllBits(prefix)[k]
    ensures !Garbled(prefix, p, signedChar)
  {
    var o := p / 8 + 1;
    if p % 8 != 0 && o < 16 {
      assert !AllBits(prefix)[8 * o];
      Negative(prefix[o]);
    }
  }

  lemma {:induction false} Negative(b: bv8)
    ensures Bit(b, 0) <==> b >= 0x80
  {
  }

  /** 2001:db8:0:1080::/52 on a machine with signed char: the first sub-prefix is in
      2001:db8:0:80::/52, outside the delegated block. */
  lemma {:induction false} GarbledExample()
    ensures var prefix := [0x20, 0x01, 0x0d, 0xb8, 0, 0, 0x10, 0x80, 0, 0, 0, 0, 0, 0, 0, 0];
            Garbled(prefix, 52, true) && Sub(prefix, 52, 0, true)[6] == 0 && Sub(prefix, 52, 0, false)[6] == 0x10
  {
  }

  // -- overlap ----------------------------------------------------------------------------------

  type Addr = x: seq<bool> | |x| == 128 witness seq(128, _ => false)

  /** The address `x` lies in the block of `a` with length `s`. */
  predicate InBlock(x: Addr, a: Addr, s: nat)
    requires s <= 128
  {
    x[..s] == a[..s]
  }

  ghost predicate Overlap(a: Addr, b: Addr, s: nat)
    requires s <= 128
  {
    exists x: Addr :: InBlock(x, a, s) && InBlock(x, b, s)
  }

  /** Two indices agree on their top `t` bits of 8. */
  predicate SameTop(i: bv8, j: bv8, t: nat) {
    forall k: nat :: k < t && k < 8 ==> Bit(i, k) == Bit(j, k)
  }

  lemma {:induction false} OverlapMeaning(a: Addr, b: Addr, s: nat)
    requires s <= 128
    ensures Overlap(a, b, s) <==> a[..s] == b[..s]
  {
    assert InBlock(a, a, s);
  }

  lemma {:induction false} ReplacedTop(bits: Addr, p: nat, s: nat, x: bv8, y: bv8)
    requires p <= s <= 128
    ensures Replaced(bits, p, x)[..s] == Replaced(bits, p, y)[..s] <==> SameTop(x, y, s - p)
  {
    hide Bit;
    var a, b := Replaced(bits, p, x), Replaced(bits, p, y);
    if !SameTop(x, y, s - p) {
      var k: nat :| k < s - p && k < 8 && Bit(x, k) != Bit(y, k);
      assert a[..s][p + k] != b[..s][p + k];
    }
  }

  /** Two sub-prefixes overlap exactly when their indices agree on the top bits that the
      sub-prefix length covers. */
  lemma {:induction false} OverlapExact(prefix: seq<bv8>, p: nat, s: nat, i: nat, j: nat, signedChar: bool)
    requires |prefix| == 16 && p <= s <= 128
    ensures Overlap(AllBits(Sub(prefix, p, i, signedChar)), AllBits(Sub(prefix, p, j, signedChar)), s) <==>
            SameTop(Octet(i), Octet(j), s - p)
  {
    SubBits(prefix, p, i, signedChar);
    SubBits(prefix, p, j, signedChar);
    hide *;
    OverlapMeaning(AllBits(Sub(prefix, p, i, signedChar)), AllBits(Sub(prefix, p, j, signedChar)), s);
    ReplacedTop(AllBits(AsRead(prefix + [0], p, signedChar)[..16]), p, s, Octet(i), Octet(j));
  }

  lemma {:induction false} OctetValue(i: nat)
    requires i < 256
    ensures Octet(i) as int == i
  {
  }

  lemma {:induction false} OctetInjective(i: nat, j: nat)
    requires i < 256 && j < 256
    ensures Octet(i) == Octet(j) <==> i == j
  {
    hide Octet;
    OctetValue(i);
    OctetValue(j);
  }

  lemma {:induction false} ZeroAndOne(t: nat)
    requires t <= 7
    ensures SameTop(Octet(0), Octet(1), t)
  {
    LowestBit();
  }

  lemma {:induction false} LowestBit()
    ensures forall k: nat :: k < 7 ==> !Bit(0, k) && !Bit(1, k)
  {
  }

  ghost predicate AllDisjoint(prefix: seq<bv8>, p: nat, n: nat, signedChar: bool)
    requires |prefix| == 16 && p + BitsFor(n) <= 128
  {
    forall i: nat, j: nat :: i < j < n ==>
      !Overlap(AllBits(Sub(prefix, p, i, signedChar)), AllBits(Sub(prefix, p, j, signedChar)), SubLen(p, n))
  }

  /** The index is written into the eight bits after the prefix, but the sub-prefixes
      are only as long as the number of interfaces needs: they are disjoint only for
      delegated prefixes of /56 or shorter, or more than 128 interfaces. */
  lemma {:induction false} DisjointExactly(prefix: seq<bv8>, p: nat, n: nat, signedChar: bool)
    requires |prefix| == 16 && 2 <= n <= 256 && p + BitsFor(n) <= 128
    ensures AllDisjoint(prefix, p, n, signedChar) <==> p <= 56 || n > 128
  {
    EightBits(n);
    hide AllBits, Sub, Octet, Bit, Overlap, BitsFor;
    var s := SubLen(p, n);
    if p <= 56 || n > 128 {
      forall i: nat, j: nat | i < j < n
        ensures !Overlap(AllBits(Sub(prefix, p, i, signedChar)), AllBits(Sub(prefix, p, j, signedChar)), s)
      {
        OverlapExact(prefix, p, s, i, j, signedChar);
        OctetInjective(i, j);
        EqualBits(Octet(i), Octet(j));
      }
    } else {
      OverlapExact(prefix, p, s, 0, 1, signedChar);
      ZeroAndOne(s - p);
    }
  }
}
