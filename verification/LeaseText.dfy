/** AddrAddr.cpp and AddrPrefix.cpp `operator<<`, AddrMgr.cpp `parseAddrAddr` and
    `parseAddrPrefix`: one line of the lease file, written and read back. */
module LeaseText {
  import opened Containers
  import opened Leases

  /** A lease as its line shows it; the address is its text. */
  datatype Entry = Entry(addr: string, length: int, pref: ulong, valid: ulong, timestamp: ulong)

  // -- C strings ----------------------------------------------------------------------------

  predicate StartsWith(s: string, pat: string) {
    |pat| <= |s| && s[..|pat|] == pat
  }

  /** Where `pat` first occurs, or the length of `s`. */
  function Strstr(s: string, pat: string): (k: nat)
    ensures k <= |s|
  {
    if s == "" || StartsWith(s, pat) then 0 else 1 + Strstr(s[1..], pat)
  }

  predicate Found(s: string, pat: string) {
    StartsWith(s[Strstr(s, pat)..], pat)
  }

  predicate IsDigit(c: char) {
    '0' <= c <= '9'
  }

  function LeadingDigits(s: string): string {
    if s == "" || !IsDigit(s[0]) then "" else [s[0]] + LeadingDigits(s[1..])
  }

  predicate AllDigits(s: string) {
    forall i :: 0 <= i < |s| ==> IsDigit(s[i])
  }

  function Value(s: string): nat
    requires AllDigits(s)
  {
    if s == "" then 0 else 10 * Value(s[..|s| - 1]) + (s[|s| - 1] as int - '0' as int)
  }

  lemma {:induction false} LeadingAreDigits(s: string)
    ensures AllDigits(LeadingDigits(s))
  {
    if s != "" && IsDigit(s[0]) {
      LeadingAreDigits(s[1..]);
    }
  }

  const WORD := 0x1_0000_0000
  const LONG_MAX := ULONG / 2 - 1
  const CLIENT_DEFAULT_PREFIX_LENGTH := 128

  /** `atoi` of a text without blanks or sign, as the GNU C library has it: `strtol`,
      which stops at the largest long, cut to an int. */
  function Atoi(s: string): (r: int)
    ensures -WORD / 2 <= r < WORD / 2
  {
    LeadingAreDigits(s);
    AsInt(Value(LeadingDigits(s)))
  }

  function AsInt(n: nat): (r: int)
    ensures -WORD / 2 <= r < WORD / 2
  {
    var low := (if n <= LONG_MAX then n else LONG_MAX) % WORD;
    if low < WORD / 2 then low else low - WORD
  }

  function Decimal(n: nat): string {
    (if n < 10 then "" else Decimal(n / 10)) + [('0' as int + n % 10) as char]
  }

  // -- writing --------------------------------------------------------------------------------

  function Cat(parts: seq<string>): string {
    if parts == [] then "" else parts[0] + Cat(parts[1..])
  }

  /** The pieces of a line; a prefix has its own tag and its own name for the length. */
  function Parts(e: Entry, pd: bool): seq<string>
    requires e.length >= 0
  {
    [if pd then "<AddrPrefix " else "<AddrAddr ",
     "timestamp=\"", Decimal(e.timestamp), "\" ", "pref=\"", Decimal(e.pref), "\" ",
     "valid=\"", Decimal(e.valid), "\" ", if pd then "length=\"" else "prefix=\"", Decimal(e.length), "\"", ">", e.addr,
     if pd then "</AddrPrefix>\n" else "</AddrAddr>\n"]
  }

  function Print(e: Entry, pd: bool): string
    requires e.length >= 0
  {
    Cat(Parts(e, pd))
  }

  // -- reading --------------------------------------------------------------------------------

  /** The number `skip` characters after the first occurrence of `name`. */
  function Field(buf: string, name: string, skip: nat, missing: int): (r: int)
    requires -WORD / 2 <= missing < WORD / 2
    ensures -WORD / 2 <= r < WORD / 2
  {
    var x := Strstr(buf, name);
    if Found(buf, name) && x + skip <= |buf| then Atoi(buf[x + skip..]) else missing
  }

  /** The variables are 32 bits wide for an address and 64 for a prefix. */
  function Unsigned(n: int, pd: bool): ulong
    requires -WORD / 2 <= n < WORD / 2
  {
    if n >= 0 then n else if pd then n + ULONG else n + WORD
  }

  function Number(buf: string, name: string, skip: nat, pd: bool): ulong {
    Unsigned(Field(buf, name, skip, 0), pd)
  }

  /** The text between the first `>` and the closing tag. */
  function AddrText(buf: string, close: string): string {
    var x := Strstr(buf, ">");
    var end := x + Strstr(buf[x..], close);
    var buf := buf[..end];
    if x < end then buf[x + 1..] else ""
  }

  /** `parseAddrAddr` for an address, `parseAddrPrefix` for a prefix. */
  function Parse(buf: string, pd: bool): Option<Entry> {
    if !Found(buf, "<AddrAddr") && !Found(buf, "<AddrPrefix") then None
    else
      var timestamp := Number(buf, "timestamp", 11, pd);
      var pref := Number(buf, "pref=", 6, pd);
      var valid := Number(buf, "valid", 7, pd);
      var length := if pd then Field(buf, "length=", 8, 0) else Field(buf, "prefix=", 8, CLIENT_DEFAULT_PREFIX_LENGTH);
      if !Found(buf, ">") || timestamp == 0 || pref == 0 || valid == 0 then None
      else Some(Entry(AddrText(buf, if pd then "</AddrPrefix>" else "</AddrAddr>"), length, pref, valid, timestamp))
  }

  // -- the round trip -----------------------------------------------------------------------------

  /** From index `i` on, `seg` shows by itself that `pat` does not start there. */
  predicate Differs(seg: string, i: nat, pat: string, j: nat)
    decreases |pat| - j
  {
    j < |pat| && i + j < |seg| && (seg[i + j] != pat[j] || Differs(seg, i, pat, j + 1))
  }

  predicate NoMatch(seg: string, pat: string, i: nat)
    decreases |seg| - i
  {
    i >= |seg| || (Differs(seg, i, pat, 0) && NoMatch(seg, pat, i + 1))
  }

  lemma {:induction false} DiffersMeans(seg: string, i: nat, pat: string, j: nat, rest: string)
    requires Differs(seg, i, pat, j)
    ensures !StartsWith((seg + rest)[i..], pat)
    decreases |pat| - j
  {
    var t := (seg + rest)[i..];
    if seg[i + j] != pat[j] {
      assert t[j] == seg[i + j];
      assert |pat| <= |t| ==> t[..|pat|][j] == t[j];
    } else {
      DiffersMeans(seg, i, pat, j + 1, rest);
    }
  }

  lemma {:induction false} Skip(seg: string, pat: string, i: nat, rest: string)
    requires i <= |seg| && NoMatch(seg, pat, i)
    ensures Strstr((seg + rest)[i..], pat) == |seg| - i + Strstr(rest, pat)
    decreases |seg| - i
  {
    if i == |seg| {
      assert (seg + rest)[i..] == rest;
    } else {
      DiffersMeans(seg, i, pat, 0, rest);
      Skip(seg, pat, i + 1, rest);
      assert (seg + rest)[i..][1..] == (seg + rest)[i + 1..];
    }
  }

  /** A pattern that starts no earlier than part `n` is found there. */
  lemma {:induction false} FindPart(parts: seq<string>, n: nat, pat: string)
    requires n < |parts| && (forall i :: 0 <= i < n ==> NoMatch(parts[i], pat, 0)) && StartsWith(parts[n], pat)
    ensures Found(Cat(parts), pat) && Cat(parts)[Strstr(Cat(parts), pat)..] == Cat(parts[n..])
  {
    if n == 0 {
      assert parts[0..] == parts;
      assert Cat(parts)[..|pat|] == parts[0][..|pat|];
    } else {
      FindPart(parts[1..], n - 1, pat);
      var rest := Cat(parts[1..]);
      Skip(parts[0], pat, 0, rest);
      assert (parts[0] + rest)[0..] == parts[0] + rest;
      assert parts[1..][n - 1..] == parts[n..];
      assert (parts[0] + rest)[|parts[0]| + Strstr(rest, pat)..] == rest[Strstr(rest, pat)..];
    }
  }

  lemma {:induction false} DecimalValue(n: nat)
    ensures Decimal(n) != "" && AllDigits(Decimal(n)) && Value(Decimal(n)) == n
  {
    if n >= 10 {
      DecimalValue(n / 10);
    }
    var s := Decimal(n);
    assert s[..|s| - 1] == if n < 10 then "" else Decimal(n / 10);
  }

  lemma {:induction false} LeadingExact(s: string, rest: string)
    requires AllDigits(s) && (rest == "" || !IsDigit(rest[0]))
    ensures LeadingDigits(s + rest) == s
  {
    if s == "" {
      assert s + rest == rest;
    } else {
      assert (s + rest)[1..] == s[1..] + rest;
      LeadingExact(s[1..], rest);
    }
  }

  lemma {:induction false} DigitsNoMatch(s: string, pat: string, i: nat)
    requires AllDigits(s) && pat != "" && !IsDigit(pat[0])
    ensures NoMatch(s, pat, i)
    decreases |s| - i
  {
    if i < |s| {
      DigitsNoMatch(s, pat, i + 1);
    }
  }

  /** Part `n` names a number, part `n + 1` is it, and part `n + 2` ends it. */
  lemma {:induction false} ReadsPart(parts: seq<string>, n: nat, name: string, value: nat, missing: int)
    requires n + 2 < |parts| && parts[n + 1] == Decimal(value) && parts[n + 2] != "" && !IsDigit(parts[n + 2][0])
    requires (forall i :: 0 <= i < n ==> NoMatch(parts[i], name, 0)) && StartsWith(parts[n], name)
    requires -WORD / 2 <= missing < WORD / 2
    ensures Field(Cat(parts), name, |parts[n]|, missing) == AsInt(value)
  {
    FindPart(parts, n, name);
    DecimalValue(value);
    var buf, tail := Cat(parts), Cat(parts[n + 2..]);
    CatTwo(parts[n..]);
    LeadingExact(parts[n + 1], tail);
    hide Cat, NoMatch, StartsWith, Strstr, Found, Decimal, LeadingDigits, Value, AsInt;
    var x := Strstr(buf, name);
    assert buf[x + |parts[n]|..] == buf[x..][|parts[n]|..] == parts[n + 1] + tail;
  }

  lemma {:induction false} CatTwo(parts: seq<string>)
    requires |parts| > 2 && parts[2] != ""
    ensures Cat(parts) == parts[0] + (parts[1] + Cat(parts[2..])) &&
            Cat(parts[2..]) != "" && Cat(parts[2..])[0] == parts[2][0]
  {
    assert parts[1..][1..] == parts[2..];
  }

  /** The text of an address: hexadecimal digits, colons and dots. */
  predicate IsAddrText(s: string) {
    forall i :: 0 <= i < |s| ==> IsDigit(s[i]) || 'a' <= s[i] <= 'f' || s[i] == ':' || s[i] == '.'
  }

  lemma {:induction false} AddrNoMatch(s: string, pat: string, i: nat)
    requires IsAddrText(s) && pat != "" && pat[0] == '<'
    ensures NoMatch(s, pat, i)
    decreases |s| - i
  {
    if i < |s| {
      AddrNoMatch(s, pat, i + 1);
    }
  }

  lemma {:induction false} NumbersNoMatch(e: Entry, pat: string)
    requires e.length >= 0 && pat != "" && !IsDigit(pat[0])
    ensures NoMatch(Decimal(e.timestamp), pat, 0) && NoMatch(Decimal(e.pref), pat, 0)
    ensures NoMatch(Decimal(e.valid), pat, 0) && NoMatch(Decimal(e.length), pat, 0)
  {
    DecimalValue(e.timestamp);
    DecimalValue(e.pref);
    DecimalValue(e.valid);
    DecimalValue(e.length);
    hide Decimal;
    DigitsNoMatch(Decimal(e.timestamp), pat, 0);
    DigitsNoMatch(Decimal(e.pref), pat, 0);
    DigitsNoMatch(Decimal(e.valid), pat, 0);
    DigitsNoMatch(Decimal(e.length), pat, 0);
  }

  /** Where the names cannot be found: in the fixed pieces before their own. */
  lemma {:induction false} BeforeTimestamp()
    ensures NoMatch("<AddrPrefix ", "timestamp", 0) &&
            NoMatch("<AddrAddr ", "timestamp", 0) && StartsWith("timestamp=\"", "timestamp")
  {
  }

  lemma {:induction false} BeforePref()
    ensures NoMatch("<AddrPrefix ", "pref=", 0) &&
            NoMatch("<AddrAddr ", "pref=", 0) && NoMatch("timestamp=\"", "pref=", 0)
    ensures NoMatch("\" ", "pref=", 0) && StartsWith("pref=\"", "pref=")
  {
  }

  lemma {:induction false} BeforeValid()
    ensures NoMatch("<AddrPrefix ", "valid", 0) &&
            NoMatch("<AddrAddr ", "valid", 0) && NoMatch("timestamp=\"", "valid", 0)
    ensures NoMatch("\" ", "valid", 0) && NoMatch("pref=\"", "valid", 0) && StartsWith("valid=\"", "valid")
  {
  }

  lemma {:induction false} BeforeLength()
    ensures NoMatch("<AddrPrefix ", "length=", 0) &&
            NoMatch("timestamp=\"", "length=", 0) && NoMatch("\" ", "length=", 0)
    ensures NoMatch("pref=\"", "length=", 0) && NoMatch("valid=\"", "length=", 0) && StartsWith("length=\"", "length=")
  {
  }

  lemma {:induction false} BeforePrefixLen()
    ensures NoMatch("<AddrAddr ", "prefix=", 0) && NoMatch("timestamp=\"", "prefix=", 0) && NoMatch("\" ", "prefix=", 0)
    ensures NoMatch("pref=\"", "prefix=", 0) && NoMatch("valid=\"", "prefix=", 0) && StartsWith("prefix=\"", "prefix=")
  {
  }

  lemma {:induction false} BeforeBracket()
    ensures NoMatch("<AddrPrefix ", ">", 0) && NoMatch("<AddrAddr ", ">", 0) && NoMatch("timestamp=\"", ">", 0)
    ensures NoMatch("\" ", ">", 0) && NoMatch("pref=\"", ">", 0) && NoMatch("valid=\"", ">", 0)
    ensures NoMatch("length=\"", ">", 0) && NoMatch("prefix=\"", ">", 0) && NoMatch("\"", ">", 0)
    ensures StartsWith(">", ">")
  {
  }

  lemma {:induction false} FindsTag(e: Entry, pd: bool)
    requires e.length >= 0
    ensures Found(Print(e, pd), if pd then "<AddrPrefix" else "<AddrAddr")
  {
    Tags();
    hide StartsWith, NoMatch, Found, Strstr, Cat, Decimal;
    FindPart(Parts(e, pd), 0, if pd then "<AddrPrefix" else "<AddrAddr");
  }

  lemma {:induction false} Tags()
    ensures StartsWith("<AddrPrefix ", "<AddrPrefix") && StartsWith("<AddrAddr ", "<AddrAddr")
  {
  }

  lemma {:induction false} ReadsTimestamp(e: Entry, pd: bool)
    requires e.length >= 0
    ensures Field(Print(e, pd), "timestamp", 11, 0) == AsInt(e.timestamp)
  {
    BeforeTimestamp();
    hide NoMatch, StartsWith, Field, Found, Strstr, Cat, Decimal, AsInt;
    var parts := Parts(e, pd);
    assert |parts[1]| == 11;
    ReadsPart(parts, 1, "timestamp", e.timestamp, 0);
  }

  lemma {:induction false} ReadsPref(e: Entry, pd: bool)
    requires e.length >= 0
    ensures Field(Print(e, pd), "pref=", 6, 0) == AsInt(e.pref)
  {
    NumbersNoMatch(e, "pref=");
    BeforePref();
    hide NoMatch, StartsWith, Field, Found, Strstr, Cat, Decimal, AsInt;
    var parts := Parts(e, pd);
    assert |parts[4]| == 6;
    ReadsPart(parts, 4, "pref=", e.pref, 0);
  }

  lemma {:induction false} ReadsValid(e: Entry, pd: bool)
    requires e.length >= 0
    ensures Field(Print(e, pd), "valid", 7, 0) == AsInt(e.valid)
  {
    NumbersNoMatch(e, "valid");
    BeforeValid();
    hide NoMatch, StartsWith, Field, Found, Strstr, Cat, Decimal, AsInt;
    var parts := Parts(e, pd);
    assert |parts[7]| == 7;
    ReadsPart(parts, 7, "valid", e.valid, 0);
  }

  lemma {:induction false} ReadsLength(e: Entry, pd: bool)
    requires e.length >= 0
    ensures pd ==> Field(Print(e, pd), "length=", 8, 0) == AsInt(e.length)
    ensures !pd ==> Field(Print(e, pd), "prefix=", 8, CLIENT_DEFAULT_PREFIX_LENGTH) == AsInt(e.length)
  {
    hide NoMatch, StartsWith, Field, Found, Strstr, Cat, Decimal, AsInt;
    var parts := Parts(e, pd);
    assert |parts[10]| == 8;
    if pd {
      NumbersNoMatch(e, "length=");
      BeforeLength();
      ReadsPart(parts, 10, "length=", e.length, 0);
    } else {
      NumbersNoMatch(e, "prefix=");
      BeforePrefixLen();
      ReadsPart(parts, 10, "prefix=", e.length, CLIENT_DEFAULT_PREFIX_LENGTH);
    }
  }

  lemma {:induction false} FindsClose(addr: string, close: string)
    requires IsAddrText(addr) && (close == "</AddrPrefix>" || close == "</AddrAddr>")
    ensures var line := ">" + (addr + (close + "\n"));
            Strstr(line, close) == 1 + |addr| && line[1..1 + |addr|] == addr
  {
    var line := ">" + (addr + (close + "\n"));
    AddrNoMatch(addr, close, 0);
    assert NoMatch(">", "</AddrPrefix>", 0) && NoMatch(">", "</AddrAddr>", 0);
    Skip(">", close, 0, addr + (close + "\n"));
    Skip(addr, close, 0, close + "\n");
    assert (close + "\n")[..|close|] == close;
    assert line[0..] == line && (addr + (close + "\n"))[0..] == addr + (close + "\n");
  }

  lemma {:induction false} FindsAddr(e: Entry, pd: bool)
    requires e.length >= 0
    ensures var buf := Print(e, pd);
            Found(buf, ">") && buf[Strstr(buf, ">")..] ==
              ">" + (e.addr + ((if pd then "</AddrPrefix>" else "</AddrAddr>") + "\n"))
  {
    NumbersNoMatch(e, ">");
    BeforeBracket();
    hide NoMatch, StartsWith, Field, Found, Strstr, Cat, Decimal, AsInt;
    var parts := Parts(e, pd);
    FindPart(parts, 13, ">");
    var line := parts[15];
    assert line == (if pd then "</AddrPrefix>" else "</AddrAddr>") + "\n";
    assert parts[13..] == [">", e.addr, line];
    CatThree(">", e.addr, line);
  }

  lemma {:induction false} CatThree(a: string, b: string, c: string)
    ensures Cat([a, b, c]) == a + (b + c)
  {
    assert [a, b, c][1..] == [b, c] && [b, c][1..] == [c] && [c][1..] == [];
    assert Cat([c]) == c + "" == c;
    assert Cat([b, c]) == b + Cat([c]);
    assert Cat([a, b, c]) == a + Cat([b, c]);
  }

  lemma {:induction false} ReadsAddr(e: Entry, pd: bool)
    requires e.length >= 0 && IsAddrText(e.addr)
    ensures Found(Print(e, pd), ">")
    ensures AddrText(Print(e, pd), if pd then "</AddrPrefix>" else "</AddrAddr>") == e.addr
  {
    var close := if pd then "</AddrPrefix>" else "</AddrAddr>";
    FindsAddr(e, pd);
    FindsClose(e.addr, close);
    hide Print, Strstr, Found, IsAddrText;
    var buf := Print(e, pd);
    var x := Strstr(buf, ">");
    assert buf[..x + 1 + |e.addr|][x + 1..] == buf[x..][1..1 + |e.addr|];
  }

  /** The numbers that come back: 32 bits for an address; for a prefix, 31, because the
      sign of `atoi` spreads, and the one number that is nothing but that sign. */
  predicate Fits(n: ulong, pd: bool) {
    n > 0 && (if pd then n < WORD / 2 || n == ULONG - 1 else n < WORD)
  }

  lemma {:induction false} UnsignedExact(n: ulong, pd: bool)
    ensures Unsigned(AsInt(n), pd) == n <==> n == 0 || Fits(n, pd)
    ensures Unsigned(AsInt(0), pd) == 0
  {
  }

  /** The round trip: the line read back is the lease that was written if and only if
      its three times fit.  So a prefix with an infinite lifetime, 2^32 - 1, is not. */
  lemma {:induction false} RoundTrip(e: Entry, pd: bool)
    requires 0 <= e.length < WORD / 2 && IsAddrText(e.addr)
    ensures Parse(Print(e, pd), pd) == Some(e) <==> Fits(e.timestamp, pd) && Fits(e.pref, pd) && Fits(e.valid, pd)
  {
    assert AsInt(e.length) == e.length;
    hide Strstr, Found, Field, AddrText, AsInt, Unsigned, Print, IsAddrText;
    FindsTag(e, pd);
    ReadsTimestamp(e, pd);
    ReadsPref(e, pd);
    ReadsValid(e, pd);
    ReadsLength(e, pd);
    ReadsAddr(e, pd);
    UnsignedExact(e.timestamp, pd);
    UnsignedExact(e.pref, pd);
    UnsignedExact(e.valid, pd);
  }
}
