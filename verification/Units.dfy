/** 64-bit sizes with units, and lower-case hexadecimal (section 8 of RFC 4648) keys. */
module Units {
  import opened Wrappers
  import opened Addresses

  type int64 = x: int | -0x8000_0000_0000_0000 <= x < 0x8000_0000_0000_0000

  const MEGABYTE := 0x10_0000
  const GIGABYTE := 0x4000_0000
  const TWO64 := 0x1_0000_0000_0000_0000

  /** `Unit(x) * scale` in unsigned 64-bit arithmetic. */
  function ToUnits(x: int64, scale: nat): uint64 {
    ((x % TWO64) * scale) % TWO64
  }

  /** `int(u / scale)`: the division is unsigned. */
  function FromUnits(u: uint64, scale: nat): int
    requires scale > 0
  {
    u / scale
  }

  /** A size survives the scaling exactly when it is not negative and the scaled value fits 64 bits. */
  lemma UnitsRoundTrip(x: int64, scale: nat)
    requires scale == MEGABYTE || scale == GIGABYTE
    ensures FromUnits(ToUnits(x, scale), scale) == x <==> 0 <= x && x * scale < TWO64
  {
    if scale == MEGABYTE {
      assert FromUnits(ToUnits(x, MEGABYTE), MEGABYTE) * MEGABYTE <= ToUnits(x, MEGABYTE);
    } else {
      assert FromUnits(ToUnits(x, GIGABYTE), GIGABYTE) * GIGABYTE <= ToUnits(x, GIGABYTE);
    }
  }

  function Signed(u: uint64): int64 {
    if u >= 0x8000_0000_0000_0000 then u - TWO64 else u
  }

  /** Go's integer division truncates towards zero. */
  function Truncated(x: int, y: int): int
    requires y > 0
  {
    if x >= 0 then x / y else -((-x) / y)
  }

  /** `int(u) / int(Megabyte)`: the division is signed, unlike that of the other sizes. */
  function CacheFrom(u: uint64): int {
    Truncated(Signed(u), MEGABYTE)
  }

  /** Megabytes that fit 64 bits in bytes. */
  const MEGABYTE_COUNT := 0x1000_0000_0000

  /** The scaled value keeps the size modulo 2^44. */
  lemma KeptModulo(x: int64)
    ensures ToUnits(x, MEGABYTE) == (x % MEGABYTE_COUNT) * MEGABYTE
  {
    var r := x % TWO64;
    var q, c := r / MEGABYTE_COUNT, r % MEGABYTE_COUNT;
    assert r == q * MEGABYTE_COUNT + c;
    assert r * MEGABYTE == q * TWO64 + c * MEGABYTE;
    assert 0 <= c * MEGABYTE < TWO64;
    assert c == x % MEGABYTE_COUNT;
  }

  lemma TruncatedMultiple(k: int)
    ensures Truncated(k * MEGABYTE, MEGABYTE) == k
  {
  }

  /** A cache size survives exactly when the scaled value fits the signed range; negative ones may. */
  lemma CacheRoundTrip(x: int64)
    ensures CacheFrom(ToUnits(x, MEGABYTE)) == x
            <==> -0x8000_0000_0000_0000 <= x * MEGABYTE < 0x8000_0000_0000_0000
  {
    KeptModulo(x);
    var c := x % MEGABYTE_COUNT;
    var k := if c * MEGABYTE >= 0x8000_0000_0000_0000 then c - MEGABYTE_COUNT else c;
    assert Signed(c * MEGABYTE) == k * MEGABYTE;
    TruncatedMultiple(k);
  }

  // ----- Hexadecimal -----

  type nibble = n: int | 0 <= n < 16

  function DigitOf(c: char): Option<nibble> {
    if '0' <= c <= '9' then Some(c as int - '0' as int)
    else if 'a' <= c <= 'f' then Some(c as int - 'a' as int + 10)
    else if 'A' <= c <= 'F' then Some(c as int - 'A' as int + 10)
    else None
  }

  function CharOf(n: nibble): char {
    if n < 10 then ('0' as int + n) as char else ('a' as int + n - 10) as char
  }

  function Encode(bs: seq<byte>): string {
    if bs == [] then "" else [CharOf(bs[0] / 16), CharOf(bs[0] % 16)] + Encode(bs[1..])
  }

  function Decode(s: string): Option<seq<byte>> {
    if s == "" then Some([])
    else if |s| == 1 then None
    else
      var hi, lo := DigitOf(s[0]), DigitOf(s[1]);
      if hi.None? || lo.None? then None
      else
        match Decode(s[2..])
        case None => None
        case Some(rest) => Some([hi.value * 16 + lo.value] + rest)
  }

  function Lower(c: char): char {
    if 'A' <= c <= 'F' then (c as int - 'A' as int + 'a' as int) as char else c
  }

  function LowerAll(s: string): string {
    if s == "" then "" else [Lower(s[0])] + LowerAll(s[1..])
  }

  predicate NoUpper(s: string) {
    forall i :: 0 <= i < |s| ==> !('A' <= s[i] <= 'F')
  }

  /** Lower-casing keeps a text exactly when it has no upper-case digit. */
  lemma {:induction false} LowerKeeps(s: string)
    ensures |LowerAll(s)| == |s|
    ensures LowerAll(s) == s <==> NoUpper(s)
    decreases |s|
  {
    if s != "" {
      LowerKeeps(s[1..]);
      assert s == [s[0]] + s[1..];
      assert LowerAll(s)[0] == Lower(s[0]) && LowerAll(s)[1..] == LowerAll(s[1..]);
      assert NoUpper(s) <==> !('A' <= s[0] <= 'F') && NoUpper(s[1..]) by {
        if NoUpper(s[1..]) { assert forall i :: 1 <= i < |s| ==> s[1..][i - 1] == s[i]; }
      }
    }
  }

  lemma DigitChar(c: char)
    ensures DigitOf(c).Some? ==> CharOf(DigitOf(c).value) == Lower(c)
    ensures Lower(c) == c <==> !('A' <= c <= 'F')
  {
  }

  lemma CharDigit(n: nibble)
    ensures DigitOf(CharOf(n)) == Some(n)
  {
  }

  lemma EncodePair(hi: nibble, lo: nibble, rest: seq<byte>)
    ensures Encode([hi * 16 + lo] + rest) == [CharOf(hi), CharOf(lo)] + Encode(rest)
  {
    assert ([hi * 16 + lo] + rest)[1..] == rest;
  }

  lemma {:induction false} EncodeLowers(s: string)
    requires Decode(s).Some?
    ensures Encode(Decode(s).value) == LowerAll(s)
    decreases |s|
  {
    if s != "" {
      EncodeLowers(s[2..]);
      DigitChar(s[0]);
      DigitChar(s[1]);
      EncodePair(DigitOf(s[0]).value, DigitOf(s[1]).value, Decode(s[2..]).value);
      assert s[1..][1..] == s[2..];
    }
  }

  /** Decoding and encoding again lower-cases a key; it is kept exactly when it had no upper-case digit. */
  lemma HexRoundTrip(s: string)
    requires Decode(s).Some?
    ensures Encode(Decode(s).value) == LowerAll(s)
    ensures Encode(Decode(s).value) == s <==> NoUpper(s)
  {
    EncodeLowers(s);
    LowerKeeps(s);
  }

  /** Every byte string is what its encoding decodes to. */
  lemma {:induction false} HexEncodeDecode(bs: seq<byte>)
    ensures Decode(Encode(bs)) == Some(bs)
  {
    if bs != [] {
      HexEncodeDecode(bs[1..]);
      CharDigit(bs[0] / 16);
      CharDigit(bs[0] % 16);
      var e := Encode(bs);
      assert e[0] == CharOf(bs[0] / 16) && e[1] == CharOf(bs[0] % 16) && e[2..] == Encode(bs[1..]);
      assert bs == [bs[0]] + bs[1..];
    }
  }
}
