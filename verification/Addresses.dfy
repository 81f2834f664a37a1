/** IPv4 addresses as four octets and ranges as octets plus prefix length (section 3.1 of RFC 4632). */
module Addresses {
  type byte = x: int | 0 <= x < 256

  type prefix = p: int | 0 <= p <= 32

  datatype IPv4 = IPv4(a: byte, b: byte, c: byte, d: byte)

  /** `Size(n)` is the number of octets that share their first `n` bits with a given one. */
  function Size(n: int): (r: int)
    ensures 1 <= r <= 256
  {
    if n >= 8 then 1 else if n == 7 then 2 else if n == 6 then 4 else if n == 5 then 8
    else if n == 4 then 16 else if n == 3 then 32 else if n == 2 then 64 else if n == 1 then 128
    else 256
  }

  predicate SameBits(x: byte, y: byte, n: int) {
    x / Size(n) == y / Size(n)
  }

  /** A range keeps the address it was written with; only the first `ones` bits matter to `Contains`. */
  datatype IPNet = IPNet(ip: IPv4, ones: prefix) {
    predicate Contains(x: IPv4) {
      && SameBits(ip.a, x.a, ones)
      && SameBits(ip.b, x.b, ones - 8)
      && SameBits(ip.c, x.c, ones - 16)
      && SameBits(ip.d, x.d, ones - 24)
    }
  }

  ghost predicate Disjoint(m: IPNet, n: IPNet) {
    forall x: IPv4 :: !(m.Contains(x) && n.Contains(x))
  }

  /** The three prefix lengths the network compiler emits compare whole octets. */
  lemma ContainsByOctets(n: IPNet, x: IPv4)
    ensures n.ones == 16 ==> (n.Contains(x) <==> n.ip.a == x.a && n.ip.b == x.b)
    ensures n.ones == 24 ==> (n.Contains(x) <==> n.ip.a == x.a && n.ip.b == x.b && n.ip.c == x.c)
    ensures n.ones == 32 ==> (n.Contains(x) <==> n.ip == x)
  {
  }

  /** The least octet from `start` on that is not in `used`; 255 when there is none below it. */
  function FirstFree(used: set<byte>, start: byte): (r: byte)
    ensures start <= r
    ensures forall k: byte :: start <= k < r ==> k in used
    ensures r in used ==> r == 255
    decreases 255 - start
  {
    if start in used && start <= 254 then FirstFree(used, start + 1) else start
  }

  function OctetSet(s: seq<byte>): set<byte> {
    set b | b in s
  }

  lemma AppendOctet(s: seq<byte>, b: byte)
    ensures OctetSet(s + [b]) == OctetSet(s) + {b}
  {
  }

  /** The octets a greedy allocation may still hand out. */
  function FreeOctets(used: set<byte>): set<byte> {
    set b: byte | 2 <= b <= 254 && b !in used
  }

  /** Everything an allocation cursor has passed is taken. */
  ghost predicate BelowUsed(used: set<byte>, cur: byte) {
    2 <= cur && forall k: byte :: 2 <= k < cur ==> k in used
  }

  lemma FirstFreeTaken(used: set<byte>, cur: byte)
    requires BelowUsed(used, cur) && FirstFree(used, cur) != 255
    ensures var f := FirstFree(used, cur);
            2 <= f <= 254 && f !in used && BelowUsed(used + {f}, f)
  {
  }

  /** One greedy step: it fails only when no octet is left, and uses up exactly one of them. */
  lemma FreeCount(used: set<byte>, cur: byte)
    requires BelowUsed(used, cur)
    ensures FirstFree(used, cur) == 255 <==> |FreeOctets(used)| == 0
    ensures var f := FirstFree(used, cur);
            f != 255 ==> |FreeOctets(used + {f})| == |FreeOctets(used)| - 1
  {
    var f := FirstFree(used, cur);
    if f != 255 {
      assert f in FreeOctets(used);
      assert FreeOctets(used + {f}) == FreeOctets(used) - {f};
    } else {
      assert forall b: byte :: 2 <= b <= 254 ==> b in used;
      assert FreeOctets(used) == {};
    }
  }

  // ----- What a greedy allocation hands out -----

  /** The octets in 2..254 below `b` that are free. */
  function FreeBelow(used: set<byte>, b: byte): set<byte> {
    set k: byte | 2 <= k < b && k !in used
  }

  /** `b` is among the `n` lowest free octets in 2..254. */
  predicate IsAmongLowest(used: set<byte>, b: byte, n: nat) {
    2 <= b <= 254 && b !in used && |FreeBelow(used, b)| < n
  }

  /** One greedy step takes the least free octet, and leaves the others among one less. */
  lemma LowestStep(used: set<byte>, cur: byte, b: byte, n: nat)
    requires BelowUsed(used, cur) && FirstFree(used, cur) != 255 && n > 0
    ensures var f := FirstFree(used, cur);
            IsAmongLowest(used, b, n) <==> b == f || IsAmongLowest(used + {f}, b, n - 1)
  {
    var f := FirstFree(used, cur);
    FirstFreeTaken(used, cur);
    if b == f {
      assert FreeBelow(used, b) == {};
    } else if b !in used && f < b {
      assert FreeBelow(used, b) == FreeBelow(used + {f}, b) + {f};
    }
  }
}
