/** Bytes and the big-endian numbers of the wire formats. */
module Bytes {

  type Byte = x: nat | x < 256

  type Bytes = seq<Byte>

  const TWO16: nat := 0x1_0000
  const TWO32: nat := 0x1_0000_0000
  const TWO64: nat := 0x1_0000_0000_0000_0000

  /** `htons`; a larger number loses its high part. */
  function U16(n: nat): (b: Bytes)
    ensures |b| == 2
  {
    [n / 256 % 256, n % 256]
  }

  /** `htonl`; a larger number loses its high part. */
  function U32(n: nat): (b: Bytes)
    ensures |b| == 4
  {
    U16(n / 0x1_0000) + U16(n)
  }

  /** The high and then the low half. */
  function U64(n: nat): (b: Bytes)
    ensures |b| == 8
  {
    U32(n / 0x1_0000_0000) + U32(n)
  }

  function Get16(b: Bytes): (n: nat)
    requires |b| == 2
    ensures n < 0x1_0000
  {
    b[0] as nat * 256 + b[1] as nat
  }

  function Get32(b: Bytes): (n: nat)
    requires |b| == 4
    ensures n < 0x1_0000_0000
  {
    Get16(b[..2]) * 0x1_0000 + Get16(b[2..])
  }

  function Get64(b: Bytes): (n: nat)
    requires |b| == 8
    ensures n < 0x1_0000_0000_0000_0000
  {
    Get32(b[..4]) * 0x1_0000_0000 + Get32(b[4..])
  }

  /** The number that bytes make with the most significant one first. */
  function Value(b: Bytes): nat
  {
    if b == [] then 0 else Value(b[..|b| - 1]) * 256 + b[|b| - 1] as nat
  }

  lemma Value2(a: Bytes, b: Bytes)
    requires |b| == 2
    ensures Value(a + b) == Value(a) * 0x1_0000 + Get16(b)
  {
    var n := |a|;
    assert (a + b)[..n + 1] == a + [b[0]] && (a + [b[0]])[..n] == a;
    assert Value(a + [b[0]]) == Value(a) * 256 + b[0] as nat;
  }

  lemma Value4(a: Bytes, b: Bytes)
    requires |b| == 4
    ensures Value(a + b) == Value(a) * 0x1_0000_0000 + Get32(b)
  {
    assert a + b == a + b[..2] + b[2..];
    hide Value, Get16;
    Value2(a, b[..2]);
    Value2(a + b[..2], b[2..]);
  }

  /** Numbers are in network order. */
  lemma NetworkOrder(b: Bytes)
    ensures |b| == 2 ==> Get16(b) == Value(b)
    ensures |b| == 4 ==> Get32(b) == Value(b)
    ensures |b| == 8 ==> Get64(b) == Value(b)
  {
    assert [] + b == b && Value([]) == 0;
    hide Value, Get16, Get32;
    if |b| == 2 { Value2([], b); }
    if |b| == 4 { Value4([], b); }
    if |b| == 8 {
      assert [] + b[..4] == b[..4] && b == b[..4] + b[4..];
      Value4([], b[..4]);
      Value4(b[..4], b[4..]);
    }
  }

  // ---------------------------------------------------------------- reading what was written

  lemma Rest16(n: nat, q: nat, r: nat)
    requires n == q * 0x1_0000 + r && r < 0x1_0000
    ensures n / 0x1_0000 == q && n % 0x1_0000 == r
  {
  }

  lemma Rest32(n: nat, q: nat, r: nat)
    requires n == q * 0x1_0000_0000 + r && r < 0x1_0000_0000
    ensures n / 0x1_0000_0000 == q && n % 0x1_0000_0000 == r
  {
  }

  lemma Mod16(n: nat)
    ensures Get16(U16(n)) == n % 0x1_0000
  {
    var h := n / 256;
    assert n == h * 256 + n % 256;
    assert h == (h / 256) * 256 + h % 256;
    Rest16(n, h / 256, h % 256 * 256 + n % 256);
  }

  lemma Mod32(n: nat)
    ensures Get32(U32(n)) == n % 0x1_0000_0000
  {
    var h := n / 0x1_0000;
    Mod16(h);
    Mod16(n);
    hide U16, Get16;
    assert U32(n)[..2] == U16(h) && U32(n)[2..] == U16(n);
    assert n == h * 0x1_0000 + n % 0x1_0000;
    assert h == (h / 0x1_0000) * 0x1_0000 + h % 0x1_0000;
    Rest32(n, h / 0x1_0000, h % 0x1_0000 * 0x1_0000 + n % 0x1_0000);
  }

  lemma Read16(n: nat)
    requires n < TWO16
    ensures Get16(U16(n)) == n
  {
    Mod16(n);
  }

  lemma Read32(n: nat)
    requires n < TWO32
    ensures Get32(U32(n)) == n
  {
    Mod32(n);
    Rest32(n, 0, n);
  }

  lemma Read64(n: nat)
    requires n < TWO64
    ensures Get64(U64(n)) == n
  {
    var h := n / 0x1_0000_0000;
    Mod32(h);
    Mod32(n);
    hide U32, Get32;
    assert U64(n)[..4] == U32(h) && U64(n)[4..] == U32(n);
    assert n == h * 0x1_0000_0000 + n % 0x1_0000_0000;
    Rest32(h, 0, h);
  }

  // ---------------------------------------------------------------- writing what was read

  lemma Write16(b: Bytes)
    requires |b| == 2
    ensures U16(Get16(b)) == b
  {
  }

  /** Only the low part is written. */
  lemma Low16(n: nat, l: nat)
    requires n % 0x1_0000 == l % 0x1_0000
    ensures U16(n) == U16(l)
  {
    Mod16(n);
    Mod16(l);
    hide Get16;
    Write16(U16(n));
    Write16(U16(l));
  }

  lemma Write32(b: Bytes)
    requires |b| == 4
    ensures U32(Get32(b)) == b
  {
    hide U16, Get16;
    var h, l := Get16(b[..2]), Get16(b[2..]);
    Write16(b[..2]);
    Write16(b[2..]);
    Rest16(h * 0x1_0000 + l, h, l);
    Rest16(l, 0, l);
    Low16(h * 0x1_0000 + l, l);
    assert b == b[..2] + b[2..];
  }

  lemma Low32(n: nat, l: nat)
    requires n % 0x1_0000_0000 == l % 0x1_0000_0000
    ensures U32(n) == U32(l)
  {
    Mod32(n);
    Mod32(l);
    hide Get32;
    Write32(U32(n));
    Write32(U32(l));
  }

  lemma Write64(b: Bytes)
    requires |b| == 8
    ensures U64(Get64(b)) == b
  {
    hide U32, Get32;
    var h, l := Get32(b[..4]), Get32(b[4..]);
    Write32(b[..4]);
    Write32(b[4..]);
    Rest32(h * 0x1_0000_0000 + l, h, l);
    Rest32(l, 0, l);
    Low32(h * 0x1_0000_0000 + l, l);
    assert b == b[..4] + b[4..];
  }

  /** Pieces put together. */
  function Concat(ps: seq<Bytes>): Bytes
  {
    if ps == [] then [] else Concat(ps[..|ps| - 1]) + ps[|ps| - 1]
  }
}
