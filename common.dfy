/*
 * Byte-level vocabulary shared by the target-core, iblock and bufoops models:
 * octets, fixed-width unsigned integers, big- and little-endian fields, C
 * strings held in fixed character arrays, and the in-place copy that stands
 * for memcpy/put_unaligned_be* into a buffer.
 */
module Common {

  /** One octet of a CDB, a data-in/data-out buffer or a sense buffer. */
  type byte = x: int | 0 <= x < 256

  /** Unsigned integer widths of the kernel types the source uses. */
  type u16 = x: int | 0 <= x < 0x1_0000
  type u32 = x: int | 0 <= x < 0x1_0000_0000
  type u64 = x: int | 0 <= x < 0x1_0000_0000_0000_0000

  const U32_LIMIT: nat := 0x1_0000_0000
  const U64_LIMIT: nat := 0x1_0000_0000_0000_0000

  /** Kernel error numbers returned (negated) by the emulators. */
  const EIO: int := 5
  const ENOMEM: int := 12
  const EINVAL: int := 22
  const ENOSYS: int := 38

  datatype Option<T> = None | Some(value: T)

  function Min(a: int, b: int): int { if a <= b then a else b }
  function Max(a: int, b: int): int { if a >= b then a else b }

  /** 256^n, the number of values an n-byte field can hold. */
  function Pow256(n: nat): (p: nat)
    ensures p >= 1
  {
    if n == 0 then 1 else 256 * Pow256(n - 1)
  }

  /** n zero bytes (a kzalloc'd or memset area). */
  function Zeros(n: nat): (z: seq<byte>)
    ensures |z| == n
    ensures forall i :: 0 <= i < n ==> z[i] == 0
  {
    seq(n, _ => 0)
  }

  /** 2^n. */
  function Pow2(n: nat): (p: nat)
    ensures p >= 1
  {
    if n == 0 then 1 else 2 * Pow2(n - 1)
  }

  /** Bit k of x. */
  predicate Bit(x: nat, k: nat)
  {
    (x / Pow2(k)) % 2 == 1
  }

  /** Bitwise OR of the low w bits of a and b, least significant bit first. */
  function OrBits(a: nat, b: nat, w: nat): (r: nat)
    ensures r < Pow2(w)
  {
    if w == 0 then 0
    else (if a % 2 == 1 || b % 2 == 1 then 1 else 0) + 2 * OrBits(a / 2, b / 2, w - 1)
  }

  /** Bitwise AND of the low w bits of a and b. */
  function AndBits(a: nat, b: nat, w: nat): (r: nat)
    ensures r < Pow2(w)
  {
    if w == 0 then 0
    else (if a % 2 == 1 && b % 2 == 1 then 1 else 0) + 2 * AndBits(a / 2, b / 2, w - 1)
  }

  /** Bitwise OR of two octets (`buf[i] |= v`). */
  function Or(a: byte, b: byte): byte
  {
    assert Pow2(8) == 256;
    OrBits(a, b, 8)
  }

  /** Bitwise AND of two octets (`cdb[1] & mask`). */
  function And(a: byte, b: byte): byte
  {
    assert Pow2(8) == 256;
    AndBits(a, b, 8)
  }

  /** Shifting right by one moves bit k+1 to bit k. */
  lemma BitHalf(x: nat, k: nat)
    ensures Bit(x, k + 1) == Bit(x / 2, k)
  {
    assert Pow2(k + 1) == 2 * Pow2(k);
    assert x / (2 * Pow2(k)) == (x / 2) / Pow2(k) by {
      var q, r := x / 2, x % 2;
      var q2, r2 := q / Pow2(k), q % Pow2(k);
      assert x == 2 * Pow2(k) * q2 + (2 * r2 + r);
      DivModUnique(x, 2 * Pow2(k), q2, 2 * r2 + r);
    }
  }

  /** The low bit of x, as a test and as a remainder. */
  lemma LowBit(x: nat)
    ensures (if x % 2 == 1 then 1 else 0) == x % 2
  {
  }

  /** A low bit and the rest shifted up by one come apart again under / 2 and % 2. */
  lemma LowBitSplit(low: nat, rest: nat)
    requires low < 2
    ensures (low + 2 * rest) / 2 == rest && (low + 2 * rest) % 2 == low
  {
  }

  /** Bit k of an OR is set exactly when it is set in either operand. */
  lemma {:induction false} OrBitsBit(a: nat, b: nat, w: nat, k: nat)
    requires k < w
    ensures Bit(OrBits(a, b, w), k) <==> Bit(a, k) || Bit(b, k)
  {
    var rest := OrBits(a / 2, b / 2, w - 1);
    var low := if a % 2 == 1 || b % 2 == 1 then 1 else 0;
    LowBitSplit(low, rest);
    if k == 0 {
      assert Pow2(0) == 1;
    } else {
      BitHalf(low + 2 * rest, k - 1);
      OrBitsBit(a / 2, b / 2, w - 1, k - 1);
      BitHalf(a, k - 1);
      BitHalf(b, k - 1);
    }
  }


  /** Bit k of an AND is set exactly when it is set in both operands. */
  lemma {:induction false} AndBitsBit(a: nat, b: nat, w: nat, k: nat)
    requires k < w
    ensures Bit(AndBits(a, b, w), k) <==> Bit(a, k) && Bit(b, k)
  {
    var rest := AndBits(a / 2, b / 2, w - 1);
    var low := if a % 2 == 1 && b % 2 == 1 then 1 else 0;
    LowBitSplit(low, rest);
    if k == 0 {
      assert Pow2(0) == 1;
    } else {
      BitHalf(low + 2 * rest, k - 1);
      AndBitsBit(a / 2, b / 2, w - 1, k - 1);
      BitHalf(a, k - 1);
      BitHalf(b, k - 1);
    }
  }


  /** OR of operands with no bit in common is their sum. */
  lemma {:induction false} OrDisjoint(a: nat, b: nat, w: nat, k: nat)
    requires k <= w && a % Pow2(k) == 0 && b < Pow2(k) && a < Pow2(w)
    ensures OrBits(a, b, w) == a + b
  {
    if w > 0 {
      assert Pow2(w) == 2 * Pow2(w - 1);
      if k == 0 {
        assert b == 0;
        OrDisjoint(a / 2, 0, w - 1, 0);
      } else {
        HalveAligned(a, k);
        assert b / 2 < Pow2(k - 1);
        OrDisjoint(a / 2, b / 2, w - 1, k - 1);
      }
    }
  }

  lemma HalveAligned(a: nat, k: nat)
    requires k > 0 && a % Pow2(k) == 0
    ensures a % 2 == 0 && (a / 2) % Pow2(k - 1) == 0
  {
    var p := Pow2(k - 1);
    var q := a / Pow2(k);
    assert Pow2(k) == 2 * p;
    assert a == 2 * (p * q);
    DivModUnique(a, 2, p * q, 0);
    DivModUnique(a / 2, p, q, 0);
  }

  /** Bitwise complement of an octet (`~x` narrowed to a byte). */
  function Not(a: byte): byte
  {
    255 - a
  }

  /** AND with zero is zero. */
  lemma {:induction false} AndZero(b: nat, w: nat)
    ensures AndBits(0, b, w) == 0
  {
    if w > 0 {
      AndZero(b / 2, w - 1);
    }
  }

  /** AND with 2^k - 1 keeps the low k bits: `x & 0x3f` is x mod 64. */
  lemma AndLowMask(x: nat, k: nat, w: nat)
    requires k <= w
    ensures AndBits(x, Pow2(k) - 1, w) == x % Pow2(k)
  {
    AndLowBits(x, k, w);
    LowBitsMod(x, k);
  }

  /** The low k bits of x, least significant first. */
  function LowBits(x: nat, k: nat): nat
  {
    if k == 0 then 0 else x % 2 + 2 * LowBits(x / 2, k - 1)
  }

  lemma {:induction false} AndLowBits(x: nat, k: nat, w: nat)
    requires k <= w
    ensures AndBits(x, Pow2(k) - 1, w) == LowBits(x, k)
  {
    if k == 0 {
      assert Pow2(0) == 1;
      AndZeroRight(x, w);
    } else {
      AndLowMaskStep(x, k, w);
      AndLowBits(x / 2, k - 1, w - 1);
    }
  }

  lemma {:induction false} LowBitsMod(x: nat, k: nat)
    ensures LowBits(x, k) == x % Pow2(k)
  {
    if k > 0 {
      LowBitsMod(x / 2, k - 1);
      ModHalf(x, k);
    }
  }

  /** One bit of `x & (2^k - 1)`: the low bit of x, then x / 2 masked by 2^(k-1) - 1. */
  lemma AndLowMaskStep(x: nat, k: nat, w: nat)
    requires 0 < k <= w
    ensures AndBits(x, Pow2(k) - 1, w) == x % 2 + 2 * AndBits(x / 2, Pow2(k - 1) - 1, w - 1)
  {
    MaskHalf(k);
    LowBit(x);
  }

  /** 2^k - 1 is odd and halves to 2^(k-1) - 1. */
  lemma MaskHalf(k: nat)
    requires k > 0
    ensures (Pow2(k) - 1) % 2 == 1 && (Pow2(k) - 1) / 2 == Pow2(k - 1) - 1
  {
    var p := Pow2(k - 1);
    assert Pow2(k) - 1 == 1 + 2 * (p - 1);
    LowBitSplit(1, p - 1);
  }

  /** The low k bits of x are its low bit and the low k - 1 bits of x / 2. */
  lemma ModHalf(x: nat, k: nat)
    requires k > 0
    ensures x % Pow2(k) == x % 2 + 2 * ((x / 2) % Pow2(k - 1))
  {
    assert Pow2(k) == 2 * Pow2(k - 1);
    var q := (x / 2) / Pow2(k - 1);
    var r := (x / 2) % Pow2(k - 1);
    assert x == Pow2(k) * q + (x % 2 + 2 * r);
    DivModUnique(x, Pow2(k), q, x % 2 + 2 * r);
  }

  lemma {:induction false} AndZeroRight(a: nat, w: nat)
    ensures AndBits(a, 0, w) == 0
  {
    if w > 0 {
      AndZeroRight(a / 2, w - 1);
    }
  }

  /** ORing a low nibble into a byte whose low nibble is clear adds it. */
  lemma OrNibbles(h: int, v: int)
    requires 0 <= h < 16 && 0 <= v < 16
    ensures Or(h * 16, v) == h * 16 + v
  {
    assert Pow2(4) == 16 && Pow2(8) == 256;
    OrDisjoint(h * 16, v, 8, 4);
  }

  // ---------------------------------------------------------------
  // Big-endian fields (put_unaligned_be16/32/64, get_unaligned_be*)
  // ---------------------------------------------------------------

  /**
   * The n-byte big-endian field holding x, narrowed to the field width the
   * way put_unaligned_beN stores a value of a wider type.
   */
  function BE(x: nat, n: nat): (s: seq<byte>)
    ensures |s| == n
  {
    if n == 0 then [] else BE(x / 256, n - 1) + [x % 256]
  }

  /** The four-byte big-endian 512 (a BLOCK LENGTH field). */
  lemma BE512()
    ensures BE(512, 4) == [0, 0, 2, 0]
  {
    assert BE(0, 1) == [0];
    assert BE(2, 2) == [0, 2];
    assert BE(512 / 256, 2) == [0, 2];
    assert BE(512, 3) == [0, 2, 0];
  }

  /** The value of a big-endian field (get_unaligned_beN). */
  function BEValue(s: seq<byte>): (v: nat)
    ensures v < Pow256(|s|)
  {
    if s == [] then 0 else BEValue(s[..|s| - 1]) * 256 + s[|s| - 1]
  }

  lemma MulAtLeast(d: int, k: int)
    requires d > 0 && k >= 1
    ensures d * k >= d
  {
    var j := k - 1;
    assert d * k == d * j + d;
    assert d * j >= 0;
  }

  /** Dividing by a positive number never grows a natural number. */
  lemma DivAtMost(x: nat, d: nat)
    requires d >= 1
    ensures x / d <= x
  {
    var q := x / d;
    assert x == d * q + x % d;
    if q >= 1 {
      MulAtLeast(q, d);
      assert q * d == d * q;
    }
  }

  lemma DivModUnique(x: int, d: int, q: int, r: int)
    requires d > 0 && 0 <= r < d && x == d * q + r
    ensures x / d == q && x % d == r
  {
    var q0, r0 := x / d, x % d;
    assert d * q0 + r0 == d * q + r;
    assert d * (q0 - q) == r - r0 by {
      assert d * (q0 - q) == d * q0 - d * q;
    }
    if q0 > q {
      MulAtLeast(d, q0 - q);
    } else if q0 < q {
      MulAtLeast(d, q - q0);
    }
  }

  /** x mod 256^n is recovered by taking off the last byte and recursing. */
  lemma ModPow256Step(x: nat, n: nat)
    requires n > 0
    ensures x % Pow256(n) == ((x / 256) % Pow256(n - 1)) * 256 + x % 256
  {
    var p := Pow256(n - 1);
    var q, r := x / 256, x % 256;
    var a, b := q / p, q % p;
    assert q == p * a + b;
    assert x == 256 * q + r;
    assert x == (256 * p) * a + (256 * b + r) by {
      calc {
        x;
        256 * q + r;
        256 * (p * a + b) + r;
        (256 * p) * a + (256 * b + r);
      }
    }
    assert 256 * b + r < 256 * p;
    DivModUnique(x, 256 * p, a, 256 * b + r);
  }

  /** Decoding an encoded field gives back the value narrowed to the field. */
  lemma {:induction false} BERoundTrip(x: nat, n: nat)
    ensures BEValue(BE(x, n)) == x % Pow256(n)
  {
    if n > 0 {
      var s := BE(x, n);
      assert s[..n - 1] == BE(x / 256, n - 1);
      BERoundTrip(x / 256, n - 1);
      ModPow256Step(x, n);
    }
  }

  /** Dividing by a, then by b, is dividing by a * b. */
  lemma DivDiv(x: nat, a: nat, b: nat)
    requires a > 0 && b > 0
    ensures x / a / b == x / (a * b)
  {
    var q1, r1 := x / a, x % a;
    var q2, r2 := q1 / b, q1 % b;
    var ab := a * b;
    assert x == a * q1 + r1;
    assert q1 == b * q2 + r2;
    assert a * q1 == ab * q2 + a * r2 by {
      assert a * (b * q2 + r2) == a * (b * q2) + a * r2;
      assert a * (b * q2) == ab * q2;
    }
    var slack: nat := b - 1 - r2;
    assert a * (b - 1) == a * r2 + a * slack;
    assert a * (b - 1) == ab - a;
    DivModUnique(x, ab, q2, a * r2 + r1);
  }

  /** Byte i of an n-byte big-endian field is (x >> 8*(n-1-i)) & 0xff. */
  lemma {:induction false} BEByte(x: nat, n: nat, i: nat)
    requires i < n
    ensures BE(x, n)[i] == (x / Pow256(n - 1 - i)) % 256
  {
    if i < n - 1 {
      assert BE(x, n)[i] == BE(x / 256, n - 1)[i];
      BEByte(x / 256, n - 1, i);
      DivDiv(x, 256, Pow256(n - 2 - i));
    }
  }

  /** A value that fits the field is decoded unchanged. */
  lemma BEExact(x: nat, n: nat)
    requires x < Pow256(n)
    ensures BEValue(BE(x, n)) == x
  {
    BERoundTrip(x, n);
  }

  /** Encoding a decoded field gives back the same bytes. */
  lemma {:induction false} BEOfValue(s: seq<byte>)
    ensures BE(BEValue(s), |s|) == s
  {
    if s != [] {
      var n := |s|;
      var v := BEValue(s);
      var w := BEValue(s[..n - 1]);
      assert v == w * 256 + s[n - 1];
      assert v / 256 == w && v % 256 == s[n - 1] by {
        DivModUnique(v, 256, w, s[n - 1]);
      }
      BEOfValue(s[..n - 1]);
      assert s == s[..n - 1] + [s[n - 1]];
    }
  }

  // ---------------------------------------------------------------
  // Little-endian fields (a u64 stored natively on a little-endian CPU)
  // ---------------------------------------------------------------

  function LE(x: nat, n: nat): (s: seq<byte>)
    ensures |s| == n
  {
    if n == 0 then [] else [x % 256] + LE(x / 256, n - 1)
  }

  function LEValue(s: seq<byte>): nat
  {
    if s == [] then 0 else s[0] + 256 * LEValue(s[1..])
  }

  lemma {:induction false} LEExact(x: nat, n: nat)
    requires x < Pow256(n)
    ensures LEValue(LE(x, n)) == x
  {
    if n > 0 {
      var s := LE(x, n);
      assert s[1..] == LE(x / 256, n - 1);
      LEExact(x / 256, n - 1);
    }
  }

  // ---------------------------------------------------------------
  // C strings kept in fixed character arrays
  // ---------------------------------------------------------------

  /** strlen: the bytes before the first NUL (the whole array when it has none). */
  function StrLen(s: seq<byte>): (n: nat)
    ensures n <= |s|
    ensures forall i :: 0 <= i < n ==> s[i] != 0
    ensures n < |s| ==> s[n] == 0
  {
    if s == [] || s[0] == 0 then 0 else 1 + StrLen(s[1..])
  }

  /** The characters of a C string, without its terminator. */
  function CStr(s: seq<byte>): (c: seq<byte>)
    ensures |c| == StrLen(s)
    ensures forall i :: 0 <= i < |c| ==> c[i] != 0
  {
    s[..StrLen(s)]
  }

  /** strncpy(dst, src, n): at most n characters of src, NUL-padded to n. */
  function StrNCpy(src: seq<byte>, n: nat): (d: seq<byte>)
    ensures |d| == n
    ensures forall i :: 0 <= i < n ==> d[i] == if i < StrLen(src) then src[i] else 0
  {
    var k := Min(StrLen(src), n);
    src[..k] + Zeros(n - k)
  }

  /** img followed by zeros up to n bytes: a reply built in a zeroed buffer. */
  function Padded(img: seq<byte>, n: nat): (p: seq<byte>)
    requires |img| <= n
    ensures |p| == n
    ensures p[..|img|] == img && forall i :: |img| <= i < n ==> p[i] == 0
  {
    img + Zeros(n - |img|)
  }

  /** s with the bytes from `off` on replaced by `data` (a memcpy into a buffer image). */
  function Splice(s: seq<byte>, off: nat, data: seq<byte>): (r: seq<byte>)
    requires off + |data| <= |s|
    ensures |r| == |s|
    ensures forall i :: 0 <= i < |s| ==> r[i] == if off <= i < off + |data| then data[i - off] else s[i]
  {
    s[..off] + data + s[off + |data|..]
  }

  /** What a splice leaves: the prefix, the data, and the suffix. */
  lemma SpliceParts(o: seq<byte>, off: nat, d: seq<byte>)
    requires off + |d| <= |o|
    ensures Splice(o, off, d)[..off] == o[..off]
    ensures Splice(o, off, d)[off..off + |d|] == d
    ensures Splice(o, off, d)[off + |d|..] == o[off + |d|..]
  {
  }

  /** Two memcpys side by side are one memcpy of the two pieces. */
  lemma SpliceConsecutive(o: seq<byte>, off: nat, a: seq<byte>, b: seq<byte>)
    requires off + |a| + |b| <= |o|
    ensures Splice(Splice(o, off, a), off + |a|, b) == Splice(o, off, a + b)
  {
  }

  /** A buffer that differs from `o` only in [off, off+k) is `o` with its own bytes there spliced in. */
  lemma SpliceOfSlice(o: seq<byte>, n: seq<byte>, off: nat, k: nat)
    requires |n| == |o| && off + k <= |o|
    requires forall i :: 0 <= i < |o| && !(off <= i < off + k) ==> n[i] == o[i]
    ensures n == Splice(o, off, n[off..off + k])
  {
  }

  /** buf[i] = v. */
  method Store(buf: array<byte>, i: nat, v: byte)
    requires i < buf.Length
    modifies buf
    ensures buf[..] == old(buf[..])[i := v]
  {
    buf[i] := v;
  }

  /**
   * memcpy(&buf[off], data, |data|): the bytes [off, off+|data|) become
   * `data` and every other byte keeps its value.
   */
  method PutBytes(buf: array<byte>, off: nat, data: seq<byte>)
    requires off + |data| <= buf.Length
    modifies buf
    ensures buf[..] == Splice(old(buf[..]), off, data)
  {
    var i := 0;
    while i < |data|
      invariant 0 <= i <= |data|
      invariant forall k :: 0 <= k < buf.Length ==>
        buf[k] == if off <= k < off + i then data[k - off] else old(buf[k])
    {
      buf[off + i] := data[i];
      i := i + 1;
    }
  }

  /**
   * Stores x as an n-byte big-endian field at off, one shifted and masked
   * byte at a time (put_unaligned_beN, or the source's explicit shifts).
   */
  method PutBE(buf: array<byte>, off: nat, x: nat, n: nat)
    requires off + n <= buf.Length
    modifies buf
    ensures buf[..] == Splice(old(buf[..]), off, BE(x, n))
  {
    var i := 0;
    while i < n
      invariant 0 <= i <= n
      invariant forall k :: 0 <= k < buf.Length ==>
        buf[k] == if off <= k < off + i then BE(x, n)[k - off] else old(buf[k])
    {
      BEByte(x, n, i);
      buf[off + i] := (x / Pow256(n - 1 - i)) % 256;
      i := i + 1;
    }
  }

  /** memcmp(a, b, n) == 0: the first n bytes agree. */
  method MemEqual(a: seq<byte>, b: array<byte>, n: nat) returns (eq: bool)
    requires n <= |a| && n <= b.Length
    ensures eq <==> a[..n] == b[..n]
  {
    var i := 0;
    while i < n
      invariant 0 <= i <= n
      invariant a[..i] == b[..i]
    {
      if a[i] != b[i] {
        assert a[..n][i] != b[..n][i];
        return false;
      }
      i := i + 1;
    }
    return true;
  }

  /** Every byte of `a` from `from` on is zero. */
  ghost predicate ZeroTail(a: array<byte>, from: int)
    reads a
  {
    forall i :: 0 <= i && from <= i < a.Length ==> a[i] == 0
  }
}
