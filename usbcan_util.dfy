// The integer macros and the big-endian cursor codec of the USB-CAN
// transport: INRANGE, CLIP and the byte extractors, HEXTOBIN and
// hexstr_to_int, and the get_ux_/get_ix_/set_ux_ readers and writers that
// move a caller's cursor through a byte buffer.
module UsbcanUtil {
  import opened Arith

  function Max(a: int, b: int): (r: int)
    ensures r >= a && r >= b && (r == a || r == b)
  {
    if a > b then a else b
  }

  function Min(a: int, b: int): (r: int)
    ensures r <= a && r <= b && (r == a || r == b)
  {
    if a < b then a else b
  }

  /** CLIP(a, l, h): first bounded above by h, then below by l. */
  function Clip(a: int, l: int, h: int): (r: int)
    ensures l <= h ==> l <= r <= h
    ensures l <= a <= h ==> r == a
    ensures l <= h && a < l ==> r == l
    ensures l <= h && a > h ==> r == h
  {
    Max(Min(a, h), l)
  }

  /** CLIPL(a, l): never below l. */
  function ClipL(a: int, l: int): (r: int)
    ensures r >= a && r >= l && (r == a || r == l)
  {
    if a < l then l else a
  }

  /** CLIPH(a, h): never above h. */
  function ClipH(a: int, h: int): (r: int)
    ensures r <= a && r <= h && (r == a || r == h)
  {
    if a > h then h else a
  }

  /**
   * INRANGE(a, l, h), written as the macro does: on a non-empty range it
   * holds exactly on [l, h]; a == l passes even when l > h.
   */
  function InRange(a: int, l: int, h: int): (r: bool)
    ensures l <= h ==> (r <==> l <= a <= h)
    ensures a == l ==> r
    ensures l > h && a != l ==> !r
  {
    (a > l && a <= h) || a == l
  }

  /** Byte extractors of a 16- and a 32-bit word: shift right, keep the low 8 bits. */
  function U16H8(u: nat): Byte { (u / 0x100) % 256 }
  function U16L8(u: nat): Byte { u % 256 }
  function U32H8(u: nat): Byte { (u / 0x100_0000) % 256 }
  function U32MH8(u: nat): Byte { (u / 0x1_0000) % 256 }
  function U32ML8(u: nat): Byte { (u / 0x100) % 256 }
  function U32L8(u: nat): Byte { u % 256 }

  /** The four bytes of a 32-bit word put back together give the word. */
  lemma U32BytesRecombine(u: nat)
    requires u < U32
    ensures U32H8(u) * 0x100_0000 + U32MH8(u) * 0x1_0000 + U32ML8(u) * 0x100 + U32L8(u) == u
  {
    var b0, r0 := u % 256, u / 256;
    var b1, r1 := r0 % 256, r0 / 256;
    var b2, b3 := r1 % 256, r1 / 256;
    DivDiv(u, 256, 256);
    DivDiv(u, 256 * 256, 256);
    assert U32ML8(u) == b1;
    assert U32MH8(u) == b2;
    assert u / 0x100_0000 == b3;
  }

  lemma U16BytesRecombine(u: nat)
    requires u < U16
    ensures U16H8(u) * 0x100 + U16L8(u) == u
  {
  }

  /**
   * HEXTOBIN(h) == (((h) & 0xdf) - 16) % 39 on a byte, with C's remainder.
   * On a byte, & 0xdf clears bit 5 (value 0x20) and keeps the others; this
   * folds lower case onto upper case.
   */
  function HexToBin(h: Byte): (r: int)
    ensures '0' as int <= h <= '9' as int ==> r == h - '0' as int
    ensures 'A' as int <= h <= 'F' as int ==> r == h - 'A' as int + 10
    ensures 'a' as int <= h <= 'f' as int ==> r == h - 'a' as int + 10
    ensures IsHexDigit(h) ==> 0 <= r < 16
  {
    var masked := if (h / 0x20) % 2 == 1 then h - 0x20 else h;
    CRem(masked - 16, 39)
  }

  predicate IsHexDigit(h: Byte)
  {
    '0' as int <= h <= '9' as int || 'A' as int <= h <= 'F' as int || 'a' as int <= h <= 'f' as int
  }

  /** Value of a string of hexadecimal digits, most significant first (no wrap). */
  function HexValue(s: seq<Byte>): nat
    requires forall i :: 0 <= i < |s| ==> IsHexDigit(s[i])
  {
    if s == [] then 0 else HexValue(s[..|s| - 1]) * 16 + HexToBin(s[|s| - 1])
  }

  /**
   * What hexstr_to_int accumulates: the 32-bit register shifted left by a
   * nibble, then or-ed with HEXTOBIN of the next character converted to
   * uint32.
   */
  function HexAccum(s: seq<Byte>): nat
  {
    if s == [] then 0
    else BitOr((HexAccum(s[..|s| - 1]) * 16) % U32, HexToBin(s[|s| - 1]) % U32)
  }

  lemma {:induction false} HexAccumBound(s: seq<Byte>)
    ensures HexAccum(s) < U32
  {
    if s != [] {
      Pow2At32();
      BitOrBound((HexAccum(s[..|s| - 1]) * 16) % U32, HexToBin(s[|s| - 1]) % U32, 32);
    }
  }

  /** Shifting one hexadecimal digit into the wrapping 32-bit register. */
  lemma ShiftInNibble(v: nat, d: int)
    requires 0 <= d < 16
    ensures BitOr(((v % U32) * 16) % U32, d % U32) == (v * 16 + d) % U32
  {
    ModUnique(v * 16, 16, v, 0);
    OrNibble(v * 16, d);
    ShiftMod(v);
    OrOfEquals(((v % U32) * 16) % U32, (v * 16) % U32, d % U32, d % U32, (v * 16 + d) % U32);
  }

  /** A digit or-ed into a multiple of 16 reduced to 32 bits is added without carry. */
  lemma OrNibble(w: nat, d: int)
    requires w % 16 == 0 && 0 <= d < 16
    ensures BitOr(w % U32, d % U32) == (w + d) % U32
  {
    var x := w % U32;
    LowNibbleClear(w);
    assert Pow2(4) == 16;
    BitOrDisjoint(x, d, 4);
    AddNibbleMod(w, d);
    assert d % U32 == d;
    OrOfEquals(x, x, d % U32, d, (w + d) % U32);
  }

  lemma OrOfEquals(x: nat, y: nat, e: nat, f: nat, z: int)
    requires x == y && e == f && BitOr(y, f) == z
    ensures BitOr(x, e) == z
  {
  }

  /** A multiple of 16 stays one after reduction modulo 2^32. */
  lemma LowNibbleClear(w: nat)
    requires w % 16 == 0
    ensures (w % U32) % 16 == 0
  {
    ModMod(w, 16, U32 / 16);
  }

  /** A digit added below a multiple of 16 does not carry out of the 32-bit register. */
  lemma AddNibbleMod(w: nat, d: int)
    requires w % 16 == 0 && 0 <= d < 16
    ensures (w + d) % U32 == w % U32 + d
  {
    var x := w % U32;
    LowNibbleClear(w);
    var y := x / 16;
    assert x == y * 16 by {
      ModUnique(x, 16, y, 0);
    }
    assert x + d < U32;
    ModUnique(w + d, U32, w / U32, x + d);
  }

  /** Shifting left by 4 commutes with reduction modulo 2^32. */
  lemma ShiftMod(v: nat)
    ensures ((v % U32) * 16) % U32 == (v * 16) % U32
  {
    var a := (v % U32) * 16;
    var k := (v / U32) * 16;
    assert v * 16 == a + k * U32 by {
      assert v == (v / U32) * U32 + v % U32;
    }
    ModShift(a, k, U32);
  }

  /** Over hexadecimal digits, hexstr_to_int is the hexadecimal value modulo 2^32. */
  lemma {:induction false} HexAccumIsValue(s: seq<Byte>)
    requires forall i :: 0 <= i < |s| ==> IsHexDigit(s[i])
    ensures HexAccum(s) == HexValue(s) % U32
  {
    if s != [] {
      var init, last := s[..|s| - 1], s[|s| - 1];
      assert IsHexDigit(last);
      var d := HexToBin(last);
      assert HexValue(s) == HexValue(init) * 16 + d;
      assert HexAccum(s) == BitOr((HexAccum(init) * 16) % U32, d % U32);
      HexAccumIsValue(init);
      AccumStep(HexAccum(init), HexValue(init), d, HexAccum(s), HexValue(s));
    }
  }

  /** One digit more on both sides keeps the register equal to the value modulo 2^32. */
  lemma AccumStep(a: nat, hv: nat, d: int, acc: nat, val: nat)
    requires 0 <= d < 16 && a == hv % U32
    requires acc == BitOr((a * 16) % U32, d % U32) && val == hv * 16 + d
    ensures acc == val % U32
  {
    ShiftInNibble(hv, d);
  }

  /** hexstr_to_int: shifts the next l characters of src into a 32-bit register. */
  method HexStrToInt(src: seq<Byte>, l: int) returns (res: nat)
    requires 0 <= l <= |src|
    ensures res == HexAccum(src[..l]) && res < U32
  {
    res := 0;
    var i := 0;
    while i < l
      invariant 0 <= i <= l
      invariant res == HexAccum(src[..i])
    {
      assert src[..i + 1][..i] == src[..i];
      res := BitOr((res * 16) % U32, HexToBin(src[i]) % U32);
      i := i + 1;
    }
    HexAccumBound(src[..l]);
  }

  /** Over hexadecimal digits hexstr_to_int yields their value modulo 2^32. */
  lemma HexStrToIntOfDigits(src: seq<Byte>, l: int)
    requires 0 <= l <= |src|
    requires forall i :: 0 <= i < l ==> IsHexDigit(src[i])
    ensures HexAccum(src[..l]) == HexValue(src[..l]) % U32
  {
    HexAccumIsValue(src[..l]);
  }

  /**
   * get_ux_: reads x bytes of d big-endian starting at the cursor p into a
   * 64-bit register and returns the advanced cursor.
   */
  method GetUx(d: array<Byte>, p: int, x: int) returns (v: nat, p': int)
    requires 0 <= p && 0 <= x && p + x <= d.Length
    ensures v == BeValue(d[p..p + x]) % U64
    ensures p' == p + x
  {
    v := 0;
    p' := p;
    while p' < p + x
      invariant p <= p' <= p + x
      invariant v == BeValue(d[p..p']) % U64
    {
      assert d[p..p' + 1][..p' - p] == d[p..p'];
      ShiftInByte(BeValue(d[p..p']), d[p']);
      v := (v * 256) % U64 + d[p'];
      p' := p' + 1;
    }
  }

  /** The two's-complement value of a big-endian byte string whose sign is bit 7 of its first byte. */
  function SignedBe(s: seq<Byte>, neg: bool): int
  {
    BeValue(s) - (if neg then Pow256(|s|) else 0)
  }

  /**
   * get_ix_: like get_ux_, but the register starts as all ones when bit 7
   * of the first byte is set, so the value comes out sign-extended to 64
   * bits. The first byte is inspected even when x is 0.
   */
  method GetIx(d: array<Byte>, p: int, x: int) returns (v: nat, p': int)
    requires 0 <= p < d.Length && 0 <= x && p + x <= d.Length
    ensures v == SignedBe(d[p..p + x], d[p] >= 0x80) % U64
    ensures p' == p + x
  {
    var init := if d[p] >= 0x80 then U64 - 1 else 0;
    v := init;
    p' := p;
    while p' < p + x
      invariant p <= p' <= p + x
      invariant v == Register(init, d[p..p'])
    {
      assert d[p..p' + 1][..p' - p] == d[p..p'];
      RegisterStep(init, d[p..p' + 1], v);
      v := (v * 256) % U64 + d[p'];
      p' := p' + 1;
    }
    SignedRegister(d[p] >= 0x80, Pow256(x), BeValue(d[p..p + x]));
  }

  /** The 64-bit register after reading s into one that started as init. */
  function Register(init: nat, s: seq<Byte>): nat
  {
    (init * Pow256(|s|) + BeValue(s)) % U64
  }

  /** One byte shifted into the register: `v = (v << 8) | d[*p]` on 64 bits. */
  lemma RegisterStep(init: nat, s: seq<Byte>, v: int)
    requires s != [] && v == Register(init, s[..|s| - 1])
    ensures (v * 256) % U64 + s[|s| - 1] == Register(init, s)
  {
    var n := |s| - 1;
    var a := init * Pow256(n) + BeValue(s[..n]);
    ShiftInByte(a, s[n]);
    assert Pow256(|s|) == 256 * Pow256(n);
    assert BeValue(s) == BeValue(s[..n]) * 256 + s[n];
    MoveUpByte(init, Pow256(n), BeValue(s[..n]), s[n]);
  }

  /** A register that starts as all ones holds, modulo 2^64, the value read minus 256^x. */
  lemma SignedRegister(neg: bool, q: int, b: int)
    ensures ((if neg then U64 - 1 else 0) * q + b) % U64 == (b - (if neg then q else 0)) % U64
  {
    ModAddMultiple(if neg then q else 0, b - (if neg then q else 0));
  }

  lemma MoveUpByte(i: int, q: int, b: int, c: int)
    ensures (i * q + b) * 256 + c == i * (256 * q) + (b * 256 + c)
  {
  }

  /** The low x bytes of v, most significant first: byte i is (v >> 8(x-1-i)) & 0xff. */
  function BeBytes(v: nat, x: nat): (r: seq<Byte>)
    ensures |r| == x
  {
    seq(x, i requires 0 <= i < x => (v / Pow256(x - 1 - i)) % 256)
  }

  lemma BeBytesStep(v: nat, x: nat)
    ensures BeBytes(v, x + 1) == BeBytes(v / 256, x) + [v % 256]
  {
    var a, b := BeBytes(v, x + 1), BeBytes(v / 256, x);
    forall i | 0 <= i < x
      ensures a[i] == b[i]
    {
      BeByteAt(v, x, i);
    }
    assert Pow256(0) == 1;
    assert a[x] == v % 256;
  }

  lemma BeByteAt(v: nat, x: nat, i: nat)
    requires i < x
    ensures BeBytes(v, x + 1)[i] == BeBytes(v / 256, x)[i]
  {
    var n := x - 1 - i;
    assert Pow256(x - i) == 256 * Pow256(n);
    DivDiv(v, 256, Pow256(n));
  }

  /** Reading back the x bytes set_ux_ writes gives v modulo 256^x. */
  lemma {:induction false} BeBytesValue(v: nat, x: nat)
    ensures BeValue(BeBytes(v, x)) == v % Pow256(x)
  {
    if x > 0 {
      BeBytesStep(v, x - 1);
      var s := BeBytes(v, x);
      assert s[..x - 1] == BeBytes(v / 256, x - 1);
      BeBytesValue(v / 256, x - 1);
      ModSplit(v, Pow256(x - 1));
    }
  }

  lemma ModSplit(v: nat, m: nat)
    requires m > 0
    ensures v % (256 * m) == ((v / 256) % m) * 256 + v % 256
  {
    var q := v / 256;
    assert v == q * 256 + v % 256;
    assert q == (q / m) * m + q % m;
    assert v == (q / m) * (256 * m) + ((q % m) * 256 + v % 256);
    ModUnique(v, 256 * m, q / m, (q % m) * 256 + v % 256);
  }

  /**
   * set_ux_: writes the low x bytes of the 64-bit value v most significant
   * first at the cursor p and returns the advanced cursor; the rest of d is
   * unchanged. The shift by 8(x-1) is defined in C only for x <= 8.
   */
  method SetUx(d: array<Byte>, p: int, x: int, v: nat) returns (p': int)
    requires 0 <= p && 0 <= x <= 8 && p + x <= d.Length && v < U64
    modifies d
    ensures p' == p + x
    ensures d[..] == old(d[..p]) + BeBytes(v, x) + old(d[p + x..])
  {
    p' := p;
    ghost var bytes := BeBytes(v, x);
    while p' < p + x
      invariant p <= p' <= p + x
      invariant d[..] == old(d[..p]) + bytes[..p' - p] + old(d[p'..])
    {
      d[p'] := (v / Pow256(p + x - 1 - p')) % 256;
      assert d[..] == old(d[..p]) + bytes[..p' + 1 - p] + old(d[p' + 1..]);
      p' := p' + 1;
    }
  }

  /**
   * get_ux_ at the cursor set_ux_ started from reads back what set_ux_
   * wrote: v modulo 256^x.
   */
  lemma SetThenGet(before: seq<Byte>, p: nat, x: nat, v: nat)
    requires x <= 8 && p + x <= |before|
    ensures var after := before[..p] + BeBytes(v, x) + before[p + x..];
      BeValue(after[p..p + x]) % U64 == v % Pow256(x)
  {
    var after := before[..p] + BeBytes(v, x) + before[p + x..];
    assert after[p..p + x] == BeBytes(v, x);
    BeBytesValue(v, x);
    var m := v % Pow256(x);
    assert m < U64 by {
      Pow256Mono(x, 8);
      Pow256At8();
    }
    ModUnique(m, U64, 0, m);
  }
}
