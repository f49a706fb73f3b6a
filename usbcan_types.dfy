// Little-endian put/get of typed values with a cursor (the
// USB_CAN_PUT_UX / USB_CAN_GET_UX macro instances) and the 3-byte
// "float24" packing. Only little-endian hosts are supported, so copying
// a value's memory is writing its bytes least significant first; values,
// floats included, are modelled by their bit patterns.
module UsbcanTypes {
  import opened Arith

  /** The element types the macros are instantiated for. */
  datatype CType = CFloat | CDouble | CUint8 | CUint16 | CUint32 | CUint64

  function SizeOf(t: CType): (n: nat)
    ensures n in {1, 2, 4, 8}
  {
    match t
    case CFloat => 4
    case CDouble => 8
    case CUint8 => 1
    case CUint16 => 2
    case CUint32 => 4
    case CUint64 => 8
  }

  /** Memory image of a w-byte value on a little-endian host. */
  function LeBytes(v: nat, w: nat): (r: seq<Byte>)
    ensures |r| == w
  {
    if w == 0 then [] else [v % 256] + LeBytes(v / 256, w - 1)
  }

  /** Reading the image back gives the value, when it fits in w bytes. */
  lemma {:induction false} LeBytesValue(v: nat, w: nat)
    requires v < Pow256(w)
    ensures LeValue(LeBytes(v, w)) == v
  {
    if w > 0 {
      var s := LeBytes(v, w);
      assert s[1..] == LeBytes(v / 256, w - 1);
      LeBytesValue(v / 256, w - 1);
    }
  }

  /** Concatenated images of a run of w-byte values. */
  function Image(d: seq<nat>, w: nat): seq<Byte>
  {
    if d == [] then [] else Image(d[..|d| - 1], w) + LeBytes(d[|d| - 1], w)
  }

  lemma {:induction false} ImageLength(d: seq<nat>, w: nat)
    ensures |Image(d, w)| == |d| * w
  {
    if d != [] {
      ImageLength(d[..|d| - 1], w);
      assert (|d| - 1) * w + w == |d| * w;
    }
  }

  /** A w-byte image read back gives its value, when the value fits. */
  lemma {:induction false} LeValueBytes(s: seq<Byte>)
    ensures LeBytes(LeValue(s), |s|) == s
  {
    if s != [] {
      LeValueBytes(s[1..]);
      var v := LeValue(s);
      ModUnique(v, 256, LeValue(s[1..]), s[0]);
    }
  }

  /** Equal images of equally long runs of fitting values come from equal runs. */
  lemma {:induction false} ImageInjective(d: seq<nat>, e: seq<nat>, w: nat)
    requires |d| == |e| && Fits(d, w) && Fits(e, w)
    requires Image(d, w) == Image(e, w)
    ensures d == e
  {
    if d != [] {
      var n := |d| - 1;
      ImageLength(d[..n], w);
      ImageLength(e[..n], w);
      var img := Image(d, w);
      assert img[..|Image(d[..n], w)|] == Image(d[..n], w);
      assert img[..|Image(e[..n], w)|] == Image(e[..n], w);
      ImageInjective(d[..n], e[..n], w);
      assert img[|Image(d[..n], w)|..] == LeBytes(d[n], w);
      assert img[|Image(e[..n], w)|..] == LeBytes(e[n], w);
      LeBytesValue(d[n], w);
      LeBytesValue(e[n], w);
      assert d == d[..n] + [d[n]] && e == e[..n] + [e[n]];
    }
  }

  /** Writing x right after img keeps the spliced shape of the buffer. */
  lemma {:induction false} Splice(o: seq<Byte>, bp: nat, img: seq<Byte>, x: seq<Byte>, cur: seq<Byte>, next: seq<Byte>)
    requires bp + |img| + |x| <= |o|
    requires cur == o[..bp] + img + o[bp + |img|..]
    requires next == cur[..bp + |img|] + x + cur[bp + |img| + |x|..]
    ensures next == o[..bp] + (img + x) + o[bp + |img| + |x|..]
  {
    assert cur[..bp + |img|] == o[..bp] + img;
    assert cur[bp + |img| + |x|..] == o[bp + |img| + |x|..];
  }

  lemma {:induction false} MidSlice(pre: seq<Byte>, mid: seq<Byte>, post: seq<Byte>, lo: nat, hi: nat)
    requires lo <= hi <= |mid|
    ensures (pre + mid + post)[|pre| + lo..|pre| + hi] == mid[lo..hi]
  {
  }

  predicate Fits(d: seq<nat>, w: nat)
  {
    forall i :: 0 <= i < |d| ==> d[i] < Pow256(w)
  }

  /** memcpy of a byte string into b at offset at. */
  method CopyIn(b: array<Byte>, at: int, bytes: seq<Byte>)
    requires 0 <= at && at + |bytes| <= b.Length
    modifies b
    ensures b[..] == old(b[..at]) + bytes + old(b[at + |bytes|..])
  {
    var k := 0;
    while k < |bytes|
      invariant 0 <= k <= |bytes|
      invariant b[..] == old(b[..at]) + bytes[..k] + old(b[at + k..])
    {
      b[at + k] := bytes[k];
      assert b[..] == old(b[..at]) + bytes[..k + 1] + old(b[at + k + 1..]);
      k := k + 1;
    }
  }

  /**
   * usb_can_put_<type>: copies the |d| values into b from the cursor bp,
   * one sizeof(type) image after the other, and returns the advanced
   * cursor. No byte outside the written run changes.
   */
  method Put(b: array<Byte>, bp: int, d: seq<nat>, t: CType) returns (bp': int)
    requires Fits(d, SizeOf(t))
    requires 0 <= bp && bp + |d| * SizeOf(t) <= b.Length
    modifies b
    ensures bp' == bp + |d| * SizeOf(t)
    ensures b[..] == old(b[..bp]) + Image(d, SizeOf(t)) + old(b[bp + |d| * SizeOf(t)..])
  {
    var w := SizeOf(t);
    ImageLength(d, w);
    bp' := bp;
    var k := 0;
    while k < |d|
      invariant 0 <= k <= |d|
      invariant bp' == bp + |Image(d[..k], w)| && bp' <= b.Length
      invariant b[..] == old(b[..]) [..bp] + Image(d[..k], w) + old(b[..])[bp' ..]
    {
      bp' := PutOne(b, bp, bp', d, k, w, old(b[..]));
      k := k + 1;
    }
    assert d[..|d|] == d;
  }

  /** The body of put's loop: the image of d[k] goes in at the cursor. */
  method PutOne(b: array<Byte>, bp: nat, cur: int, d: seq<nat>, k: nat, w: nat, ghost o: seq<Byte>) returns (next: int)
    requires k < |d| && bp + |d| * w <= b.Length == |o|
    requires cur == bp + |Image(d[..k], w)| && cur <= b.Length
    requires b[..] == o[..bp] + Image(d[..k], w) + o[cur..]
    modifies b
    ensures next == bp + |Image(d[..k + 1], w)| && next <= b.Length
    ensures b[..] == o[..bp] + Image(d[..k + 1], w) + o[next..]
  {
    assert cur + w <= b.Length by {
      ImageLength(d[..k], w);
      assert cur == bp + k * w;
      MulNextLe(k, |d|, w);
    }
    ghost var before := b[..];
    CopyIn(b, cur, LeBytes(d[k], w));
    PutStep(o, bp, d, k, w, before, b[..]);
    next := cur + w;
  }

  /** One step of put: the run of images grows by the next value's image. */
  lemma PutStep(o: seq<Byte>, bp: nat, d: seq<nat>, k: nat, w: nat, cur: seq<Byte>, next: seq<Byte>)
    requires k < |d|
    requires bp + |Image(d[..k], w)| + w <= |o|
    requires cur == o[..bp] + Image(d[..k], w) + o[bp + |Image(d[..k], w)|..]
    requires next == cur[..bp + |Image(d[..k], w)|] + LeBytes(d[k], w) + cur[bp + |Image(d[..k], w)| + w..]
    ensures |Image(d[..k + 1], w)| == |Image(d[..k], w)| + w
    ensures next == o[..bp] + Image(d[..k + 1], w) + o[bp + |Image(d[..k + 1], w)|..]
  {
    assert d[..k + 1][..k] == d[..k];
    Splice(o, bp, Image(d[..k], w), LeBytes(d[k], w), cur, next);
  }

  /**
   * usb_can_get_<type>: reads n values of sizeof(type) bytes from the
   * cursor bp and returns them with the advanced cursor; b is only read.
   * The values fit their type and their images are exactly the bytes read.
   */
  method Get(b: array<Byte>, bp: int, n: int, t: CType) returns (d: seq<nat>, bp': int)
    requires 0 <= bp && 0 <= n && bp + n * SizeOf(t) <= b.Length
    ensures bp' == bp + n * SizeOf(t) && |d| == n
    ensures Fits(d, SizeOf(t)) && Image(d, SizeOf(t)) == b[bp..bp']
  {
    var w := SizeOf(t);
    d := [];
    bp' := bp;
    while |d| < n
      invariant |d| <= n && bp' == bp + |d| * w
      invariant Fits(d, w) && Image(d, w) == b[bp..bp']
    {
      assert bp' + w <= b.Length by { MulNextLe(|d|, n, w); }
      var v := LeValue(b[bp'..bp' + w]);
      GetStep(b[..], bp, bp', d, w);
      d := d + [v];
      bp' := bp' + w;
    }
  }

  /** One step of get: the next w bytes read as a value extend the image by those bytes. */
  lemma GetStep(b: seq<Byte>, bp: nat, p: nat, d: seq<nat>, w: nat)
    requires bp <= p && p + w <= |b|
    requires Fits(d, w) && Image(d, w) == b[bp..p]
    ensures Fits(d + [LeValue(b[p..p + w])], w)
    ensures Image(d + [LeValue(b[p..p + w])], w) == b[bp..p + w]
  {
    var s := b[p..p + w];
    LeValueBound(s);
    FitsAppend(d, LeValue(s), w);
    LeValueBytes(s);
    ImageAppend(d, LeValue(s), w);
    assert b[bp..p + w] == b[bp..p] + s;
  }

  lemma FitsAppend(d: seq<nat>, v: nat, w: nat)
    requires Fits(d, w) && v < Pow256(w)
    ensures Fits(d + [v], w)
  {
    var d' := d + [v];
    assert forall i :: 0 <= i < |d| ==> d'[i] == d[i];
  }

  lemma ImageAppend(d: seq<nat>, v: nat, w: nat)
    ensures Image(d + [v], w) == Image(d, w) + LeBytes(v, w)
  {
    assert (d + [v])[..|d|] == d;
  }

  /** get after put at the same cursor restores the values exactly. */
  lemma PutThenGet(before: seq<Byte>, after: seq<Byte>, bp: nat, d: seq<nat>, t: CType, e: seq<nat>)
    requires Fits(d, SizeOf(t)) && bp + |d| * SizeOf(t) <= |before| && |after| == |before|
    requires after == before[..bp] + Image(d, SizeOf(t)) + before[bp + |d| * SizeOf(t)..]
    requires |e| == |d| && Fits(e, SizeOf(t)) && Image(e, SizeOf(t)) == after[bp..bp + |d| * SizeOf(t)]
    ensures e == d
  {
    var w := SizeOf(t);
    ImageLength(d, w);
    var pre, img := before[..bp], Image(d, w);
    assert after[bp..bp + |d| * w] == img by {
      assert after == pre + img + before[bp + |img|..];
      assert |pre| == bp;
    }
    ImageInjective(d, e, w);
  }

  /** The three bytes float24 keeps of a 32-bit pattern: bytes 1..3, byte 0 dropped. */
  function Image24(d: seq<nat>): (r: seq<Byte>)
    ensures |r| == 3 * |d|
  {
    if d == [] then [] else Image24(d[..|d| - 1]) + LeBytes(d[|d| - 1], 4)[1..]
  }

  /**
   * usb_can_put_float24: writes 3 bytes per value, bytes 1..3 of its
   * little-endian image, and advances the cursor by 3 per value.
   */
  method PutFloat24(b: array<Byte>, bp: int, d: seq<nat>) returns (bp': int)
    requires 0 <= bp && bp + 3 * |d| <= b.Length
    modifies b
    ensures bp' == bp + 3 * |d|
    ensures b[..] == old(b[..bp]) + Image24(d) + old(b[bp + 3 * |d|..])
  {
    bp' := bp;
    var k := 0;
    while k < |d|
      invariant 0 <= k <= |d| && bp' == bp + 3 * k
      invariant b[..] == old(b[..])[..bp] + Image24(d[..k]) + old(b[..])[bp'..]
    {
      ghost var cur := b[..];
      CopyIn(b, bp', LeBytes(d[k], 4)[1..]);
      Splice(old(b[..]), bp, Image24(d[..k]), LeBytes(d[k], 4)[1..], cur, b[..]);
      assert d[..k + 1][..k] == d[..k];
      bp' := bp' + 3;
      k := k + 1;
    }
    assert d[..|d|] == d;
  }

  /**
   * usb_can_get_float24: each result starts as 0 and receives 3 bytes in
   * its bytes 1..3, so its lowest-order byte is always 0; the cursor
   * advances by 3 per value.
   */
  method GetFloat24(b: array<Byte>, bp: int, n: int) returns (d: seq<nat>, bp': int)
    requires 0 <= bp && 0 <= n && bp + 3 * n <= b.Length
    ensures bp' == bp + 3 * n && |d| == n
    ensures forall i :: 0 <= i < n ==> d[i] == LeValue([0] + b[bp + 3 * i..bp + 3 * i + 3])
    ensures forall i :: 0 <= i < n ==> d[i] % 256 == 0 && d[i] < U32
  {
    d := [];
    bp' := bp;
    while |d| < n
      invariant |d| <= n && bp' == bp + 3 * |d|
      invariant forall i :: 0 <= i < |d| ==> d[i] == LeValue([0] + b[bp + 3 * i..bp + 3 * i + 3])
      invariant forall i :: 0 <= i < |d| ==> d[i] % 256 == 0 && d[i] < U32
    {
      var v := LeValue([0] + b[bp'..bp' + 3]);
      LeValueBound(b[bp'..bp' + 3]);
      assert v == 256 * LeValue(b[bp'..bp' + 3]) by {
        assert ([0] + b[bp'..bp' + 3])[1..] == b[bp'..bp' + 3];
      }
      d := d + [v];
      bp' := bp' + 3;
    }
  }

  lemma {:induction false} Image24Slice(d: seq<nat>, i: nat)
    requires i < |d|
    ensures Image24(d)[3 * i..3 * i + 3] == LeBytes(d[i], 4)[1..]
  {
    var n := |d| - 1;
    if i < n {
      Image24Slice(d[..n], i);
      assert Image24(d)[..3 * n] == Image24(d[..n]);
      assert Image24(d)[3 * i..3 * i + 3] == Image24(d[..n])[3 * i..3 * i + 3];
    }
  }

  /**
   * get_float24 after put_float24 returns each 32-bit pattern with its
   * lowest-order byte cleared.
   */
  lemma PutThenGetFloat24(before: seq<Byte>, after: seq<Byte>, bp: nat, d: seq<nat>, i: nat)
    requires bp + 3 * |d| <= |before| && i < |d| && d[i] < U32
    requires after == before[..bp] + Image24(d) + before[bp + 3 * |d|..]
    ensures bp + 3 * i + 3 <= |after|
    ensures LeValue([0] + after[bp + 3 * i..bp + 3 * i + 3]) == d[i] - d[i] % 256
  {
    Image24Slice(d, i);
    var pre, post := before[..bp], before[bp + 3 * |d|..];
    MidSlice(pre, Image24(d), post, 3 * i, 3 * i + 3);
    var img := Image24(d);
    assert |pre| == bp && after == pre + img + post;
    var sl := after[bp + 3 * i..bp + 3 * i + 3];
    assert sl == img[3 * i..3 * i + 3];
    ClearLowByte(d[i]);
  }

  /** Dropping the lowest byte of a 32-bit image and reading it back with a zero byte. */
  lemma ClearLowByte(v: nat)
    requires v < U32
    ensures LeValue([0] + LeBytes(v, 4)[1..]) == v - v % 256
  {
    var q, r := v / 256, v % 256;
    var x := q * 256;
    assert v == x + r;
    ModUnique(x, 256, q, 0);
    assert LeBytes(v, 4)[1..] == LeBytes(q, 3);
    assert LeBytes(x, 4) == [0] + LeBytes(q, 3);
    LeBytesValue(x, 4);
  }
}
