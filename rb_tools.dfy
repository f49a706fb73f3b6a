// Ring-buffer helpers: the wrapping copy rb_to_rb and the distance rb_dist
// that the serial deframer uses to count buffered bytes.
module RbTools {
  import opened Arith

  /**
   * rb_dist: how far the head h is ahead of the tail t in a ring of sz
   * slots. Positions inside the ring take the short form; RbDistIsRemainder
   * shows that this is (h - t + sz) % sz with C's remainder everywhere.
   */
  function RbDist(h: int, t: int, sz: int): int
    requires sz != 0
  {
    if 0 <= t < sz && 0 <= h < sz then (if h >= t then h - t else h - t + sz)
    else CRem(h - t + sz, sz)
  }

  lemma RbDistIsRemainder(h: int, t: int, sz: int)
    requires sz != 0
    ensures RbDist(h, t, sz) == CRem(h - t + sz, sz)
    ensures 0 <= t < sz && 0 <= h < sz ==> 0 <= RbDist(h, t, sz) < sz
  {
    if 0 <= t < sz && 0 <= h < sz {
      CRemNonneg(h - t + sz, sz);
      ModUnique(h - t + sz, sz, if h >= t then 1 else 0, if h >= t then h - t else h - t + sz);
    }
  }

  /** The slot after p in a ring of sz slots. */
  function Next(p: int, sz: int): (r: int)
    requires 0 <= p < sz
    ensures 0 <= r < sz && r == (p + 1) % sz
  {
    ModUnique(p + 1, sz, if p + 1 == sz then 1 else 0, if p + 1 == sz then 0 else p + 1);
    if p + 1 == sz then 0 else p + 1
  }

  lemma ModNext(a: nat, m: nat)
    requires m > 0
    ensures (a + 1) % m == Next(a % m, m)
  {
    ModUnique(a, m, a / m, a % m);
    ModUnique(a + 1, m, a / m + (if a % m + 1 == m then 1 else 0), Next(a % m, m));
  }

  /** rb_dist of the slot after the head is one more, around the ring. */
  lemma RbDistNext(h: int, t: int, sz: int)
    requires 0 <= h < sz && 0 <= t < sz
    ensures RbDist(Next(h, sz), t, sz) == Next(RbDist(h, t, sz), sz)
  {
  }

  /**
   * Advancing the head of a ring by n (as writing n bytes does) raises the
   * distance from the tail by n, modulo the ring size.
   */
  lemma {:induction false} RbDistAdvance(h: int, t: int, sz: int, n: nat)
    requires 0 <= h < sz && 0 <= t < sz
    ensures RbDist((h + n) % sz, t, sz) == (RbDist(h, t, sz) + n) % sz
  {
    if n == 0 {
      ModUnique(h, sz, 0, h);
      ModUnique(RbDist(h, t, sz), sz, 0, RbDist(h, t, sz));
    } else {
      RbDistAdvance(h, t, sz, n - 1);
      ModNext(h + (n - 1), sz);
      RbDistNext((h + (n - 1)) % sz, t, sz);
      ModNext(RbDist(h, t, sz) + (n - 1), sz);
    }
  }

  /**
   * The effect of rb_to_rb on the destination: n times, slot dp of d takes
   * src[sp], then both positions advance around their own ring.
   */
  function RingCopy(d: seq<Byte>, dp: nat, s: seq<Byte>, sp: nat, n: nat, dsz: nat, ssz: nat): (r: seq<Byte>)
    requires 0 < dsz <= |d| && 0 < ssz <= |s| && dp < dsz && sp < ssz
    ensures |r| == |d|
    decreases n
  {
    if n == 0 then d
    else RingCopy(d[dp := s[sp]], Next(dp, dsz), s, Next(sp, ssz), n - 1, dsz, ssz)
  }

  /**
   * rb_to_rb leaves alone every destination slot beyond its ring and every
   * slot that lies n or more steps ahead of the start.
   */
  lemma {:induction false} RingCopyFrame(d: seq<Byte>, dp: nat, s: seq<Byte>, sp: nat, n: nat, dsz: nat, ssz: nat, j: nat)
    requires 0 < dsz <= |d| && 0 < ssz <= |s| && dp < dsz && sp < ssz
    requires j < |d| && (j >= dsz || RbDist(j, dp, dsz) >= n)
    ensures RingCopy(d, dp, s, sp, n, dsz, ssz)[j] == d[j]
    decreases n
  {
    if n > 0 {
      RingCopyFrame(d[dp := s[sp]], Next(dp, dsz), s, Next(sp, ssz), n - 1, dsz, ssz, j);
    }
  }

  /** The slot i steps ahead of p in a ring of sz slots, for i < sz. */
  function Ahead(p: nat, i: nat, sz: nat): (r: nat)
    requires p < sz && i < sz
    ensures r < sz && r == (p + i) % sz && RbDist(r, p, sz) == i
  {
    ModUnique(p + i, sz, if p + i < sz then 0 else 1, if p + i < sz then p + i else p + i - sz);
    if p + i < sz then p + i else p + i - sz
  }

  /**
   * When n does not exceed the destination ring, the slot i steps ahead of
   * dp ends up holding src[(sp + i) mod ssz], for every i < n.
   */
  lemma {:induction false} RingCopyAt(d: seq<Byte>, dp: nat, s: seq<Byte>, sp: nat, n: nat, dsz: nat, ssz: nat, i: nat)
    requires 0 < dsz <= |d| && 0 < ssz <= |s| && dp < dsz && sp < ssz
    requires n <= dsz && i < n
    ensures RingCopy(d, dp, s, sp, n, dsz, ssz)[Ahead(dp, i, dsz)] == s[(sp + i) % ssz]
    decreases n
  {
    var dp', sp' := Next(dp, dsz), Next(sp, ssz);
    if i == 0 {
      ModUnique(sp, ssz, 0, sp);
      RingCopyFrame(d[dp := s[sp]], dp', s, sp', n - 1, dsz, ssz, dp);
    } else {
      RingCopyAt(d[dp := s[sp]], dp', s, sp', n - 1, dsz, ssz, i - 1);
      assert Ahead(dp', i - 1, dsz) == Ahead(dp, i, dsz);
      ModNext(sp + (i - 1), ssz);
      ModUnique(sp, ssz, 0, sp);
      SlideMod(sp, i - 1, ssz);
    }
  }

  /** Starting one slot later and going one step less reaches the same slot. */
  lemma SlideMod(sp: nat, k: nat, m: nat)
    requires sp < m
    ensures (Next(sp, m) + k) % m == (sp + k + 1) % m
  {
    if sp + 1 == m {
      ModShift(k, 1, m);
    }
  }

  /** The first step of a ring copy, unrolled. */
  lemma RingCopyStep(d: seq<Byte>, dp: nat, s: seq<Byte>, sp: nat, n: nat, dsz: nat, ssz: nat)
    requires 0 < dsz <= |d| && 0 < ssz <= |s| && dp < dsz && sp < ssz && n > 0
    ensures RingCopy(d[dp := s[sp]], Next(dp, dsz), s, Next(sp, ssz), n - 1, dsz, ssz)
         == RingCopy(d, dp, s, sp, n, dsz, ssz)
  {
  }

  /** (p + 1) % sz, with C's remainder, is the next slot and one more step from the start. */
  lemma StepPositions(p0: nat, i: nat, p: int, sz: int)
    requires 0 <= p < sz && p == (p0 + i) % sz
    ensures CRem(p + 1, sz) == Next(p, sz) == (p0 + (i + 1)) % sz
  {
    CRemNext(p, sz);
    ModNext(p0 + i, sz);
  }

  lemma CRemNext(p: int, sz: int)
    requires 0 <= p < sz
    ensures CRem(p + 1, sz) == Next(p, sz)
  {
    CRemNonneg(p + 1, sz);
  }

  /**
   * rb_to_rb: normalises both start positions into their rings (valid for
   * starts no lower than minus the ring size), copies n bytes slot by slot
   * with wrap-around on both sides, and returns the next destination
   * position. The source array is only read.
   */
  method RbToRb(dst: array<Byte>, dstP: int, dstSz: int, src: array<Byte>, srcP: int, srcSz: int, n: int)
      returns (r: int)
    requires dst != src
    requires 0 < dstSz <= dst.Length && 0 < srcSz <= src.Length
    requires dstP >= -dstSz && srcP >= -srcSz && n >= 0
    modifies dst
    ensures r == (dstP + dstSz + n) % dstSz
    ensures dst[..] == RingCopy(old(dst[..]), (dstP + dstSz) % dstSz, src[..], (srcP + srcSz) % srcSz, n, dstSz, srcSz)
  {
    CRemNonneg(dstP + dstSz, dstSz);
    CRemNonneg(srcP + srcSz, srcSz);
    var dp := CRem(dstP + dstSz, dstSz);
    var sp := CRem(srcP + srcSz, srcSz);
    ghost var dp0, sp0 := dp, sp;
    ModUnique(dp0 + 0, dstSz, 0, dp0);
    var k := n;
    while k > 0
      invariant 0 <= k <= n
      invariant 0 <= dp < dstSz && 0 <= sp < srcSz
      invariant dp == (dp0 + (n - k)) % dstSz
      invariant RingCopy(dst[..], dp, src[..], sp, k, dstSz, srcSz)
             == RingCopy(old(dst[..]), dp0, src[..], sp0, n, dstSz, srcSz)
    {
      ghost var before := dst[..];
      dst[dp] := src[sp];
      assert dst[..] == before[dp := src[..][sp]];
      var dpNext := CRem(dp + 1, dstSz);
      var spNext := CRem(sp + 1, srcSz);
      StepPositions(dp0, n - k, dp, dstSz);
      CRemNext(sp, srcSz);
      RingCopyStep(before, dp, src[..], sp, k, dstSz, srcSz);
      dp, sp := dpNext, spNext;
      k := k - 1;
    }
    ModUnique(dstP + dstSz, dstSz, (dstP + dstSz) / dstSz, dp0);
    ModShift(dp0 + n, (dstP + dstSz) / dstSz, dstSz);
    r := dp;
  }
}
