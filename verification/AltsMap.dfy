/** The map of the alternates partition: one mark per sector in core, one bit per sector on disk. */
module AltsMap {
  import opened Bits

  const GOOD := 0
  const BAD := 1

  type unchar = x: int | 0 <= x < 256

  predicate Marks(m: seq<int>) {
    forall i :: 0 <= i < |m| ==> m[i] == GOOD || m[i] == BAD
  }

  // ----- allocation ------------------------------------------------------------------

  const UP := 1
  const DOWN := -1

  /** The `cnt` sectors from `a` on exist and are good. */
  predicate Free(m: seq<int>, a: int, cnt: int) {
    0 <= a && a + cnt <= |m| && forall k :: a <= k < a + cnt ==> m[k] != BAD
  }

  /** No run of `cnt` good sectors lies from `lo` up to, and without, `hi`. */
  predicate NoneFree(m: seq<int>, lo: int, hi: int, cnt: int) {
    forall a {:trigger Free(m, a, cnt)} :: lo <= a && a + cnt <= hi ==> !Free(m, a, cnt)
  }

  /** What allocating `cnt` sectors from `srt` towards `end` must yield; 0 stands for failure. */
  predicate FirstFit(m: seq<int>, srt: int, end: int, cnt: int, dir: int, ind: int) {
    if ind == 0 then
      cnt <= 0 || (if dir == UP then NoneFree(m, srt, end, cnt) else NoneFree(m, end + 1, srt + 1, cnt))
    else if dir == UP then
      cnt > 0 && srt <= ind && ind + cnt <= end && Free(m, ind, cnt) && NoneFree(m, srt, ind + cnt - 1, cnt)
    else
      cnt > 0 && end < ind - cnt + 1 && ind <= srt && Free(m, ind - cnt + 1, cnt)
      && NoneFree(m, ind - cnt + 2, srt + 1, cnt)
  }

  /** The lowest run of `cnt` good sectors from `lo` up to, and without, `hi`; 0 if there is none. */
  function LowestRun(m: seq<int>, lo: int, hi: int, cnt: int): (a: int)
    requires lo > 0
    ensures a == 0 ==> cnt <= 0 || NoneFree(m, lo, hi, cnt)
    ensures a != 0 ==> cnt > 0 && lo <= a && a + cnt <= hi && Free(m, a, cnt) && NoneFree(m, lo, a + cnt - 1, cnt)
    decreases hi - lo
  {
    if cnt <= 0 || lo + cnt > hi then 0
    else if Free(m, lo, cnt) then lo
    else LowestRun(m, lo + 1, hi, cnt)
  }

  /** The highest one. */
  function HighestRun(m: seq<int>, lo: int, hi: int, cnt: int): (a: int)
    requires lo > 0
    ensures a == 0 ==> cnt <= 0 || NoneFree(m, lo, hi, cnt)
    ensures a != 0 ==> cnt > 0 && lo <= a && a + cnt <= hi && Free(m, a, cnt) && NoneFree(m, a + 1, hi, cnt)
    decreases hi - lo
  {
    if cnt <= 0 || lo + cnt > hi then 0
    else if Free(m, hi - cnt, cnt) then hi - cnt
    else HighestRun(m, lo, hi - 1, cnt)
  }

  /** The first fit in either direction is one of these two runs. */
  lemma {:induction false} FirstFitIs(m: seq<int>, srt: int, end: int, cnt: int, ind: int)
    ensures srt > 0 && FirstFit(m, srt, end, cnt, UP, ind) ==> ind == LowestRun(m, srt, end, cnt)
    ensures end >= 0 && FirstFit(m, srt, end, cnt, DOWN, ind) ==>
              (if ind == 0 then 0 else ind - cnt + 1) == HighestRun(m, end + 1, srt + 1, cnt)
  {
    if srt > 0 && FirstFit(m, srt, end, cnt, UP, ind) {
      var a := LowestRun(m, srt, end, cnt);
      assert a != 0 ==> Free(m, a, cnt);
      assert ind != 0 ==> Free(m, ind, cnt);
    }
    if end >= 0 && FirstFit(m, srt, end, cnt, DOWN, ind) {
      var a := HighestRun(m, end + 1, srt + 1, cnt);
      assert a != 0 ==> Free(m, a, cnt);
      assert ind != 0 ==> Free(m, ind - cnt + 1, cnt);
    }
  }

  /** Finds the first run of `cnt` good sectors in direction `dir`. */
  method AltsmapAlloc(memmap: array<int>, srt: int, end: int, cnt: int, dir: int) returns (ind: int)
    requires dir == UP || dir == DOWN
    requires dir == UP ==> 0 < srt <= end <= memmap.Length
    requires dir == DOWN ==> 0 <= end <= srt < memmap.Length
    ensures FirstFit(memmap[..], srt, end, cnt, dir, ind)
  {
    if dir == UP {
      ind := AllocUp(memmap, srt, end, cnt);
    } else {
      ind := AllocDown(memmap, srt, end, cnt);
    }
  }

  method AllocUp(memmap: array<int>, srt: int, end: int, cnt: int) returns (ind: int)
    requires 0 < srt <= end <= memmap.Length
    ensures FirstFit(memmap[..], srt, end, cnt, UP, ind)
  {
    ghost var m := memmap[..];
    var i, first, total := srt, srt, 0;
    while i != end
      invariant srt <= first <= i <= end && total == i - first
      invariant cnt > 0 ==> total < cnt
      invariant forall k :: first <= k < i ==> m[k] != BAD
      invariant first > srt ==> m[first - 1] == BAD
      invariant cnt > 0 ==> NoneFree(m, srt, i, cnt)
      decreases end - i
    {
      if memmap[i] == BAD {
        total := 0;
        first := i + UP;
      } else {
        total := total + 1;
        if total == cnt {
          return first;
        }
      }
      i := i + UP;
    }
    ind := 0;
  }

  method AllocDown(memmap: array<int>, srt: int, end: int, cnt: int) returns (ind: int)
    requires 0 <= end <= srt < memmap.Length
    ensures FirstFit(memmap[..], srt, end, cnt, DOWN, ind)
  {
    ghost var m := memmap[..];
    var i, first, total := srt, srt, 0;
    while i != end
      invariant end <= i <= first <= srt && total == first - i
      invariant cnt > 0 ==> total < cnt
      invariant forall k :: i < k <= first ==> m[k] != BAD
      invariant first < srt ==> m[first + 1] == BAD
      invariant cnt > 0 ==> NoneFree(m, i + 1, srt + 1, cnt)
      decreases i - end
    {
      if memmap[i] == BAD {
        total := 0;
        first := i + DOWN;
      } else {
        total := total + 1;
        if total == cnt {
          return first;
        }
      }
      i := i + DOWN;
    }
    ind := 0;
  }

  // ----- packing -----------------------------------------------------------------------

  /** The mark of sector `i` in the packed map: bit `i % 8` of its byte, counted from the high end. */
  predicate GetBit(p: seq<unchar>, i: nat)
    requires i < 8 * |p|
  {
    HasBit(p[i / 8], 7 - i % 8)
  }

  /** The marks a packed map holds for the first `n` sectors. */
  function Unpacked(p: seq<unchar>, n: nat): (r: seq<int>)
    requires n <= 8 * |p|
    ensures |r| == n && Marks(r)
  {
    seq(n, i requires 0 <= i < n => if GetBit(p, i) then BAD else GOOD)
  }

  function Weight(b: nat, k: nat): nat {
    if HasBit(b, k) then Pow2(k) else 0
  }

  /** A number is the sum of its bits. */
  lemma {:induction false} BitValues(b: nat, n: nat)
    requires b < Pow2(n)
    ensures b == BitSum(b, n)
  {
    if n > 0 {
      BitValues(b / 2, n - 1);
      HalfSum(b, n);
    }
  }

  function BitSum(b: nat, n: nat): nat {
    if n == 0 then 0 else BitSum(b, n - 1) + Weight(b, n - 1)
  }

  lemma {:induction false} HalfSum(b: nat, n: nat)
    requires n > 0
    ensures BitSum(b, n) == 2 * BitSum(b / 2, n - 1) + b % 2
  {
    if n > 1 {
      HalfSum(b, n - 1);
      assert Weight(b, n - 1) == 2 * Weight(b / 2, n - 2);
    } else {
      assert BitSum(b, 1) == BitSum(b, 0) + Weight(b, 0);
    }
  }

  /** A byte of the packed map holds the marks of eight sectors, the first as its highest bit. */
  lemma {:induction false} MapByte(p: seq<unchar>, n: nat, j: nat)
    requires 8 * j + 8 <= n <= 8 * |p|
    ensures var m := Unpacked(p, n);
            p[j] == 128 * m[8 * j] + 64 * m[8 * j + 1] + 32 * m[8 * j + 2] + 16 * m[8 * j + 3]
                  + 8 * m[8 * j + 4] + 4 * m[8 * j + 5] + 2 * m[8 * j + 6] + m[8 * j + 7]
  {
    hide HasBit, BitSum, Weight;
    var b := p[j];
    Powers();
    BitValues(b, 8);
    EightBits(b);
    WeightIs(p, n, j, 0);
    WeightIs(p, n, j, 1);
    WeightIs(p, n, j, 2);
    WeightIs(p, n, j, 3);
    WeightIs(p, n, j, 4);
    WeightIs(p, n, j, 5);
    WeightIs(p, n, j, 6);
    WeightIs(p, n, j, 7);
  }

  lemma {:induction false} WeightIs(p: seq<unchar>, n: nat, j: nat, k: nat)
    requires 8 * j + 8 <= n <= 8 * |p| && k < 8
    ensures Weight(p[j], 7 - k) == Pow2(7 - k) * Unpacked(p, n)[8 * j + k]
  {
    hide HasBit, Pow2;
    assert (8 * j + k) / 8 == j && (8 * j + k) % 8 == k;
  }

  lemma {:induction false} EightBits(b: nat)
    ensures BitSum(b, 8) == Weight(b, 0) + Weight(b, 1) + Weight(b, 2) + Weight(b, 3)
                          + Weight(b, 4) + Weight(b, 5) + Weight(b, 6) + Weight(b, 7)
  {
    hide Weight;
    assert BitSum(b, 2) == BitSum(b, 1) + Weight(b, 1) && BitSum(b, 1) == BitSum(b, 0) + Weight(b, 0);
    assert BitSum(b, 4) == BitSum(b, 3) + Weight(b, 3) && BitSum(b, 3) == BitSum(b, 2) + Weight(b, 2);
    assert BitSum(b, 6) == BitSum(b, 5) + Weight(b, 5) && BitSum(b, 5) == BitSum(b, 4) + Weight(b, 4);
    assert BitSum(b, 8) == BitSum(b, 7) + Weight(b, 7) && BitSum(b, 7) == BitSum(b, 6) + Weight(b, 6);
  }

  lemma {:induction false} Powers()
    ensures Pow2(0) == 1 && Pow2(1) == 2 && Pow2(2) == 4 && Pow2(3) == 8 && Pow2(4) == 16
    ensures Pow2(5) == 32 && Pow2(6) == 64 && Pow2(7) == 128 && Pow2(8) == 256
  {}

  method ExpandMap(memmap: array<int>, mapp: array<unchar>)
    requires memmap.Length <= 8 * mapp.Length
    modifies memmap
    ensures memmap[..] == Unpacked(old(mapp[..]), memmap.Length)
    ensures mapp[..] == old(mapp[..])
  {
    var i := 0;
    ghost var p := mapp[..];
    while i < memmap.Length
      invariant 0 <= i <= memmap.Length
      invariant mapp[..] == p
      invariant forall k :: 0 <= k < i ==> memmap[k] == if GetBit(p, k) then BAD else GOOD
    {
      memmap[i] := if HasBit(mapp[i / 8], 7 - i % 8) then BAD else GOOD;
      i := i + 1;
    }
  }

  /** The byte under construction holds the marks of the sectors since the last full byte. */
  ghost predicate Partial(m: seq<int>, mask: nat, maplen: nat, bytesz: int) {
    && -1 <= bytesz < 8 && mask < 256 && 8 * maplen + 7 - bytesz <= |m|
    && forall k :: 0 <= k < 8 ==> (HasBit(mask, k) <==> k > bytesz && m[8 * maplen + 7 - k] == BAD)
  }

  lemma {:induction false} AddBit(m: seq<int>, mask: nat, maplen: nat, bytesz: int)
    requires Marks(m) && Partial(m, mask, maplen, bytesz) && bytesz >= 0 && 8 * maplen + 7 - bytesz < |m|
    ensures var set1 := if m[8 * maplen + 7 - bytesz] == BAD then SetBit(mask, bytesz) else mask;
            Partial(m, set1, maplen, bytesz - 1)
  {
    assert Pow2(8) == 256;
    SetBitSpec(mask, bytesz, 8);
  }

  /** The first `maplen` bytes hold the marks of the first `8 * maplen` sectors. */
  ghost predicate Packed(m: seq<int>, p: seq<unchar>, n: nat) {
    n <= |m| && n <= 8 * |p| && forall j: nat :: j < n ==> (GetBit(p, j) <==> m[j] == BAD)
  }

  lemma {:induction false} StoreByte(m: seq<int>, p: seq<unchar>, mask: nat, maplen: nat, bytesz: int)
    requires Partial(m, mask, maplen, bytesz) && maplen < |p| && Packed(m, p, 8 * maplen)
    ensures Packed(m, p[maplen := mask], 8 * maplen + 7 - bytesz)
  {
    var q := p[maplen := mask];
    forall j: nat | j < 8 * maplen + 7 - bytesz ensures GetBit(q, j) <==> m[j] == BAD {
      if j < 8 * maplen {
        assert GetBit(p, j) <==> m[j] == BAD;
      } else {
        assert j / 8 == maplen && j == 8 * maplen + 7 - (7 - j % 8);
      }
    }
  }

  /** Packs the marks, the last partial byte included; unpacking gives them back. */
  method CompressMap(memmap: array<int>, mapp: array<unchar>)
    requires memmap.Length <= 8 * mapp.Length && Marks(memmap[..])
    modifies mapp
    ensures memmap[..] == old(memmap[..])
    ensures Unpacked(mapp[..], memmap.Length) == memmap[..]
  {
    ghost var m := memmap[..];
    ZeroBits();
    var i, bytesz, mask, maplen := 0, 7, 0, 0;
    while i < memmap.Length
      invariant 0 <= i <= memmap.Length && 0 <= bytesz <= 7 && 0 <= mask && 0 <= maplen
      invariant i == 8 * maplen + 7 - bytesz
      invariant memmap[..] == m && Packed(m, mapp[..], 8 * maplen)
      invariant Partial(m, mask, maplen, bytesz)
    {
      AddBit(m, mask, maplen, bytesz);
      mask := if memmap[i] == BAD then SetBit(mask, bytesz) else mask;
      bytesz := bytesz - 1;
      if bytesz < 0 {
        StoreByte(m, mapp[..], mask, maplen, bytesz);
        mapp[maplen] := mask;
        maplen := maplen + 1;
        bytesz := 7;
        mask := 0;
      }
      i := i + 1;
    }
    if bytesz != 7 {
      StoreByte(m, mapp[..], mask, maplen, bytesz);
      mapp[maplen] := mask;
    }
    assert Packed(m, mapp[..], |m|);
  }
}
