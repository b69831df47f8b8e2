/**
 * Integer texture arithmetic: the number of mip levels of a 2D texture and
 * the row pitch of a buffer-to-texture copy, which must be a multiple of 256
 * bytes.
 */
module Texture {
  import opened Js
  import opened Bits

  /** The row alignment of a copy between a buffer and a texture. */
  const ROW_ALIGN: int := 256

  /** `floor(log2(m)) + 1`: the number of halvings down to one texel, plus the base level. */
  function MipLevels(m: int): (r: nat)
    requires m >= 1
    ensures r >= 1 && Pow2(r - 1) <= m < Pow2(r)
  {
    FloorLog2(m) + 1
  }

  /** Only one level count brackets `m` between consecutive powers of two. */
  lemma MipLevelsUnique(m: int, r: nat)
    requires 1 <= r && 1 <= m && Pow2(r - 1) <= m < Pow2(r)
    ensures MipLevels(m) == r
  {
    FloorLog2Unique(m, r - 1);
  }

  /** `Math.max(1, Math.floor(n))` of a finite dimension. */
  function ClampDim(x: real): (d: int)
    ensures d >= 1 && (x >= 1.0 ==> d == x.Floor) && (x < 1.0 ==> d == 1)
  {
    Max(1, x.Floor)
  }

  /** `Math.max(1, Math.floor(n))`: NaN stays NaN, `+Infinity` stays, `-Infinity` becomes 1. */
  function ClampDimNum(n: Num): Num
  {
    MaxNum(Finite(1.0), FloorNum(n))
  }

  /** `computeMipCount(w, h)`. */
  function ComputeMipCount(w: Num, h: Num): (r: Num)
    ensures w.NaN? || h.NaN? ==> r.NaN?
    ensures IsFinite(w) && IsFinite(h) ==>
              r == Finite(MipLevels(Max(ClampDim(w.v), ClampDim(h.v))) as real)
    ensures !w.NaN? && !h.NaN? && (w.PosInf? || h.PosInf?) ==> r.PosInf?
  {
    var m := MaxNum(ClampDimNum(w), ClampDimNum(h));
    match m
    case Finite(v) =>
      assert v == v.Floor as real && v >= 1.0;
      Finite(MipLevels(v.Floor) as real)
    case _ => m
  }

  /** The level count is at least 1, and a finite result `m` has `2^(m-1) <= M < 2^m` for the larger clamped side `M`. */
  lemma MipCountBounds(w: real, h: real)
    ensures var r := ComputeMipCount(Finite(w), Finite(h));
      var big := Max(ClampDim(w), ClampDim(h));
      r.Finite? && r.v >= 1.0 && r.v == r.v.Floor as real &&
      Pow2(r.v.Floor - 1) <= big < Pow2(r.v.Floor)
  {
    var r := ComputeMipCount(Finite(w), Finite(h));
    assert r.v.Floor == MipLevels(Max(ClampDim(w), ClampDim(h)));
  }

  /** Sides below 1 (including negative ones and `-Infinity`) count as 1. */
  lemma SmallSidesCountAsOne(w: Num, h: Num)
    requires w.NegInf? || (w.Finite? && w.v < 1.0)
    ensures ComputeMipCount(w, h) == ComputeMipCount(Finite(1.0), h)
  {
  }

  /** A single texel has one level, and sides below 1 count as 1. */
  lemma MipCountOfOne()
    ensures ComputeMipCount(Finite(1.0), Finite(1.0)) == Finite(1.0)
    ensures ComputeMipCount(Finite(0.5), Finite(-3.0)) == Finite(1.0)
  {
    MipLevelsUnique(1, 1);
  }

  /** `log2(320)` is about 8.32, so a 320 by 200 texture has 9 levels. */
  lemma MipCountOf320()
    ensures ComputeMipCount(Finite(320.0), Finite(200.0)) == Finite(9.0)
  {
    assert Pow2(8) == 256 && Pow2(9) == 512;
    MipLevelsUnique(320, 9);
  }

  /** An exact power of two, 1024, gives `log2(1024) + 1 = 11` levels. */
  lemma MipCountOf1024()
    ensures ComputeMipCount(Finite(1024.0), Finite(512.0)) == Finite(11.0)
  {
    assert Pow2(10) == 1024 && Pow2(11) == 2048;
    MipLevelsUnique(1024, 11);
  }

  /** `Math.ceil(raw / 256) * 256` for a non-negative integer `raw`. */
  function AlignUp(raw: int): (r: int)
    requires raw >= 0
    ensures r % ROW_ALIGN == 0 && raw <= r < raw + ROW_ALIGN
  {
    ((raw + 255) / 256) * 256
  }

  /** The rounded-up row is the only multiple of 256 in `[raw, raw + 256)`. */
  lemma AlignUpUnique(raw: int, r: int)
    requires raw >= 0 && r % ROW_ALIGN == 0 && raw <= r < raw + ROW_ALIGN
    ensures AlignUp(raw) == r
  {
    var a := AlignUp(raw);
    var qa, qr := a / 256, r / 256;
    assert a == 256 * qa && r == 256 * qr;
  }

  /** `Math.max(0, Math.floor(n))`: NaN and `+Infinity` stay, `-Infinity` becomes 0. */
  function NonNegFloor(n: Num): (r: Num)
    ensures r.NaN? <==> n.NaN?
    ensures r.PosInf? <==> n.PosInf?
    ensures n.Finite? ==> r == Finite(Max(0, n.v.Floor) as real)
    ensures n.NegInf? ==> r == Finite(0.0)
  {
    MaxNum(Finite(0.0), FloorNum(n))
  }

  /** The product of two numbers that are NaN, `+Infinity` or finite and non-negative. */
  function NonNegProduct(a: Num, b: Num): Num
  {
    if a.NaN? || b.NaN? then NaN
    else if a.Finite? && b.Finite? then Finite(a.v * b.v)
    else if a == Finite(0.0) || b == Finite(0.0) then NaN   // Infinity * 0
    else PosInf
  }

  /** The unaligned row, `max(0, floor(width)) * max(0, floor(bytesPerPixel))`, of two finite numbers. */
  function RawRow(width: real, bytesPerPixel: real): (n: int)
    ensures n >= 0
  {
    var a, b := Max(0, width.Floor), Max(0, bytesPerPixel.Floor);
    MulMonotone(0, a, b);
    a * b
  }

  /** `computeBytesPerRow(width, bytesPerPixel)` of the texture helpers. */
  function ComputeBytesPerRow(width: Num, bytesPerPixel: Num): (r: Num)
    ensures IsFinite(width) && IsFinite(bytesPerPixel) ==> r == Finite(AlignUp(RawRow(width.v, bytesPerPixel.v)) as real)
    ensures width.NaN? || bytesPerPixel.NaN? ==> r.NaN?
    ensures width.NegInf? && IsFinite(bytesPerPixel) ==> r == Finite(0.0)
  {
    if IsFinite(width) && IsFinite(bytesPerPixel) then Finite(AlignUp(RawRow(width.v, bytesPerPixel.v)) as real)
    else
      match NonNegProduct(NonNegFloor(width), NonNegFloor(bytesPerPixel))
      // a finite product of a non-finite side is one with `-Infinity` clamped to 0: `ceil(0 / 256) * 256`
      case Finite(_) => Finite(0.0)
      case raw => raw
  }

  /** The row is a multiple of 256 holding the raw row, with less than 256 bytes of padding. */
  lemma BytesPerRowBounds(width: real, bytesPerPixel: real)
    ensures var raw := Max(0, width.Floor) * Max(0, bytesPerPixel.Floor);
      var r := ComputeBytesPerRow(Finite(width), Finite(bytesPerPixel));
      r.Finite? && r.v == r.v.Floor as real &&
      r.v.Floor % ROW_ALIGN == 0 && raw <= r.v.Floor < raw + ROW_ALIGN
  {
    var raw := RawRow(width, bytesPerPixel);
    assert ComputeBytesPerRow(Finite(width), Finite(bytesPerPixel)).v.Floor == AlignUp(raw);
  }

  lemma BytesPerRowExamples()
    ensures ComputeBytesPerRow(Finite(256.0), Finite(4.0)) == Finite(1024.0)
    ensures ComputeBytesPerRow(Finite(257.0), Finite(4.0)) == Finite(1280.0)
    ensures ComputeBytesPerRow(Finite(0.0), Finite(4.0)) == Finite(0.0)
    ensures ComputeBytesPerRow(PosInf, Finite(0.0)) == NaN
  {
  }
}
