/**
 * Render-layer masks: 32-bit unsigned values of which the channel engine uses single bits.
 *
 * A palette is the range of bits the engine may hand out, from `firstBit` for `colorCount` bits.
 * Mask `c` of the palette is `1u << (firstBit + c)`.
 */
module Masks {

  const UintLimit: int := 0x1_0000_0000

  /** `uint`. */
  type uint32 = x: int | 0 <= x < UintLimit

  const IntMax: int := 0x7FFF_FFFF

  function Pow2(n: nat): (r: nat)
    ensures r >= 1
  {
    if n == 0 then 1 else 2 * Pow2(n - 1)
  }

  lemma {:induction false} Pow2Increasing(a: nat, b: nat)
    requires a < b
    ensures Pow2(a) < Pow2(b)
  {
    if a + 1 < b {
      Pow2Increasing(a, b - 1);
    }
  }

  lemma {:induction false} Pow2Add(a: nat, b: nat)
    ensures Pow2(a + b) == Pow2(a) * Pow2(b)
  {
    if a > 0 {
      Pow2Add(a - 1, b);
      assert Pow2(a + b) == 2 * Pow2(a - 1 + b);
    }
  }

  /** 2^32 is the first power of two beyond a `uint`. */
  lemma Pow2Of32()
    ensures Pow2(32) == UintLimit
  {
    assert Pow2(8) == 256;
    Pow2Add(8, 8);
    Pow2Add(16, 16);
  }

  lemma Pow2Below32(n: nat)
    requires n < 32
    ensures Pow2(n) < UintLimit
  {
    Pow2Of32();
    Pow2Increasing(n, 32);
  }

  /** C#'s `1u << bit`: the shift count of a 32-bit shift is taken modulo 32 (its low five bits). */
  function ShiftOne(bit: int): (r: uint32)
    ensures r >= 1
    ensures 0 <= bit < 32 ==> r == Pow2(bit)
  {
    Pow2Below32(bit % 32);
    Pow2(bit % 32)
  }

  /** `(mask & (1u << bit)) != 0` for a bit position below 32. */
  predicate HasBit(mask: uint32, bit: nat) {
    (mask / Pow2(bit)) % 2 == 1
  }

  lemma {:induction false} NoBitOfZero(bit: nat)
    ensures !HasBit(0, bit)
  {
  }

  /** Bits `firstBit .. firstBit + colorCount - 1` may be handed out. */
  datatype Palette = Palette(firstBit: int, colorCount: int)

  /** Every palette bit exists in a `uint`: the range lies within bits 1 to 31. */
  predicate ValidPalette(p: Palette) {
    1 <= p.firstBit <= 31 && 1 <= p.colorCount <= 32 - p.firstBit
  }

  /** `Mathf.Clamp` on integers. */
  function Clamp(value: int, lo: int, hi: int): int {
    if value < lo then lo else if value > hi then hi else value
  }

  function MaxInt(a: int, b: int): int { if a >= b then a else b }

  function MinInt(a: int, b: int): int { if a <= b then a else b }

  /**
   * The palette the assignment service's constructor fixes: `firstBit` is clamped to 1..31 and
   * `colorCount` to at least 1 and at most the bits left above `firstBit` and the configured layer count.
   */
  function NewPalette(firstBit: int, colorCount: int, configuredLightLayers: int): (p: Palette)
    ensures ValidPalette(p)
    ensures p.firstBit == Clamp(firstBit, 1, 31)
    ensures p.colorCount <= MaxInt(1, configuredLightLayers)
    ensures 1 <= colorCount <= MinInt(32 - p.firstBit, MaxInt(1, configuredLightLayers)) ==> p.colorCount == colorCount
    ensures p.colorCount == Clamp(colorCount, 1, MinInt(32 - p.firstBit, MaxInt(1, configuredLightLayers)))
  {
    var first := Clamp(firstBit, 1, 31);
    var maxBits := MaxInt(1, (31 - first) + 1);
    var cap := Clamp(MaxInt(1, configuredLightLayers), 1, maxBits);
    Palette(first, Clamp(colorCount, 1, cap))
  }

  /** Mask number `c` of the palette. */
  function MaskOf(p: Palette, c: int): uint32 {
    ShiftOne(p.firstBit + c)
  }

  lemma MaskOfIsBit(p: Palette, c: int)
    requires ValidPalette(p) && 0 <= c < p.colorCount
    ensures MaskOf(p, c) == Pow2(p.firstBit + c)
  {
  }

  /** Different channels of a valid palette have different masks: no shift wraps around. */
  lemma MaskOfInjective(p: Palette, c1: int, c2: int)
    requires ValidPalette(p)
    requires 0 <= c1 < p.colorCount && 0 <= c2 < p.colorCount && c1 != c2
    ensures MaskOf(p, c1) != MaskOf(p, c2)
  {
    MaskOfIsBit(p, c1);
    MaskOfIsBit(p, c2);
    if c1 < c2 {
      Pow2Increasing(p.firstBit + c1, p.firstBit + c2);
    } else {
      Pow2Increasing(p.firstBit + c2, p.firstBit + c1);
    }
  }

  /** The palette's masks in scan order (`GetAllowedMasks`). */
  function AllowedMasks(p: Palette): (r: seq<uint32>)
    ensures |r| == MaxInt(0, p.colorCount)
    ensures forall c :: 0 <= c < |r| ==> r[c] == MaskOf(p, c)
  {
    seq(MaxInt(0, p.colorCount), c => MaskOf(p, c))
  }

  /** Some channel `c` with `c0 <= c < colorCount` has mask `m`. */
  ghost predicate IsMaskFrom(p: Palette, m: uint32, c0: int) {
    exists c :: c0 <= c < p.colorCount && m == MaskOf(p, c)
  }

  /** The scan of `IsAllowedMask` from channel `c` on. */
  function AllowedFrom(p: Palette, m: uint32, c: int): (r: bool)
    requires c >= 0
    decreases p.colorCount - c
    ensures r <==> IsMaskFrom(p, m, c)
  {
    if c >= p.colorCount then false
    else if m == MaskOf(p, c) then true
    else AllowedFrom(p, m, c + 1)
  }

  /** `IsAllowedMask`: `m` is one of the palette's masks, and 0 never is. */
  function IsAllowedMask(p: Palette, m: uint32): (r: bool)
    ensures r <==> m != 0 && IsMaskFrom(p, m, 0)
  {
    m != 0 && AllowedFrom(p, m, 0)
  }

  lemma AllowedMaskIndex(p: Palette, m: uint32)
    requires IsAllowedMask(p, m)
    ensures exists c :: 0 <= c < p.colorCount && m == MaskOf(p, c)
  {
  }

  /** Under a valid palette an allowed mask is a single bit `firstBit + c` with `c < colorCount` ... */
  lemma AllowedMaskIsPaletteBit(p: Palette, m: uint32) returns (b: nat)
    requires ValidPalette(p) && IsAllowedMask(p, m)
    ensures p.firstBit <= b < p.firstBit + p.colorCount && m == Pow2(b)
  {
    var c :| 0 <= c < p.colorCount && m == MaskOf(p, c);
    b := p.firstBit + c;
    MaskOfIsBit(p, c);
  }

  /** ... and every such bit is allowed. */
  lemma PaletteBitIsAllowed(p: Palette, b: nat)
    requires ValidPalette(p) && p.firstBit <= b < p.firstBit + p.colorCount
    ensures Pow2(b) < UintLimit && IsAllowedMask(p, Pow2(b))
  {
    var c := b - p.firstBit;
    MaskOfIsBit(p, c);
    assert IsMaskFrom(p, Pow2(b), 0);
  }

  /** The filter `IsAllowedMask` as a function value. */
  function AllowedFilter(p: Palette): uint32 -> bool {
    (m: uint32) => IsAllowedMask(p, m)
  }

  /** `prefer` may be kept: it is non-zero, allowed and not banned. */
  predicate Keepable(p: Palette, banned: set<uint32>, prefer: uint32) {
    prefer != 0 && prefer !in banned && IsAllowedMask(p, prefer)
  }

  /** All channels of the palette are banned. */
  ghost predicate AllBanned(p: Palette, banned: set<uint32>) {
    forall c :: 0 <= c < p.colorCount ==> MaskOf(p, c) in banned
  }

  /** The loop of `ChooseMask` from channel `c` on: the first mask that is not banned, or 0. */
  function FirstFree(p: Palette, banned: set<uint32>, c: int): (r: uint32)
    requires c >= 0
    decreases p.colorCount - c
    ensures r == 0 <==> forall k :: c <= k < p.colorCount ==> MaskOf(p, k) in banned
    ensures r != 0 ==> exists k :: c <= k < p.colorCount && r == MaskOf(p, k) && r !in banned &&
                                   forall j :: c <= j < k ==> MaskOf(p, j) in banned
  {
    if c >= p.colorCount then 0
    else if MaskOf(p, c) !in banned then MaskOf(p, c)
    else FirstFree(p, banned, c + 1)
  }

  /**
   * `ChooseMask(banned, prefer)`: a keepable `prefer` wins; otherwise the lowest channel that is not banned;
   * 0 when every channel is banned. The result is 0 or an allowed mask that is not banned.
   */
  function ChooseMask(p: Palette, banned: set<uint32>, prefer: uint32): (r: uint32)
    ensures Keepable(p, banned, prefer) ==> r == prefer
    ensures !Keepable(p, banned, prefer) ==> (r == 0 <==> AllBanned(p, banned))
    ensures !Keepable(p, banned, prefer) && r != 0 ==>
              exists k :: 0 <= k < p.colorCount && r == MaskOf(p, k) &&
                          forall j :: 0 <= j < k ==> MaskOf(p, j) in banned
    ensures r == 0 || (IsAllowedMask(p, r) && r !in banned)
  {
    if Keepable(p, banned, prefer) then prefer else FirstFree(p, banned, 0)
  }

  /** With nothing banned, `ChooseMask` always finds the palette's first mask. */
  lemma ChooseMaskNothingBanned(p: Palette)
    requires ValidPalette(p)
    ensures ChooseMask(p, {}, 0) == MaskOf(p, 0) != 0
  {
  }
}
