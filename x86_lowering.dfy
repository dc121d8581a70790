// The X86 lowering hooks whose bodies are given inline: the construction of
// unpack and scaled shuffle masks, and a few cost and legality decisions
// over value types.

module X86Lowering {
  import opened Wrappers

  /** Element kind of a value type. */
  datatype ScalarKind = IntegerKind | FloatKind | OtherKind

  /** An extended value type: a scalar of `bits` bits, or a vector of
      `numElts` such scalars. */
  datatype ValueType =
    | Scalar(kind: ScalarKind, bits: nat)
    | Vector(kind: ScalarKind, bits: nat, numElts: nat)
  {
    predicate IsVector() { Vector? }
    /** An integer scalar or a vector of integers. */
    predicate IsInteger() { kind == IntegerKind }
    /** A floating-point scalar or a vector of floating-point values. */
    predicate IsFloatingPoint() { kind == FloatKind }
  }

  // ---------------------------------------------------------------------
  // Integer arithmetic used by the mask formulas.

  /** The sign of a product with a positive factor. */
  lemma {:induction false} MulSign(d: int, t: int)
    requires d > 0
    ensures t >= 1 ==> d * t >= d
    ensures t <= -1 ==> d * t <= -d
    decreases if t < 0 then -t else t
  {
    if t > 1 {
      MulSign(d, t - 1);
    } else if t < -1 {
      MulSign(d, t + 1);
    }
  }

  /** Multiplying by a positive factor preserves the order. */
  lemma MulOrder(d: int, a: int, b: int)
    requires d > 0
    ensures a < b <==> d * a < d * b
    ensures a <= b <==> d * a <= d * b
  {
    MulSign(d, b - a);
    assert d * (b - a) == d * b - d * a;
  }

  /** Euclidean division is determined by any quotient and remainder pair. */
  lemma DivModUnique(x: int, d: int, q: int, r: int)
    requires d > 0 && 0 <= r < d && x == d * q + r
    ensures x / d == q && x % d == r
  {
    var q', r' := x / d, x % d;
    assert d * q' + r' == d * q + r;
    MulSign(d, q' - q);
    assert d * (q' - q) == d * q' - d * q;
  }

  /** A position below `n * d` lies in one of the first `n` groups of `d`. */
  lemma DivBound(k: int, d: int, n: int)
    requires 0 < d && 0 <= k < n * d
    ensures 0 <= k / d < n
  {
    assert d * (k / d) <= k;
    MulOrder(d, k / d, n);
  }

  // ---------------------------------------------------------------------
  // Scaled shuffle masks.

  /** The `scale` narrow slots that replace mask element `m`: a negative
      sentinel is repeated, an index becomes `scale` sequential indices. */
  function Group(scale: nat, m: int): (g: seq<int>)
    ensures |g| == scale
  {
    seq(scale, s requires 0 <= s < scale => if m < 0 then m else scale * m + s)
  }

  /** The mask narrowed by `scale`, group after group. */
  function ScaledMask(scale: nat, mask: seq<int>): seq<int>
  {
    if |mask| == 0 then []
    else ScaledMask(scale, mask[..|mask| - 1]) + Group(scale, mask[|mask| - 1])
  }

  lemma {:induction false} ScaledMaskLength(scale: nat, mask: seq<int>)
    ensures |ScaledMask(scale, mask)| == scale * |mask|
  {
    if |mask| > 0 {
      ScaledMaskLength(scale, mask[..|mask| - 1]);
    }
  }

  /** Replaces each mask index with `scale` sequential indices of the
      equivalent narrowed mask; sentinels are repeated. */
  method ScaleShuffleMask(scale: nat, mask: seq<int>) returns (scaledMask: seq<int>)
    requires 0 < scale
    ensures scaledMask == ScaledMask(scale, mask)
  {
    var numElts := |mask|;
    ScaledMaskLength(scale, mask);
    var a := new int[scale * numElts](_ => -1);
    var i := 0;
    while i != numElts
      invariant 0 <= i <= numElts
      invariant scale * i <= a.Length
      invariant a[..scale * i] == ScaledMask(scale, mask[..i])
    {
      var m := mask[i];
      var base := scale * i;
      MulOrder(scale, i + 1, numElts);
      assert scale * (i + 1) == base + scale;
      var s := 0;
      while s != scale
        invariant 0 <= s <= scale
        invariant base + scale <= a.Length
        invariant a[..base] == ScaledMask(scale, mask[..i])
        invariant forall t :: 0 <= t < s ==> a[base + t] == Group(scale, m)[t]
      {
        if m < 0 {
          a[base + s] := m;
        } else {
          a[base + s] := scale * m + s;
        }
        s := s + 1;
      }
      assert mask[..i + 1][..i] == mask[..i];
      assert a[..base + scale] == a[..base] + Group(scale, m);
      assert scale * (i + 1) == base + scale;
      i := i + 1;
    }
    assert mask[..numElts] == mask;
    scaledMask := a[..];
  }

  /** Slot `scale * i + s` of the scaled mask comes from element `i` of the
      mask. */
  lemma {:induction false} ScaledMaskAt(scale: nat, mask: seq<int>, i: nat, s: nat)
    requires 0 < scale && i < |mask| && s < scale
    ensures scale * i + s < |ScaledMask(scale, mask)|
    ensures ScaledMask(scale, mask)[scale * i + s] == Group(scale, mask[i])[s]
  {
    var n := |mask|;
    var prefix := mask[..n - 1];
    ScaledMaskLength(scale, mask);
    ScaledMaskLength(scale, prefix);
    MulOrder(scale, i + 1, n);
    if i < n - 1 {
      MulOrder(scale, i + 1, n - 1);
      ScaledMaskAt(scale, prefix, i, s);
    }
  }

  /** A sentinel is copied to every slot of its group; an index `m` gives
      `scale * m + s`, which narrows back to `m` with remainder `s`. */
  lemma ScaledEntry(scale: nat, mask: seq<int>, i: nat, s: nat)
    requires 0 < scale && i < |mask| && s < scale
    ensures scale * i + s < |ScaledMask(scale, mask)|
    ensures mask[i] < 0 ==> ScaledMask(scale, mask)[scale * i + s] == mask[i]
    ensures mask[i] >= 0 ==>
      var e := ScaledMask(scale, mask)[scale * i + s];
      e == scale * mask[i] + s && e / scale == mask[i] && e % scale == s
  {
    ScaledMaskAt(scale, mask, i, s);
    if mask[i] >= 0 {
      DivModUnique(scale * mask[i] + s, scale, mask[i], s);
    }
  }

  /** The widening that undoes the scaling: each group of `scale` slots
      becomes the sentinel it repeats, or the index its first slot narrows. */
  function WidenedMask(scale: nat, scaledMask: seq<int>): (r: seq<int>)
    requires 0 < scale && |scaledMask| % scale == 0
    ensures |r| == |scaledMask| / scale
  {
    seq(|scaledMask| / scale, i requires 0 <= i < |scaledMask| / scale =>
      WidenedEntry(scale, scaledMask, i))
  }

  function WidenedEntry(scale: nat, scaledMask: seq<int>, i: nat): int
    requires 0 < scale && |scaledMask| % scale == 0 && i < |scaledMask| / scale
  {
    GroupStartInRange(scale, |scaledMask|, i);
    var e := scaledMask[scale * i];
    if e < 0 then e else e / scale
  }

  lemma GroupStartInRange(scale: nat, n: nat, i: nat)
    requires 0 < scale && n % scale == 0 && i < n / scale
    ensures scale * i < n
  {
    assert n == scale * (n / scale);
    MulOrder(scale, i, n / scale);
  }

  /** Widening a scaled mask gives the original mask back. */
  lemma WidenScaledMask(scale: nat, mask: seq<int>)
    requires 0 < scale
    ensures |ScaledMask(scale, mask)| % scale == 0
    ensures WidenedMask(scale, ScaledMask(scale, mask)) == mask
  {
    var n := |mask|;
    ScaledMaskLength(scale, mask);
    DivModUnique(scale * n, scale, n, 0);
    var w := WidenedMask(scale, ScaledMask(scale, mask));
    forall i | 0 <= i < n
      ensures w[i] == mask[i]
    {
      ScaledEntry(scale, mask, i, 0);
    }
  }

  // ---------------------------------------------------------------------
  // Unpack shuffle masks.

  /** Number of elements of a 128-bit lane of `vt`. */
  function EltsInLane(vt: ValueType): nat
    requires vt.Vector? && 0 < vt.bits <= 128
  {
    128 / vt.bits
  }

  /** Entry `i` of the unpacklo/unpackhi mask of `vt`: the element of lane
      `i / L` taken from the low or high half of the lane, from the first
      operand at even positions and, for a binary unpack, from the second
      operand (indices from `numElts` on) at odd positions. */
  function UnpackEntry(vt: ValueType, i: nat, lo: bool, unary: bool): int
    requires vt.Vector? && 0 < vt.bits <= 128
  {
    LaneEntry(EltsInLane(vt), vt.numElts, i, lo, unary)
  }

  /** The unpack entry for lanes of `l` elements in a vector of `n`. */
  function LaneEntry(l: nat, n: nat, i: nat, lo: bool, unary: bool): int
    requires 0 < l
  {
    (i / l) * l + (i % l) / 2
      + (if !unary && i % 2 == 1 then n else 0)
      + (if lo then 0 else l / 2)
  }

  function UnpackMask(vt: ValueType, lo: bool, unary: bool): (r: seq<int>)
    requires vt.Vector? && 0 < vt.bits <= 128
    ensures |r| == vt.numElts
  {
    seq(vt.numElts, i requires 0 <= i < vt.numElts => UnpackEntry(vt, i, lo, unary))
  }

  /** Appends the unpacklo (`lo`) or unpackhi mask of `vt` to the empty
      `mask`; `unary` takes both halves of each pair from the first operand. */
  method CreateUnpackShuffleMask(vt: ValueType, mask: seq<int>, lo: bool, unary: bool)
    returns (result: seq<int>)
    requires mask == []
    requires vt.Vector? && 0 < vt.bits <= 128
    ensures result == UnpackMask(vt, lo, unary)
  {
    result := mask;
    var numElts := vt.numElts;
    var numEltsInLane := 128 / vt.bits;
    var i := 0;
    while i < numElts
      invariant 0 <= i <= numElts
      invariant |result| == i
      invariant forall k :: 0 <= k < i ==> result[k] == UnpackEntry(vt, k, lo, unary)
    {
      var laneStart := (i / numEltsInLane) * numEltsInLane;
      var pos := (i % numEltsInLane) / 2 + laneStart;
      assert numElts * (i % 2) == if i % 2 == 1 then numElts else 0;
      pos := pos + (if unary then 0 else numElts * (i % 2));
      pos := pos + (if lo then 0 else numEltsInLane / 2);
      result := result + [pos];
      i := i + 1;
    }
  }

  /** With whole 128-bit lanes, a unary mask stays in the first operand and
      a binary mask reads the first operand at even and the second operand
      at odd positions, each time within the lane of the position. */
  lemma UnpackEntryInLane(vt: ValueType, i: nat, lo: bool, unary: bool)
    requires vt.Vector? && 0 < vt.bits <= 128 && i < vt.numElts
    requires vt.numElts % EltsInLane(vt) == 0
    ensures var l := EltsInLane(vt);
      var fromSecond := !unary && i % 2 == 1;
      var e := UnpackEntry(vt, i, lo, unary) - (if fromSecond then vt.numElts else 0);
      (i / l) * l <= e < (i / l) * l + l && e < vt.numElts &&
      (fromSecond ==> UnpackEntry(vt, i, lo, unary) >= vt.numElts) &&
      (!fromSecond ==> UnpackEntry(vt, i, lo, unary) < vt.numElts) &&
      (l % 2 == 0 ==>
        (lo ==> e < (i / l) * l + l / 2) && (!lo ==> (i / l) * l + l / 2 <= e))
  {
    var l := EltsInLane(vt);
    LaneEntryInLane(l, vt.numElts, i, lo, unary);
    if l % 2 == 0 {
      LaneEntryHalf(l, vt.numElts, i, lo, unary);
    }
    assert UnpackEntry(vt, i, lo, unary) == LaneEntry(l, vt.numElts, i, lo, unary);
  }

  lemma LaneEntryInLane(l: nat, n: nat, i: nat, lo: bool, unary: bool)
    requires 0 < l && i < n && n % l == 0
    ensures var fromSecond := !unary && i % 2 == 1;
      var e := LaneEntry(l, n, i, lo, unary) - (if fromSecond then n else 0);
      (i / l) * l <= e < (i / l) * l + l && e < n &&
      (fromSecond ==> LaneEntry(l, n, i, lo, unary) >= n) &&
      (!fromSecond ==> LaneEntry(l, n, i, lo, unary) < n)
  {
    var q, r := i / l, i % l;
    assert l * q + r == i;
    assert r / 2 + (if lo then 0 else l / 2) < l;
    assert n == l * (n / l);
    MulOrder(l, q, n / l);
    MulOrder(l, q + 1, n / l);
  }

  /** In a lane with an even number of elements, unpacklo reads the low
      half of the lane and unpackhi the high half. */
  lemma LaneEntryHalf(l: nat, n: nat, i: nat, lo: bool, unary: bool)
    requires 0 < l && l % 2 == 0
    ensures var fromSecond := !unary && i % 2 == 1;
      var e := LaneEntry(l, n, i, lo, unary) - (if fromSecond then n else 0);
      (lo ==> e < (i / l) * l + l / 2) && (!lo ==> (i / l) * l + l / 2 <= e)
  {
    var r := i % l;
    var h := l / 2;
    assert l == 2 * h && r < 2 * h;
    assert r / 2 < h;
  }

  /** A binary unpack pairs each element of the first operand with the same
      element of the second operand: position 2j+1 reads `numElts` further
      than position 2j (a unary unpack reads the same element twice). */
  lemma UnpackPairs(vt: ValueType, j: nat, lo: bool, unary: bool)
    requires vt.Vector? && 0 < vt.bits <= 64 && 64 % vt.bits == 0
    ensures UnpackEntry(vt, 2 * j + 1, lo, unary) ==
      UnpackEntry(vt, 2 * j, lo, unary) + (if unary then 0 else vt.numElts)
  {
    LanesEven(vt.bits);
    LaneEntryPairs(EltsInLane(vt), vt.numElts, j, lo, unary);
  }

  /** Lanes of elements that divide 64 bits hold an even number of them. */
  lemma LanesEven(bits: nat)
    requires 0 < bits <= 64 && 64 % bits == 0
    ensures (128 / bits) % 2 == 0
  {
    var h := 64 / bits;
    assert 64 == bits * h;
    DivModUnique(128, bits, 2 * h, 0);
  }

  lemma LaneEntryPairs(l: nat, n: nat, j: nat, lo: bool, unary: bool)
    requires 0 < l && l % 2 == 0
    ensures LaneEntry(l, n, 2 * j + 1, lo, unary) ==
      LaneEntry(l, n, 2 * j, lo, unary) + (if unary then 0 else n)
  {
    var q, r := (2 * j) / l, (2 * j) % l;
    var h := l / 2;
    assert l == 2 * h;
    assert 2 * j == l * q + r;
    assert l * q == 2 * (h * q);
    var m := j - h * q;
    assert r == 2 * m && m < h;
    DivModUnique(2 * j + 1, l, q, r + 1);
    DivModUnique(r, 2, m, 0);
    DivModUnique(r + 1, 2, m, 1);
    DivModUnique(2 * j, 2, j, 0);
    DivModUnique(2 * j + 1, 2, j, 1);
  }

  // ---------------------------------------------------------------------
  // Type decisions.

  /** Stores are merged after legalization only for scalar memory types. */
  function MergeStoresAfterLegalization(memVT: ValueType): bool {
    !memVT.IsVector()
  }

  /** Splitting a merged store is preferred exactly for a pair made of one
      floating-point and one integer value. */
  function IsMultiStoresCheaperThanBitsMerge(lTy: ValueType, hTy: ValueType): (cheaper: bool)
    ensures cheaper <==> {lTy.kind, hTy.kind} == {IntegerKind, FloatKind}
  {
    if (lTy.IsFloatingPoint() && hTy.IsInteger()) || (lTy.IsInteger() && hTy.IsFloatingPoint()) then
      true
    else
      false
  }

  /** The decision does not depend on which value is the low one. */
  lemma MultiStoresSymmetric(lTy: ValueType, hTy: ValueType)
    ensures IsMultiStoresCheaperThanBitsMerge(lTy, hTy) == IsMultiStoresCheaperThanBitsMerge(hTy, lTy)
  {
  }

  /** Instructions a store of `numElem` constant elements takes when each
      element is stored on its own. */
  function ScalarStoresCost(numElem: nat): nat {
    numElem
  }

  /** Instructions the same store takes as one vector store: the load of
      the vector constant and the store itself. */
  const VectorConstantStoreCost: nat := 2

  /** A vector constant store pays off when it replaces more than two
      scalar stores: exactly when it takes fewer instructions than the
      scalar stores, whatever the memory type and address space. */
  function StoreOfVectorConstantIsCheap(memVT: ValueType, numElem: nat, addrSpace: nat): (cheap: bool)
    ensures cheap <==> VectorConstantStoreCost < ScalarStoresCost(numElem)
  {
    numElem > 2
  }

  /** The simple integer type of the given width, if there is one. */
  function IntegerVT(bits: nat): (vt: Option<ValueType>)
    ensures vt.Some? ==> vt.value == Scalar(IntegerKind, bits)
  {
    if bits in {1, 8, 16, 32, 64, 128} then Some(Scalar(IntegerKind, bits)) else None
  }

  /** The widths a sign-extending move supports. */
  predicate IsMovsWidth(vt: ValueType) {
    vt == Scalar(IntegerKind, 8) || vt == Scalar(IntegerKind, 16) ||
    vt == Scalar(IntegerKind, 32) || vt == Scalar(IntegerKind, 64)
  }

  /** Whether to turn a signed truncation check into a sign-extension and a
      comparison: never for vectors; otherwise exactly when both the checked
      type and the kept width are 8, 16, 32 or 64-bit integers. */
  function ShouldTransformSignedTruncationCheck(xVT: ValueType, keptBits: nat): (transform: bool)
    ensures xVT.IsVector() ==> !transform
    ensures transform <==>
      xVT.Scalar? && xVT.kind == IntegerKind && xVT.bits in {8, 16, 32, 64} &&
      keptBits in {8, 16, 32, 64}
  {
    if xVT.IsVector() then false
    else
      var keptBitsVT := IntegerVT(keptBits);
      IsMovsWidth(xVT) && keptBitsVT.Some? && IsMovsWidth(keptBitsVT.value)
  }
}
