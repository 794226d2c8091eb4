/** The prover memory model: checked 64-bit arithmetic, and a binary search for the largest
    trace height that fits a budget. */
module MemoryBudget {
  import opened Goldilocks
  import opened Wrappers

  const FELT_BYTES: nat := 8
  const EXT_DIMENSION: nat := 2
  const DIGEST_BYTES: nat := 32
  const LMCS_TREES_AT_PEAK: nat := 3
  const SAFETY_NUMERATOR: nat := 5
  const SAFETY_DENOMINATOR: nat := 4

  /** What the model reads off an AIR. */
  datatype Air = Air(width: nat, auxWidth: nat, logQuotientDegree: nat)

  function Checked(x: nat): Option<nat> {
    if x <= MAX_U64 then Some(x) else None
  }

  function CheckedShl(k: nat): Option<nat> {
    if k < 64 then Some(Pow2(k)) else None
  }

  // The formula over unbounded integers
  // ----------------------------------------------------------------------------

  function Max(a: nat, b: nat): nat { if a < b then b else a }

  function Columns(a: Air): nat { a.width + a.auxWidth * EXT_DIMENSION }

  function RowBytes(a: Air, blowup: nat): nat { FELT_BYTES * (blowup + 1) * Columns(a) }

  function TraceBytes(airs: seq<Air>, heights: seq<nat>, blowup: nat): nat
    requires |airs| == |heights|
  {
    if airs == [] then 0
    else
      var n := |airs| - 1;
      TraceBytes(airs[..n], heights[..n], blowup) + heights[n] * RowBytes(airs[n], blowup)
  }

  function MaxHeight(heights: seq<nat>): nat {
    if heights == [] then 0 else Max(MaxHeight(heights[..|heights| - 1]), heights[|heights| - 1])
  }

  function MaxQuotientDegree(airs: seq<Air>): nat {
    if airs == [] then 0 else Max(MaxQuotientDegree(airs[..|airs| - 1]), Pow2(airs[|airs| - 1].logQuotientDegree))
  }

  function QuotientBytes(airs: seq<Air>, blowup: nat): nat { EXT_DIMENSION * FELT_BYTES * MaxQuotientDegree(airs) * blowup }

  function TreeBytes(blowup: nat): nat { LMCS_TREES_AT_PEAK * 2 * blowup * DIGEST_BYTES }

  function Modelled(airs: seq<Air>, heights: seq<nat>, blowup: nat): nat
    requires |airs| == |heights|
  {
    TraceBytes(airs, heights, blowup) + MaxHeight(heights) * (QuotientBytes(airs, blowup) + TreeBytes(blowup))
  }

  function CeilDiv(a: nat, b: nat): (q: nat)
    requires b > 0
    ensures q * b >= a && (q - 1) * b < a
  {
    var q := a / b;
    assert a == b * q + a % b;
    if a % b == 0 then q else q + 1
  }

  // When the parameters alone stay within 64 bits
  // ----------------------------------------------------------------------------

  predicate AirFits(a: Air, blowup: nat) {
    && a.logQuotientDegree < 64 && a.auxWidth * EXT_DIMENSION <= MAX_U64 && Columns(a) <= MAX_U64
    && FELT_BYTES * (blowup + 1) <= MAX_U64 && RowBytes(a, blowup) <= MAX_U64
  }

  predicate SharedFits(airs: seq<Air>, blowup: nat) {
    && EXT_DIMENSION * FELT_BYTES * MaxQuotientDegree(airs) <= MAX_U64 && QuotientBytes(airs, blowup) <= MAX_U64
    && LMCS_TREES_AT_PEAK * 2 * blowup <= MAX_U64 && TreeBytes(blowup) <= MAX_U64
    && QuotientBytes(airs, blowup) + TreeBytes(blowup) <= MAX_U64
  }

  predicate ParamsFit(airs: seq<Air>, logBlowup: nat) {
    && logBlowup < 64 && Pow2(logBlowup) + 1 <= MAX_U64
    && (forall i: nat | i < |airs| :: AirFits(airs[i], Pow2(logBlowup)))
    && SharedFits(airs, Pow2(logBlowup))
  }

  /** Peak bytes: the formula with the safety margin, unless something overflows 64 bits. */
  function Peak(airs: seq<Air>, heights: seq<nat>, logBlowup: nat): Option<nat>
    requires |airs| == |heights|
  {
    var modelled := Modelled(airs, heights, Pow2(logBlowup));
    if ParamsFit(airs, logBlowup) && SAFETY_NUMERATOR * modelled <= MAX_U64
    then Some(CeilDiv(SAFETY_NUMERATOR * modelled, SAFETY_DENOMINATOR))
    else None
  }

  predicate AllFit(heights: seq<nat>) {
    forall i: nat | i < |heights| :: heights[i] <= MAX_U64
  }

  // The model as computed
  // ----------------------------------------------------------------------------

  /** Row cost of one AIR, with every intermediate checked. */
  method CheckedRowBytes(a: Air, blowup: nat) returns (r: Option<(nat, nat)>)
    requires blowup + 1 <= MAX_U64
    ensures r == if AirFits(a, blowup) then Some((RowBytes(a, blowup), Pow2(a.logQuotientDegree))) else None
  {
    var degree := CheckedShl(a.logQuotientDegree);
    if degree.None? { return None; }
    var auxColumns := Checked(a.auxWidth * EXT_DIMENSION);
    if auxColumns.None? { return None; }
    var columns := Checked(a.width + auxColumns.value);
    if columns.None? { return None; }
    var perColumn := Checked(FELT_BYTES * (blowup + 1));
    if perColumn.None? { return None; }
    var row := Checked(perColumn.value * columns.value);
    if row.None? { return None; }
    return Some((row.value, degree.value));
  }

  /** Cost shared by all AIRs, per row of the tallest one. */
  method CheckedSharedBytes(maxDegree: nat, blowup: nat, ghost airs: seq<Air>) returns (r: Option<nat>)
    requires maxDegree == MaxQuotientDegree(airs)
    ensures r == if SharedFits(airs, blowup) then Some(QuotientBytes(airs, blowup) + TreeBytes(blowup)) else None
  {
    var perDegree := Checked(EXT_DIMENSION * FELT_BYTES * maxDegree);
    if perDegree.None? { return None; }
    var quotient := Checked(perDegree.value * blowup);
    if quotient.None? { return None; }
    var leaves := Checked(LMCS_TREES_AT_PEAK * 2 * blowup);
    if leaves.None? { return None; }
    var tree := Checked(leaves.value * DIGEST_BYTES);
    if tree.None? { return None; }
    return Checked(quotient.value + tree.value);
  }

  lemma {:induction false} TraceBytesGrows(airs: seq<Air>, heights: seq<nat>, blowup: nat, k: nat)
    requires |airs| == |heights| && k <= |airs|
    ensures TraceBytes(airs[..k], heights[..k], blowup) <= TraceBytes(airs, heights, blowup)
    decreases |airs|
  {
    var n := |airs|;
    if k == n {
      assert airs[..k] == airs && heights[..k] == heights;
    } else {
      assert airs[..n - 1][..k] == airs[..k] && heights[..n - 1][..k] == heights[..k];
      TraceBytesGrows(airs[..n - 1], heights[..n - 1], blowup, k);
    }
  }

  lemma TraceBytesSnoc(airs: seq<Air>, heights: seq<nat>, blowup: nat, i: nat)
    requires |airs| == |heights| && i < |airs|
    ensures TraceBytes(airs[..i + 1], heights[..i + 1], blowup)
         == TraceBytes(airs[..i], heights[..i], blowup) + heights[i] * RowBytes(airs[i], blowup)
    ensures MaxHeight(heights[..i + 1]) == Max(MaxHeight(heights[..i]), heights[i])
    ensures MaxQuotientDegree(airs[..i + 1]) == Max(MaxQuotientDegree(airs[..i]), Pow2(airs[i].logQuotientDegree))
  {
    assert airs[..i + 1][..i] == airs[..i] && heights[..i + 1][..i] == heights[..i];
  }

  method AddTrace(total: nat, height: nat, rowBytes: nat) returns (r: Option<nat>)
    ensures r == Checked(total + height * rowBytes)
  {
    var perAir := Checked(height * rowBytes);
    if perAir.None? { return None; }
    return Checked(total + perAir.value);
  }

  function Margin(total: nat, maxHeight: nat, sharedRow: nat): Option<nat> {
    var scaled := SAFETY_NUMERATOR * (total + maxHeight * sharedRow);
    if scaled <= MAX_U64 then Some(CeilDiv(scaled, SAFETY_DENOMINATOR)) else None
  }

  method WithMargin(total: nat, maxHeight: nat, sharedRow: nat) returns (r: Option<nat>)
    ensures r == Margin(total, maxHeight, sharedRow)
  {
    var modelled := AddTrace(total, maxHeight, sharedRow);
    if modelled.None? { return None; }
    var scaled := Checked(modelled.value * SAFETY_NUMERATOR);
    if scaled.None? { return None; }
    return Some(CeilDiv(scaled.value, SAFETY_DENOMINATOR));
  }

  /** The loop over AIRs: trace bytes, tallest trace and largest quotient degree. */
  method SumTraces(airs: seq<Air>, heights: seq<nat>, blowup: nat) returns (r: Option<(nat, nat, nat)>)
    requires |airs| == |heights| && AllFit(heights) && blowup + 1 <= MAX_U64
    ensures r == if (forall i: nat | i < |airs| :: AirFits(airs[i], blowup)) && TraceBytes(airs, heights, blowup) <= MAX_U64
                 then Some((TraceBytes(airs, heights, blowup), MaxHeight(heights), MaxQuotientDegree(airs)))
                 else None
  {
    var total, maxHeight, maxDegree := 0, 0, 0;
    for i := 0 to |airs|
      invariant total == TraceBytes(airs[..i], heights[..i], blowup)
      invariant maxHeight == MaxHeight(heights[..i]) && maxDegree == MaxQuotientDegree(airs[..i])
      invariant forall j: nat | j < i :: AirFits(airs[j], blowup)
      invariant total <= MAX_U64
    {
      var cost := CheckedRowBytes(airs[i], blowup);
      if cost.None? { return None; }
      TraceBytesSnoc(airs, heights, blowup, i);
      TraceBytesGrows(airs, heights, blowup, i + 1);
      var sum := AddTrace(total, heights[i], cost.value.0);
      if sum.None? { return None; }
      total, maxHeight, maxDegree := sum.value, Max(maxHeight, heights[i]), Max(maxDegree, cost.value.1);
    }
    assert airs[..|airs|] == airs && heights[..|airs|] == heights;
    return Some((total, maxHeight, maxDegree));
  }

  method ProverPeakBytes(airs: seq<Air>, heights: seq<nat>, logBlowup: nat) returns (r: Option<nat>)
    requires |airs| == |heights| && AllFit(heights)
    ensures r == Peak(airs, heights, logBlowup)
  {
    var shift := CheckedShl(logBlowup);
    if shift.None? { return None; }
    var blowup := shift.value;
    if blowup + 1 > MAX_U64 { return None; }
    var traces := SumTraces(airs, heights, blowup);
    PeakParts(airs, heights, logBlowup, TraceBytes(airs, heights, blowup), MaxHeight(heights),
              QuotientBytes(airs, blowup) + TreeBytes(blowup));
    if traces.None? { return None; }
    var (total, maxHeight, maxDegree) := traces.value;
    var sharedRow := CheckedSharedBytes(maxDegree, blowup, airs);
    if sharedRow.None? { return None; }
    r := WithMargin(total, maxHeight, sharedRow.value);
  }

  lemma PeakParts(airs: seq<Air>, heights: seq<nat>, logBlowup: nat, total: nat, maxHeight: nat, shared: nat)
    requires |airs| == |heights| && total == TraceBytes(airs, heights, Pow2(logBlowup)) && maxHeight == MaxHeight(heights)
    requires shared == QuotientBytes(airs, Pow2(logBlowup)) + TreeBytes(Pow2(logBlowup))
    ensures !ParamsFit(airs, logBlowup) || total > MAX_U64 ==> Peak(airs, heights, logBlowup) == None
    ensures ParamsFit(airs, logBlowup) ==> Peak(airs, heights, logBlowup) == Margin(total, maxHeight, shared)
  {
    ModelledIs(airs, heights, Pow2(logBlowup), total, maxHeight, shared);
  }

  lemma ModelledIs(airs: seq<Air>, heights: seq<nat>, blowup: nat, total: nat, maxHeight: nat, shared: nat)
    requires |airs| == |heights| && total == TraceBytes(airs, heights, blowup) && maxHeight == MaxHeight(heights)
    requires shared == QuotientBytes(airs, blowup) + TreeBytes(blowup)
    ensures Modelled(airs, heights, blowup) == total + maxHeight * shared >= total
  {
  }

  // Monotone in every height
  // ----------------------------------------------------------------------------

  ghost predicate Below(h: seq<nat>, h': seq<nat>) {
    |h| == |h'| && forall i: nat | i < |h| :: h[i] <= h'[i]
  }

  ghost predicate Fits(airs: seq<Air>, heights: seq<nat>, logBlowup: nat, budget: nat)
    requires |airs| == |heights|
  {
    Peak(airs, heights, logBlowup).Some? && Peak(airs, heights, logBlowup).value <= budget
  }

  lemma {:induction false} TraceBytesMonotone(airs: seq<Air>, h: seq<nat>, h': seq<nat>, blowup: nat)
    requires |airs| == |h| && Below(h, h')
    ensures TraceBytes(airs, h, blowup) <= TraceBytes(airs, h', blowup)
    decreases |airs|
  {
    if airs != [] {
      var n := |airs| - 1;
      TraceBytesMonotone(airs[..n], h[..n], h'[..n], blowup);
      TimesMonotone(h[n], h'[n], RowBytes(airs[n], blowup));
    }
  }

  lemma TimesMonotone(a: nat, b: nat, c: nat)
    requires a <= b
    ensures a * c <= b * c
  {
    assert b * c == a * c + (b - a) * c;
  }

  lemma {:induction false} MaxHeightMonotone(h: seq<nat>, h': seq<nat>)
    requires Below(h, h')
    ensures MaxHeight(h) <= MaxHeight(h')
    decreases |h|
  {
    if h != [] {
      var n := |h| - 1;
      MaxHeightMonotone(h[..n], h'[..n]);
    }
  }

  lemma CeilDivMonotone(a: nat, b: nat, c: nat)
    requires a <= b && c > 0
    ensures CeilDiv(a, c) <= CeilDiv(b, c)
  {
    var p, q := CeilDiv(a, c), CeilDiv(b, c);
    if p > q {
      TimesMonotone(q, p - 1, c);
    }
  }

  /** Raising heights never lowers the peak, with None as infinity. */
  lemma PeakMonotone(airs: seq<Air>, h: seq<nat>, h': seq<nat>, logBlowup: nat)
    requires |airs| == |h| && Below(h, h') && Peak(airs, h', logBlowup).Some?
    ensures Peak(airs, h, logBlowup).Some? && Peak(airs, h, logBlowup).value <= Peak(airs, h', logBlowup).value
  {
    var blowup := Pow2(logBlowup);
    TraceBytesMonotone(airs, h, h', blowup);
    MaxHeightMonotone(h, h');
    TimesMonotone(MaxHeight(h), MaxHeight(h'), QuotientBytes(airs, blowup) + TreeBytes(blowup));
    var m, m' := Modelled(airs, h, blowup), Modelled(airs, h', blowup);
    assert m <= m';
    CeilDivMonotone(SAFETY_NUMERATOR * m, SAFETY_NUMERATOR * m', SAFETY_DENOMINATOR);
  }

  // Closed form
  // ----------------------------------------------------------------------------

  function Total(s: seq<nat>): nat { if s == [] then 0 else Total(s[..|s| - 1]) + s[|s| - 1] }

  /** m bounds s and is attained; nothing bounds the empty sequence but zero. */
  ghost predicate IsMaximum(s: seq<nat>, m: nat) {
    (forall i: nat | i < |s| :: s[i] <= m) && if s == [] then m == 0 else m in s
  }

  /** Bytes of a trace: every column, an auxiliary one counting twice, is held once and B times over. */
  function Cost(a: Air, height: nat, B: nat): nat { height * 8 * (B + 1) * (a.width + 2 * a.auxWidth) }

  function Costs(airs: seq<Air>, heights: seq<nat>, B: nat): (s: seq<nat>)
    requires |airs| == |heights|
    ensures |s| == |airs|
  {
    seq(|airs|, i requires 0 <= i < |airs| => Cost(airs[i], heights[i], B))
  }

  function Degrees(airs: seq<Air>): (s: seq<nat>)
    ensures |s| == |airs|
  {
    seq(|airs|, i requires 0 <= i < |airs| => Pow2(airs[i].logQuotientDegree))
  }

  lemma {:induction false} TraceBytesTotal(airs: seq<Air>, heights: seq<nat>, B: nat)
    requires |airs| == |heights|
    ensures TraceBytes(airs, heights, B) == Total(Costs(airs, heights, B))
    decreases |airs|
  {
    if airs != [] {
      var n := |airs| - 1;
      TraceBytesTotal(airs[..n], heights[..n], B);
      assert Costs(airs, heights, B)[..n] == Costs(airs[..n], heights[..n], B);
      CostIs(heights[n], B + 1, airs[n].width + 2 * airs[n].auxWidth);
    }
  }

  lemma CostIs(h: nat, b: nat, c: nat)
    ensures h * 8 * b * c == h * (8 * b * c)
  {
  }

  lemma {:induction false} MaxHeightIs(s: seq<nat>)
    ensures IsMaximum(s, MaxHeight(s))
  {
    if s != [] {
      var n := |s| - 1;
      MaxHeightIs(s[..n]);
      assert s == s[..n] + [s[n]];
    }
  }

  lemma {:induction false} MaxDegreeIs(airs: seq<Air>)
    ensures IsMaximum(Degrees(airs), MaxQuotientDegree(airs))
    decreases |airs|
  {
    if airs != [] {
      var n := |airs| - 1;
      MaxDegreeIs(airs[..n]);
      assert Degrees(airs) == Degrees(airs[..n]) + [Pow2(airs[n].logQuotientDegree)];
    }
  }

  lemma OneMaximum(s: seq<nat>, m: nat, m': nat)
    requires IsMaximum(s, m) && IsMaximum(s, m')
    ensures m == m'
  {
  }

  /** The modelled bytes: traces, and per row of the tallest one the quotient and three digest trees. */
  function PlainBytes(airs: seq<Air>, heights: seq<nat>, B: nat, H: nat, D: nat): nat
    requires |airs| == |heights|
  {
    Total(Costs(airs, heights, B)) + H * B * (16 * D + 192)
  }

  lemma SharedIs(airs: seq<Air>, B: nat, D: nat)
    requires D == MaxQuotientDegree(airs)
    ensures QuotientBytes(airs, B) + TreeBytes(B) == B * (16 * D + 192)
  {
    assert 16 * D * B + 192 * B == B * (16 * D + 192);
  }

  lemma Regroup(x: nat, y: nat, z: nat)
    ensures x * (y * z) == x * y * z
  {
  }

  lemma ModelledIsPlain(airs: seq<Air>, heights: seq<nat>, B: nat, H: nat, D: nat)
    requires |airs| == |heights| && IsMaximum(heights, H) && IsMaximum(Degrees(airs), D)
    ensures Modelled(airs, heights, B) == PlainBytes(airs, heights, B, H, D)
    ensures MaxQuotientDegree(airs) == D
  {
    TraceBytesTotal(airs, heights, B);
    TallestIs(heights, H);
    LargestIs(airs, D);
    PlainFrom(airs, heights, B, H, D, TraceBytes(airs, heights, B));
  }

  lemma PlainFrom(airs: seq<Air>, heights: seq<nat>, B: nat, H: nat, D: nat, total: nat)
    requires |airs| == |heights| && total == TraceBytes(airs, heights, B) && H == MaxHeight(heights) && D == MaxQuotientDegree(airs)
    ensures Modelled(airs, heights, B) == total + H * B * (16 * D + 192)
  {
    SharedIs(airs, B, D);
    ModelledIs(airs, heights, B, total, H, B * (16 * D + 192));
    Regroup(H, B, 16 * D + 192);
  }

  lemma TallestIs(heights: seq<nat>, H: nat)
    requires IsMaximum(heights, H)
    ensures MaxHeight(heights) == H
  {
    MaxHeightIs(heights);
    OneMaximum(heights, H, MaxHeight(heights));
  }

  lemma LargestIs(airs: seq<Air>, D: nat)
    requires IsMaximum(Degrees(airs), D)
    ensures MaxQuotientDegree(airs) == D
  {
    MaxDegreeIs(airs);
    OneMaximum(Degrees(airs), D, MaxQuotientDegree(airs));
  }

  /** What must fit in 64 bits besides the result. */
  ghost predicate NumbersFit(airs: seq<Air>, logBlowup: nat, B: nat, D: nat) {
    && logBlowup < 64 && B + 1 < 0x1_0000_0000_0000_0000
    && (forall i: nat | i < |airs| ::
          airs[i].logQuotientDegree < 64 && 8 * (B + 1) * (airs[i].width + 2 * airs[i].auxWidth) < 0x1_0000_0000_0000_0000)
    && (airs != [] ==> 8 * (B + 1) < 0x1_0000_0000_0000_0000)
    && B * (16 * D + 192) < 0x1_0000_0000_0000_0000
  }

  lemma AirFitsIs(a: Air, B: nat)
    ensures AirFits(a, B) <==> a.logQuotientDegree < 64 && 8 * (B + 1) <= MAX_U64 && 8 * (B + 1) * (a.width + 2 * a.auxWidth) <= MAX_U64
  {
    var c := a.width + 2 * a.auxWidth;
    assert a.auxWidth * EXT_DIMENSION <= c == Columns(a);
    TimesMonotone(1, 8 * (B + 1), c);
  }

  lemma SharedFitsIs(airs: seq<Air>, B: nat, D: nat)
    requires D == MaxQuotientDegree(airs) && B >= 1
    ensures SharedFits(airs, B) <==> B * (16 * D + 192) <= MAX_U64
  {
    TimesMonotone(1, B, 16 * D);
    assert 2 * 8 * D * B == 16 * D * B && 3 * 2 * B * 32 == 192 * B && B * (16 * D + 192) == 16 * D * B + 192 * B;
  }

  lemma ParamsFitIs(airs: seq<Air>, logBlowup: nat, B: nat, D: nat)
    requires B == Pow2(logBlowup) && D == MaxQuotientDegree(airs)
    ensures ParamsFit(airs, logBlowup) <==> NumbersFit(airs, logBlowup, B, D)
  {
    SharedFitsIs(airs, B, D);
    forall i: nat | i < |airs|
      ensures AirFits(airs[i], B) <==> airs[i].logQuotientDegree < 64 && 8 * (B + 1) <= MAX_U64
                                       && 8 * (B + 1) * (airs[i].width + 2 * airs[i].auxWidth) <= MAX_U64
    {
      AirFitsIs(airs[i], B);
    }
    if ParamsFit(airs, logBlowup) && airs != [] {
      assert AirFits(airs[0], B);
    }
  }

  /** The peak with its numbers written out. For blowup B, tallest trace H and largest quotient degree D it
      is five quarters of the plain bytes, rounded up; it is None exactly on overflow. */
  lemma PeakClosedForm(airs: seq<Air>, heights: seq<nat>, logBlowup: nat, B: nat, H: nat, D: nat)
    requires |airs| == |heights| && B == Pow2(logBlowup) && IsMaximum(heights, H) && IsMaximum(Degrees(airs), D)
    ensures var bytes := PlainBytes(airs, heights, B, H, D);
            && (Peak(airs, heights, logBlowup).Some? <==> NumbersFit(airs, logBlowup, B, D) && 5 * bytes < 0x1_0000_0000_0000_0000)
            && (Peak(airs, heights, logBlowup).Some? ==>
                  var p := Peak(airs, heights, logBlowup).value; 4 * p - 4 < 5 * bytes <= 4 * p)
  {
    ModelledIsPlain(airs, heights, B, H, D);
    ParamsFitIs(airs, logBlowup, B, D);
  }

  /** The shapes of Core, Chiplets and the permutation AIR. */
  const MIDEN_AIRS: seq<Air> := [Air(51, 4, 3), Air(22, 3, 3), Air(16, 1, 3)]

  lemma MidenCosts(a: nat, b: nat, c: nat)
    ensures Total(Costs(MIDEN_AIRS, [a, b, c], 8)) == 4248 * a + 2016 * b + 1296 * c
  {
    var s := Costs(MIDEN_AIRS, [a, b, c], 8);
    assert s == [4248 * a, 2016 * b, 1296 * c];
    ThreeTotal(4248 * a, 2016 * b, 1296 * c);
  }

  lemma ThreeTotal(x: nat, y: nat, z: nat)
    ensures Total([x, y, z]) == x + y + z
  {
    assert [x, y, z][..2] == [x, y] && [x, y][..1] == [x] && [x][..0] == [];
    assert Total([x]) == x && Total([x, y]) == x + y;
  }

  lemma MidenParams()
    ensures Pow2(3) == 8 && IsMaximum(Degrees(MIDEN_AIRS), 8) && NumbersFit(MIDEN_AIRS, 3, 8, 8)
  {
    assert Pow2(3) == 8;
    assert Degrees(MIDEN_AIRS) == [8, 8, 8];
  }

  lemma MidenPeak(a: nat, b: nat, c: nat, H: nat, p: nat)
    requires IsMaximum([a, b, c], H) && a + b + c <= 0x1_0000
    requires 4 * p - 4 < 5 * (4248 * a + 2016 * b + 1296 * c + 2560 * H) <= 4 * p
    ensures Peak(MIDEN_AIRS, [a, b, c], 3) == Some(p)
  {
    MidenCosts(a, b, c);
    MidenParams();
    assert PlainBytes(MIDEN_AIRS, [a, b, c], 8, H, 8) == 4248 * a + 2016 * b + 1296 * c + 2560 * H;
    PeakClosedForm(MIDEN_AIRS, [a, b, c], 3, 8, H, 8);
  }

  /** Bytes of one row of each trace alone, and of all three. */
  lemma PinnedPeaks()
    ensures Peak(MIDEN_AIRS, [1, 0, 0], 3) == Some(8510) && Peak(MIDEN_AIRS, [0, 1, 0], 3) == Some(5720)
    ensures Peak(MIDEN_AIRS, [0, 0, 1], 3) == Some(4820) && Peak(MIDEN_AIRS, [1, 1, 1], 3) == Some(12650)
    ensures Peak(MIDEN_AIRS, [0, 0, 0], 3) == Some(0)
  {
    MidenPeak(1, 0, 0, 1, 8510);
    MidenPeak(0, 1, 0, 1, 5720);
    MidenPeak(0, 0, 1, 1, 4820);
    MidenPeak(1, 1, 1, 1, 12650);
    MidenPeak(0, 0, 0, 0, 0);
  }

  // Binary search
  // ----------------------------------------------------------------------------

  /** Heights that are zero except for AIR i. */
  function OneHot(count: nat, i: nat, n: nat): (h: seq<nat>)
    requires i < count
    ensures |h| == count
  {
    seq(count, k => if k == i then n else 0)
  }

  lemma OneHotMonotone(airs: seq<Air>, i: nat, n: nat, n': nat, logBlowup: nat, budget: nat)
    requires i < |airs| && n <= n' && Fits(airs, OneHot(|airs|, i, n'), logBlowup, budget)
    ensures Fits(airs, OneHot(|airs|, i, n), logBlowup, budget)
  {
    PeakMonotone(airs, OneHot(|airs|, i, n), OneHot(|airs|, i, n'), logBlowup);
  }

  method FitsBudget(airs: seq<Air>, i: nat, n: nat, logBlowup: nat, budget: nat) returns (b: bool)
    requires i < |airs| && n <= MAX_U64
    ensures b == Fits(airs, OneHot(|airs|, i, n), logBlowup, budget)
  {
    var peak := ProverPeakBytes(airs, OneHot(|airs|, i, n), logBlowup);
    b := peak.Some? && peak.value <= budget;
  }

  /** The search for one AIR: nothing above the result fits, and the result fits unless nothing does. */
  method MaxHeightForBudget(airs: seq<Air>, i: nat, logBlowup: nat, budget: nat) returns (lo: nat)
    requires i < |airs|
    ensures lo <= MAX_U64
    ensures forall n: nat | n <= MAX_U64 && Fits(airs, OneHot(|airs|, i, n), logBlowup, budget) :: n <= lo
    ensures Fits(airs, OneHot(|airs|, i, lo), logBlowup, budget)
         || (lo == 0 && forall n: nat :: !Fits(airs, OneHot(|airs|, i, n), logBlowup, budget))
  {
    lo := 0;
    var hi := MAX_U64;
    var fits := FitsBudget(airs, i, hi, logBlowup, budget);
    if fits {
      return hi;
    }
    while hi - lo > 1
      invariant lo < hi <= MAX_U64
      invariant !Fits(airs, OneHot(|airs|, i, hi), logBlowup, budget)
      invariant lo == 0 || Fits(airs, OneHot(|airs|, i, lo), logBlowup, budget)
    {
      var mid := lo + (hi - lo) / 2;
      fits := FitsBudget(airs, i, mid, logBlowup, budget);
      if fits {
        lo := mid;
      } else {
        hi := mid;
      }
    }
    forall n: nat | Fits(airs, OneHot(|airs|, i, n), logBlowup, budget)
      ensures n <= lo && Fits(airs, OneHot(|airs|, i, 0), logBlowup, budget)
    {
      if n >= hi {
        OneHotMonotone(airs, i, hi, n, logBlowup, budget);
      }
      OneHotMonotone(airs, i, 0, n, logBlowup, budget);
    }
  }

  /** The bound over all AIRs is permissive: no shape that fits the budget exceeds it in any height.
      It is also attained, unless no height of any single AIR fits. */
  method MaxAnyHeightForBudget(airs: seq<Air>, logBlowup: nat, budget: nat) returns (best: nat)
    ensures forall h: seq<nat>, i: nat | |h| == |airs| && AllFit(h) && Fits(airs, h, logBlowup, budget) && i < |h| :: h[i] <= best
    ensures best == 0 || exists i: nat | i < |airs| :: Fits(airs, OneHot(|airs|, i, best), logBlowup, budget)
  {
    best := 0;
    for i := 0 to |airs|
      invariant best == 0 || exists k: nat | k < i :: Fits(airs, OneHot(|airs|, k, best), logBlowup, budget)
      invariant forall k: nat, n: nat | k < i && n <= MAX_U64 && Fits(airs, OneHot(|airs|, k, n), logBlowup, budget) :: n <= best
    {
      var height := MaxHeightForBudget(airs, i, logBlowup, budget);
      best := Max(best, height);
    }
    forall h: seq<nat>, i: nat | |h| == |airs| && AllFit(h) && Fits(airs, h, logBlowup, budget) && i < |h|
      ensures h[i] <= best
    {
      PeakMonotone(airs, OneHot(|airs|, i, h[i]), h, logBlowup);
    }
  }
}
