/** The hasher controller's constraints, row by row in terms of the kinds of rows. */
module ControllerLaws {
  import opened Goldilocks
  import opened ChipletSelectors
  import opened MerkleController

  // Kinds of rows
  // ----------------------------------------------------------------------------

  ghost predicate Bits(r: Row) { Bit(S0(r)) && Bit(S1(r)) && Bit(S2(r)) && Bit(Boundary(r)) }

  predicate IsOutput(r: Row) { S0(r) == 0 && S1(r) == 0 }
  predicate IsPadding(r: Row) { S0(r) == 0 && S1(r) == 1 }
  predicate IsSponge(r: Row) { S0(r) == 1 && S1(r) == 0 && S2(r) == 0 }
  predicate IsMerkle(r: Row) { S0(r) == 1 && (S1(r) == 1 || S2(r) == 1) }
  predicate IsUpdate(r: Row) { S0(r) == 1 && S1(r) == 1 && S2(r) == 0 }

  lemma Flags(r: Row)
    requires Bits(r)
    ensures OutputFlag(r) == AsBit(IsOutput(r)) && PaddingFlag(r) == AsBit(IsPadding(r)) && SpongeInputFlag(r) == AsBit(IsSponge(r))
    ensures MerkleInputFlag(r) == AsBit(IsMerkle(r)) && UpdateInputFlag(r) == AsBit(IsUpdate(r))
    ensures DigestFlag(r) == AsBit(IsOutput(r) && S2(r) == 0)
  {
  }

  // Laws
  // ----------------------------------------------------------------------------

  /** Selectors are bits, an input is followed by an output, and the controller does not end with an input. */
  ghost predicate KindLaw(m0: Row, m1: Row) {
    Bits(m0) && (S0(m0) == 1 ==> m1[0] == 0 && IsOutput(m1))
  }

  /** On a Merkle input the index loses its direction bit; a first one has the slack of a canonical index. An output that
      ends no operation hands its index on, and a digest is returned at index 0. */
  ghost predicate IndexLaw(m0: Row, m1: Row) {
    && (IsMerkle(m0) ==> Bit(Direction(m0)) && Zero(Index(m0) - (2 * Index(m1) + Direction(m0))))
    && (IsMerkle(m0) && Boundary(m0) == 1 ==> Zero(Index(m1) + Slack(m0) + Direction(m0) - HALF))
    && (IsOutput(m0) && Boundary(m0) == 0 && IsMerkle(m1) ==> Index(m1) == Index(m0))
    && (IsOutput(m0) && S2(m0) == 0 ==> Index(m0) == 0)
  }

  /** Such an output also hands its direction on, and its digest to the half which that names. */
  ghost predicate RoutingLaw(m0: Row, m1: Row) {
    IsOutput(m0) && Boundary(m0) == 0 && IsMerkle(m1) ==>
      Direction(m0) == Direction(m1) && forall j: nat | j < 4 :: HandedOn(m0, m1, j)
  }

  predicate HandedOn(m0: Row, m1: Row, j: nat)
    requires j < 4
  {
    Rate0(m0, j) == if Direction(m1) == 1 then Rate1(m1, j) else Rate0(m1, j)
  }

  predicate SameCell(m0: Row, m1: Row, k: nat)
    requires k < 22
  {
    m1[k] == m0[k]
  }

  predicate EmptyCell(m: Row, k: nat)
    requires k < 22
  {
    m[k] == 0
  }

  /** No two outputs in a row, nothing but padding after padding, one permutation for an input and its output, one more
      update where one starts, and the capacity of a sponge is carried over. The last output ends its operation. */
  ghost predicate SequenceLaw(m0: Row, m1: Row) {
    && (m1[0] == 1 && IsOutput(m0) ==> Boundary(m0) == 1)
    && (m1[0] == 0 ==>
          && !(IsOutput(m0) && IsOutput(m1)) && (IsPadding(m0) ==> IsPadding(m1)) && (S0(m0) == 1 ==> PermId(m1) == PermId(m0))
          && Zero(UpdateId(m1) - UpdateId(m0) - AsBit(IsUpdate(m1) && Boundary(m1) == 1))
          && (IsSponge(m1) && Boundary(m1) == 0 ==> forall k: nat | 12 <= k < 16 :: SameCell(m0, m1, k)))
  }

  ghost predicate EmptyLaw(m: Row) {
    && (IsPadding(m) ==> Boundary(m) == 0 && Direction(m) == 0 && PermId(m) == 0)
    && (IsSponge(m) ==> Index(m) == 0 && Direction(m) == 0)
    && (IsMerkle(m) && Boundary(m) == 0 ==> forall k: nat | 12 <= k < 16 :: EmptyCell(m, k))
    && (IsOutput(m) && (S2(m) == 0 || Boundary(m) == 1) ==> Direction(m) == 0)
  }

  // Each law is its constraints
  // ----------------------------------------------------------------------------

  lemma Gate(g: int, b: bool, x: int)
    requires g == AsBit(b) && -P < x < P
    ensures Zero(g * x) <==> (b ==> x == 0)
  {
    if b && Zero(x) {
      ZeroIsSmall(x);
    }
  }

  lemma GateAny(g: int, b: bool, x: int)
    requires g == AsBit(b)
    ensures Zero(g * x) <==> (b ==> Zero(x))
  {
  }

  lemma Both(x: int, y: int, a: bool, b: bool)
    requires x == AsBit(a) && y == AsBit(b)
    ensures x * y == AsBit(a && b)
  {
  }

  lemma IsBit(x: Felt)
    ensures Zero(x * (x - 1)) <==> Bit(x)
  {
    if Zero(x * (x - 1)) {
      ZeroIsBit(x);
    }
  }

  lemma BitsIff(m: Row)
    requires m[0] == 0
    ensures Bits(m) <==> Zero((1 - m[0]) * (S0(m) * (S0(m) - 1))) && Zero((1 - m[0]) * (S1(m) * (S1(m) - 1)))
                         && Zero((1 - m[0]) * (S2(m) * (S2(m) - 1))) && Zero((1 - m[0]) * (Boundary(m) * (Boundary(m) - 1)))
  {
    IsBit(S0(m));
    IsBit(S1(m));
    IsBit(S2(m));
    IsBit(Boundary(m));
  }

  lemma KindIff(m0: Row, m1: Row)
    requires m0[0] == 0 && Bit(m1[0]) && (m1[0] == 0 ==> Bits(m1))
    ensures KindConstraints(m0, m1, 1) <==> KindLaw(m0, m1)
  {
    BitsIff(m0);
    if Bits(m0) {
      if m1[0] == 1 {
        Gate(1, true, S0(m0));
      } else {
        Flags(m1);
        FollowedIff(S0(m0), (1 - S0(m1)) * (1 - S1(m1)), IsOutput(m1));
      }
    }
  }

  lemma FollowedIff(s: int, f: int, out: bool)
    requires Bit(s) && f == AsBit(out)
    ensures Zero(1 * (1 - 0) * (1 - 0) * (s * (f - 1))) <==> (s == 1 ==> out)
  {
    if s == 1 && !out && Zero(-1) {
      ZeroIsSmall(-1);
    }
  }

  lemma EmptyIff(m: Row)
    requires m[0] == 0 && Bits(m)
    ensures EmptyConstraints(m) <==> EmptyLaw(m)
  {
    Flags(m);
    Gate(PaddingFlag(m), IsPadding(m), Boundary(m));
    Gate(PaddingFlag(m), IsPadding(m), Direction(m));
    Gate(PaddingFlag(m), IsPadding(m), PermId(m));
    Gate(SpongeInputFlag(m), IsSponge(m), Index(m));
    Gate(SpongeInputFlag(m), IsSponge(m), Direction(m));
    Gate(DigestFlag(m), IsOutput(m) && S2(m) == 0, Direction(m));
    CapacityIff(m);
    LastDirection(OutputFlag(m), S2(m), Boundary(m), Direction(m), IsOutput(m));
  }

  lemma LastDirection(o: int, s: int, b: int, d: Felt, out: bool)
    requires o == AsBit(out) && Bit(s) && Bit(b)
    ensures Zero(1 * (o * s * (b * d))) <==> (out && s == 1 && b == 1 ==> d == 0)
  {
    Both(o, s, out, s == 1);
    if out && s == 1 && b == 1 && Zero(d) {
      ZeroIsSmall(d);
    }
  }

  lemma CapacityIff(m: Row)
    requires m[0] == 0 && Bits(m) && MerkleInputFlag(m) == AsBit(IsMerkle(m))
    ensures (forall k: nat | 12 <= k < 16 :: Zero((1 - m[0]) * MerkleInputFlag(m) * (1 - Boundary(m)) * m[k]))
       <==> (IsMerkle(m) && Boundary(m) == 0 ==> forall k: nat | 12 <= k < 16 :: EmptyCell(m, k))
  {
    var g := (1 - m[0]) * MerkleInputFlag(m) * (1 - Boundary(m));
    Both(MerkleInputFlag(m), 1 - Boundary(m), IsMerkle(m), Boundary(m) == 0);
    assert g == AsBit(IsMerkle(m) && Boundary(m) == 0);
    forall k: nat | 12 <= k < 16
      ensures Zero(g * m[k]) <==> (IsMerkle(m) && Boundary(m) == 0 ==> EmptyCell(m, k))
    {
      Gate(g, IsMerkle(m) && Boundary(m) == 0, m[k]);
    }
  }

  /** The row after the controller counts for nothing, and the last output has its boundary flag set. */
  ghost predicate Passed(m0: Row, m1: Row) {
    Bits(m0) && Bit(m1[0]) && (if m1[0] == 0 then Bits(m1) else IsOutput(m0) ==> Boundary(m0) == 1)
  }

  /** Value of the gate under which an output hands things on. */
  lemma HandsOn(m0: Row, m1: Row)
    requires m0[0] == 0 && Passed(m0, m1)
    ensures OutputFlag(m0) == AsBit(IsOutput(m0)) && MerkleInputFlag(m0) == AsBit(IsMerkle(m0)) && DigestFlag(m0) == AsBit(IsOutput(m0) && S2(m0) == 0)
    ensures var on := m1[0] == 0 && IsOutput(m0) && Boundary(m0) == 0 && IsMerkle(m1);
            && (1 - m0[0]) * OutputFlag(m0) * (1 - Boundary(m0)) * MerkleInputFlag(m1) == AsBit(on)
            && OutputFlag(m0) * (1 - Boundary(m0)) * MerkleInputFlag(m1) == AsBit(on)
  {
    Flags(m0);
    Both(OutputFlag(m0), 1 - Boundary(m0), IsOutput(m0), Boundary(m0) == 0);
    if m1[0] == 0 {
      Flags(m1);
      Both(OutputFlag(m0) * (1 - Boundary(m0)), MerkleInputFlag(m1), IsOutput(m0) && Boundary(m0) == 0, IsMerkle(m1));
    }
  }

  lemma InputIff(m0: Row, m1: Row, g: int)
    requires g == AsBit(IsMerkle(m0)) && Bits(m0)
    ensures Zero(g * (Index(m0) - (Index(m1) + Index(m1) + Direction(m0)))) && Zero(g * (Direction(m0) * (Direction(m0) - 1)))
            && Zero(g * Boundary(m0) * (Index(m1) + Slack(m0) + Direction(m0) - HALF))
       <==> (IsMerkle(m0) ==> Bit(Direction(m0)) && Zero(Index(m0) - (2 * Index(m1) + Direction(m0))))
            && (IsMerkle(m0) && Boundary(m0) == 1 ==> Zero(Index(m1) + Slack(m0) + Direction(m0) - HALF))
  {
    GateAny(g, IsMerkle(m0), Index(m0) - (Index(m1) + Index(m1) + Direction(m0)));
    GateAny(g, IsMerkle(m0), Direction(m0) * (Direction(m0) - 1));
    IsBit(Direction(m0));
    Both(g, Boundary(m0), IsMerkle(m0), Boundary(m0) == 1);
    GateAny(g * Boundary(m0), IsMerkle(m0) && Boundary(m0) == 1, Index(m1) + Slack(m0) + Direction(m0) - HALF);
  }

  lemma OutputIff(m0: Row, m1: Row)
    requires m0[0] == 0 && Passed(m0, m1)
    ensures Zero((1 - m0[0]) * (OutputFlag(m0) * ((1 - Boundary(m0)) * (MerkleInputFlag(m1) * (Index(m1) - Index(m0))))))
       <==> (m1[0] == 0 && IsOutput(m0) && Boundary(m0) == 0 && IsMerkle(m1) ==> Index(m1) == Index(m0))
    ensures Zero((1 - m0[0]) * (DigestFlag(m0) * Index(m0))) <==> (IsOutput(m0) && S2(m0) == 0 ==> Index(m0) == 0)
  {
    HandsOn(m0, m1);
    var on, x := m1[0] == 0 && IsOutput(m0) && Boundary(m0) == 0 && IsMerkle(m1), Index(m1) - Index(m0);
    Gate(OutputFlag(m0) * (1 - Boundary(m0)) * MerkleInputFlag(m1), on, x);
    Regroup(OutputFlag(m0), 1 - Boundary(m0), MerkleInputFlag(m1), x);
    Gate(DigestFlag(m0), IsOutput(m0) && S2(m0) == 0, Index(m0));
  }

  lemma Regroup(a: int, b: int, c: int, x: int)
    ensures a * (b * (c * x)) == a * b * c * x
  {
    assert a * (b * (c * x)) == a * (b * c * x) == a * (b * c) * x;
    assert a * (b * c) == a * b * c;
  }

  lemma IndexIff(m0: Row, m1: Row)
    requires m0[0] == 0 && Passed(m0, m1) && (m1[0] == 1 ==> !IsMerkle(m0))
    ensures IndexConstraints(m0, m1) <==> IndexLaw(m0, m1)
  {
    HandsOn(m0, m1);
    InputIff(m0, m1, (1 - m0[0]) * MerkleInputFlag(m0));
    OutputIff(m0, m1);
  }

  lemma RoutedIff(m0: Row, m1: Row, j: nat, g: int, on: bool)
    requires j < 4 && g == AsBit(on) && (on ==> Bit(Direction(m1)) && Direction(m0) == Direction(m1))
    ensures Zero(g * (Rate0(m0, j) - (Rate0(m1, j) + Direction(m0) * (Rate1(m1, j) - Rate0(m1, j))))) <==> (on ==> HandedOn(m0, m1, j))
  {
    if on {
      ChosenIff(Rate0(m0, j), Rate0(m1, j), Rate1(m1, j), Direction(m0));
    }
  }

  lemma ChosenIff(z: Felt, x: Felt, y: Felt, b: int)
    requires Bit(b)
    ensures Zero(z - (x + b * (y - x))) <==> z == if b == 1 then y else x
  {
    if Zero(z - (x + b * (y - x))) {
      ChosenHalf(z, x, y, b);
    }
  }

  lemma RoutingIff(m0: Row, m1: Row)
    requires m0[0] == 0 && Passed(m0, m1) && (m1[0] == 0 && IsMerkle(m1) ==> Bit(Direction(m1)))
    ensures RoutingConstraints(m0, m1) <==> (m1[0] == 0 ==> RoutingLaw(m0, m1))
  {
    HandsOn(m0, m1);
    var g := (1 - m0[0]) * OutputFlag(m0) * (1 - Boundary(m0)) * MerkleInputFlag(m1);
    var on := m1[0] == 0 && IsOutput(m0) && Boundary(m0) == 0 && IsMerkle(m1);
    Gate(g, on, Direction(m0) - Direction(m1));
    if on ==> Direction(m0) == Direction(m1) {
      forall j: nat | j < 4
        ensures Zero(g * (Rate0(m0, j) - (Rate0(m1, j) + Direction(m0) * (Rate1(m1, j) - Rate0(m1, j))))) <==> (on ==> HandedOn(m0, m1, j))
      {
        RoutedIff(m0, m1, j, g, on);
      }
    }
  }

  lemma CarriedIff(m0: Row, m1: Row)
    requires m0[0] == 0 && m1[0] == 0 && Bits(m1)
    ensures (forall k: nat | 12 <= k < 16 :: Zero(1 * (1 - m0[0]) * (1 - m1[0]) * SpongeInputFlag(m1) * (1 - Boundary(m1)) * (m1[k] - m0[k])))
       <==> (IsSponge(m1) && Boundary(m1) == 0 ==> forall k: nat | 12 <= k < 16 :: SameCell(m0, m1, k))
  {
    Flags(m1);
    var g := 1 * (1 - m0[0]) * (1 - m1[0]) * SpongeInputFlag(m1) * (1 - Boundary(m1));
    Both(SpongeInputFlag(m1), 1 - Boundary(m1), IsSponge(m1), Boundary(m1) == 0);
    assert g == AsBit(IsSponge(m1) && Boundary(m1) == 0);
    forall k: nat | 12 <= k < 16
      ensures Zero(g * (m1[k] - m0[k])) <==> (IsSponge(m1) && Boundary(m1) == 0 ==> SameCell(m0, m1, k))
    {
      Gate(g, IsSponge(m1) && Boundary(m1) == 0, m1[k] - m0[k]);
    }
  }

  lemma NeighboursIff(m0: Row, m1: Row)
    requires m0[0] == 0 && m1[0] == 0 && Bits(m0) && Bits(m1)
    ensures Zero(1 * (1 - m0[0]) * (1 - m1[0]) * (OutputFlag(m0) * OutputFlag(m1))) <==> !(IsOutput(m0) && IsOutput(m1))
    ensures Zero(1 * (1 - m0[0]) * (1 - m1[0]) * (PaddingFlag(m0) * (PaddingFlag(m1) - 1))) <==> (IsPadding(m0) ==> IsPadding(m1))
    ensures Zero(1 * (1 - m0[0]) * (1 - m1[0]) * (S0(m0) * (PermId(m1) - PermId(m0)))) <==> (S0(m0) == 1 ==> PermId(m1) == PermId(m0))
    ensures Zero(1 * (1 - m0[0]) * (1 - m1[0]) * (UpdateId(m1) - (UpdateId(m0) + UpdateInputFlag(m1) * Boundary(m1))))
       <==> Zero(UpdateId(m1) - UpdateId(m0) - AsBit(IsUpdate(m1) && Boundary(m1) == 1))
  {
    Flags(m0);
    Flags(m1);
    Gate(OutputFlag(m0), IsOutput(m0), OutputFlag(m1));
    Gate(PaddingFlag(m0), IsPadding(m0), PaddingFlag(m1) - 1);
    Gate(S0(m0), S0(m0) == 1, PermId(m1) - PermId(m0));
    Both(UpdateInputFlag(m1), Boundary(m1), IsUpdate(m1), Boundary(m1) == 1);
  }

  lemma SequenceIff(m0: Row, m1: Row)
    requires m0[0] == 0 && Bits(m0) && Bit(m1[0]) && (m1[0] == 0 ==> Bits(m1))
    ensures SequenceConstraints(m0, m1, 1) <==> SequenceLaw(m0, m1)
  {
    if m1[0] == 0 {
      NeighboursIff(m0, m1);
      CarriedIff(m0, m1);
    } else {
      Flags(m0);
      Gate(OutputFlag(m0), IsOutput(m0), Boundary(m0) - 1);
    }
  }

  // Traces
  // ----------------------------------------------------------------------------

  ghost predicate RowLaws(m0: Row, m1: Row) {
    && KindLaw(m0, m1) && IndexLaw(m0, m1) && (m1[0] == 0 ==> RoutingLaw(m0, m1)) && SequenceLaw(m0, m1) && EmptyLaw(m0)
  }

  ghost predicate LawfulAt(t: seq<Row>, i: nat)
    requires i < |t|
  {
    Address(t[i]) == i + 1 && (t[i][0] == 0 ==> i + 1 < |t| && RowLaws(t[i], t[i + 1]))
  }

  ghost predicate RowHolds(m0: Row, m1: Row, tr: int) {
    && KindConstraints(m0, m1, tr) && IndexConstraints(m0, m1) && RoutingConstraints(m0, m1)
    && SequenceConstraints(m0, m1, tr) && EmptyConstraints(m0)
  }

  lemma InactiveGates(m0: Row, m1: Row, tr: int)
    requires m0[0] == 1
    ensures tr * (1 - m0[0]) * (1 - m1[0]) == 0 && (1 - m0[0]) * m1[0] == 0
  {
  }

  lemma InactiveKind(m0: Row, m1: Row, tr: int)
    requires m0[0] == 1
    ensures KindConstraints(m0, m1, tr) && IndexConstraints(m0, m1)
  {
    InactiveGates(m0, m1, tr);
  }

  lemma InactiveSequence(m0: Row, m1: Row, tr: int)
    requires m0[0] == 1
    ensures SequenceConstraints(m0, m1, tr)
  {
    InactiveGates(m0, m1, tr);
  }

  lemma InactiveRouting(m0: Row, m1: Row)
    requires m0[0] == 1
    ensures RoutingConstraints(m0, m1)
  {
    assert (1 - m0[0]) * OutputFlag(m0) == 0;
    assert (1 - m0[0]) * OutputFlag(m0) * (1 - Boundary(m0)) == 0;
    assert (1 - m0[0]) * OutputFlag(m0) * (1 - Boundary(m0)) * MerkleInputFlag(m1) == 0;
  }

  lemma InactiveEmpty(m: Row)
    requires m[0] == 1
    ensures EmptyConstraints(m)
  {
    assert (1 - m[0]) * MerkleInputFlag(m) == 0;
    assert (1 - m[0]) * MerkleInputFlag(m) * (1 - Boundary(m)) == 0;
  }

  lemma Inactive(m0: Row, m1: Row, tr: int)
    requires m0[0] == 1
    ensures RowHolds(m0, m1, tr)
  {
    InactiveRouting(m0, m1);
    InactiveEmpty(m0);
    InactiveKind(m0, m1, tr);
    InactiveSequence(m0, m1, tr);
  }

  lemma RowIff(m0: Row, m1: Row)
    requires m0[0] == 0 && Bits(m0) && Bit(m1[0]) && (m1[0] == 0 ==> Bits(m1) && (IsMerkle(m1) ==> Bit(Direction(m1))))
    ensures RowHolds(m0, m1, 1) <==> RowLaws(m0, m1)
  {
    KindIff(m0, m1);
    SequenceIff(m0, m1);
    EmptyIff(m0);
    if KindLaw(m0, m1) && SequenceLaw(m0, m1) {
      IndexIff(m0, m1);
      RoutingIff(m0, m1);
    }
  }

  /** Selectors and direction of a controller row. */
  lemma RowBits(t: seq<Row>, i: nat)
    requires ControllerTrace(t) && i < |t| && t[i][0] == 0
    ensures Bits(t[i]) && (IsMerkle(t[i]) ==> Bit(Direction(t[i])))
  {
    assert ControllerAt(t, i);
    ControllerBits(t, i);
    Flags(t[i]);
    GateAny((1 - t[i][0]) * MerkleInputFlag(t[i]), IsMerkle(t[i]), Direction(t[i]) * (Direction(t[i]) - 1));
    IsBit(Direction(t[i]));
  }

  lemma NotLast(t: seq<Row>, i: nat)
    requires Selected(t) && i < |t|
    ensures Bit(t[i][0]) && (t[i][0] == 0 ==> i + 1 < |t|)
  {
    SelectedIffLaidOut(t);
    assert LaidOut(t, i);
  }

  lemma TraceIsLawful(t: seq<Row>, i: nat)
    requires ControllerTrace(t) && i < |t| < P
    ensures LawfulAt(t, i)
  {
    AddressIsIndex(t, i);
    NotLast(t, i);
    if t[i][0] == 0 {
      assert ControllerAt(t, i) && ShapeAt(t, i);
      NotLast(t, i + 1);
      RowBits(t, i);
      if t[i + 1][0] == 0 {
        RowBits(t, i + 1);
      }
      RowIff(t[i], t[i + 1]);
    }
  }

  lemma LawfulHolds(t: seq<Row>, i: nat)
    requires Selected(t) && i < |t| < P && LawfulAt(t, i) && (i + 1 < |t| ==> LawfulAt(t, i + 1))
    ensures ControllerAt(t, i) && ShapeAt(t, i)
  {
    NotLast(t, i);
    if t[i][0] == 0 {
      NotLast(t, i + 1);
      RowIff(t[i], t[i + 1]);
    } else {
      Inactive(t[i], Next(t, i), Tr(t, i));
    }
  }

  /** The controller's constraints accept exactly the traces whose rows obey the laws. */
  lemma ControllerIff(t: seq<Row>)
    requires Selected(t) && |t| < P
    ensures ControllerTrace(t) <==> forall i: nat | i < |t| :: LawfulAt(t, i)
  {
    if ControllerTrace(t) {
      forall i: nat | i < |t|
        ensures LawfulAt(t, i)
      {
        TraceIsLawful(t, i);
      }
    }
    if forall i: nat | i < |t| :: LawfulAt(t, i) {
      forall i | 0 <= i < |t|
        ensures ControllerAt(t, i) && ShapeAt(t, i)
      {
        assert LawfulAt(t, i) && (i + 1 < |t| ==> LawfulAt(t, i + 1));
        LawfulHolds(t, i);
      }
    }
  }
}
