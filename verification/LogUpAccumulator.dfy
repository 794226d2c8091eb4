/** Construction of the auxiliary LogUp trace: a naive accumulator and a chunked one that
    inverts each chunk of denominators with a single inversion. */
module LogUpAccumulator {
  import opened AbstractField
  import opened Wrappers
  import Goldilocks

  /** Flat buffer of fractions (multiplicity, denominator) with the number of fractions of each
      (row, column), both in row-major order. */
  datatype Fractions<!E> = Fractions(fractions: seq<(E, E)>, counts: seq<nat>, numRows: nat, numCols: nat) {
    ghost predicate Valid() {
      |counts| == RowBase(numCols, numRows) && Prefix(counts, |counts|) == |fractions|
    }
  }

  // Specification
  // ----------------------------------------------------------------------------

  function Sum<E(!new)>(f: Field<E>, s: seq<E>): E {
    if s == [] then f.zero else f.add(Sum(f, s[..|s| - 1]), s[|s| - 1])
  }

  function Quots<E(!new)>(f: Field<E>, s: seq<(E, E)>): (q: seq<E>)
    ensures |q| == |s|
  {
    seq(|s|, i requires 0 <= i < |s| => f.Quot(s[i].0, s[i].1))
  }

  /** The denominators of fractions lo up to hi are all invertible. */
  ghost predicate NoZero<E(!new)>(f: Field<E>, s: seq<(E, E)>, lo: nat, hi: nat)
    requires hi <= |s|
  {
    forall i: nat | lo <= i < hi :: s[i].1 != f.zero
  }

  function Prefix(counts: seq<nat>, k: nat): nat
    requires k <= |counts|
  {
    if k == 0 then 0 else Prefix(counts, k - 1) + counts[k - 1]
  }

  lemma {:induction false} PrefixGrows(counts: seq<nat>, j: nat, k: nat)
    requires j <= k <= |counts|
    ensures Prefix(counts, j) <= Prefix(counts, k)
  {
    if j < k {
      PrefixGrows(counts, j, k - 1);
    }
  }

  /** Sum of the fractions of the (row, column) pair at flat index k. */
  function Entry<E(!new)>(f: Field<E>, fr: Fractions<E>, k: nat): E
    requires fr.Valid() && k < |fr.counts|
  {
    PrefixGrows(fr.counts, k + 1, |fr.counts|);
    Sum(f, Quots(f, fr.fractions)[Prefix(fr.counts, k)..Prefix(fr.counts, k + 1)])
  }

  /** Flat index of the first cell of row r, r * cols. */
  function RowBase(cols: nat, r: nat): nat {
    if r == 0 then 0 else RowBase(cols, r - 1) + cols
  }

  lemma {:induction false} RowBaseIsProduct(cols: nat, r: nat)
    ensures RowBase(cols, r) == r * cols
  {
    if r > 0 {
      RowBaseIsProduct(cols, r - 1);
    }
  }

  lemma {:induction false} RowBaseGrows(cols: nat, r: nat, r': nat)
    requires r <= r'
    ensures RowBase(cols, r) <= RowBase(cols, r')
  {
    if r < r' {
      RowBaseGrows(cols, r, r' - 1);
    }
  }

  lemma IndexInside(r: nat, c: nat, rows: nat, cols: nat)
    requires r < rows && c < cols
    ensures RowBase(cols, r) + c < RowBase(cols, rows)
    ensures (RowBase(cols, r) + c) % cols == c && (RowBase(cols, r) + c) / cols == r
  {
    RowBaseGrows(cols, r + 1, rows);
    RowBaseIsProduct(cols, r);
    Goldilocks.ModUnique(RowBase(cols, r) + c, cols, r, c);
  }

  lemma RowInside(r: nat, rows: nat, cols: nat)
    requires r < rows
    ensures RowBase(cols, r) + cols == RowBase(cols, r + 1) <= RowBase(cols, rows)
  {
    RowBaseGrows(cols, r + 1, rows);
  }

  /** Values of the row whose first cell is at flat index base. */
  function RowValues<E(!new)>(f: Field<E>, fr: Fractions<E>, base: nat): (v: seq<E>)
    requires fr.Valid() && base + fr.numCols <= |fr.counts|
    ensures |v| == fr.numCols
  {
    seq(fr.numCols, c requires 0 <= c < fr.numCols => Entry(f, fr, base + c))
  }

  function RowTotal<E(!new)>(f: Field<E>, fr: Fractions<E>, r: nat): E
    requires fr.Valid() && r < fr.numRows
  {
    RowInside(r, fr.numRows, fr.numCols);
    Sum(f, RowValues(f, fr, RowBase(fr.numCols, r)))
  }

  /** Total lookup contribution of each row. */
  function Totals<E(!new)>(f: Field<E>, fr: Fractions<E>): (t: seq<E>)
    requires fr.Valid()
    ensures |t| == fr.numRows
  {
    seq(fr.numRows, r requires 0 <= r < fr.numRows => RowTotal(f, fr, r))
  }

  function SigmaPrime<E(!new)>(f: Field<E>, t: seq<E>): E {
    f.mul(Sum(f, t), f.inv(f.Nat(|t|)))
  }

  /** Centered running sum before row r. */
  function Acc<E(!new)>(f: Field<E>, t: seq<E>, sigma': E, r: nat): E
    requires r <= |t|
  {
    if r == 0 then f.zero else f.add(Acc(f, t, sigma', r - 1), f.Sub(t[r - 1], sigma'))
  }

  /** Auxiliary trace cell at flat index k. */
  function Cell<E(!new)>(f: Field<E>, fr: Fractions<E>, k: nat): E
    requires fr.Valid() && k < |fr.counts| && fr.numCols > 0
  {
    RowOf(k, fr.numRows, fr.numCols);
    if k % fr.numCols == 0 then Acc(f, Totals(f, fr), SigmaPrime(f, Totals(f, fr)), k / fr.numCols)
    else Entry(f, fr, k)
  }

  lemma RowOf(k: nat, rows: nat, cols: nat)
    requires cols > 0 && k < RowBase(cols, rows)
    ensures 0 <= k / cols < rows
  {
    RowBaseIsProduct(cols, rows);
    DivideBound(k, rows, cols, k / cols, k % cols);
  }

  lemma DivideBound(k: nat, rows: nat, cols: nat, q: int, m: int)
    requires k == q * cols + m && 0 <= m < cols && k < rows * cols
    ensures 0 <= q < rows
  {
    assert (q + 1) * cols > 0 && (rows - q) * cols > 0;
  }

  /** When the accumulators do not panic. */
  ghost predicate Accumulable<E(!new)>(f: Field<E>, fr: Fractions<E>) {
    fr.numRows > 0 && fr.numCols > 0 && NoZero(f, fr.fractions, 0, |fr.fractions|) && f.Nat(fr.numRows) != f.zero
  }

  // The naive accumulator
  // ----------------------------------------------------------------------------

  /** Cell of row r and column c. */
  function CellAt<E(!new)>(f: Field<E>, fr: Fractions<E>, r: nat, c: nat): E
    requires fr.Valid() && r < fr.numRows && c < fr.numCols
  {
    IndexInside(r, c, fr.numRows, fr.numCols);
    Cell(f, fr, RowBase(fr.numCols, r) + c)
  }

  lemma CellAtIs<E(!new)>(f: Field<E>, fr: Fractions<E>, r: nat, c: nat, k: nat)
    requires fr.Valid() && r < fr.numRows && c < fr.numCols && k == RowBase(fr.numCols, r) + c
    ensures k < |fr.counts| && CellAt(f, fr, r, c) == Cell(f, fr, k)
    ensures CellAt(f, fr, r, c) == if c == 0 then Acc(f, Totals(f, fr), SigmaPrime(f, Totals(f, fr)), r) else Entry(f, fr, k)
  {
    IndexInside(r, c, fr.numRows, fr.numCols);
  }

  function Column<E(!new)>(f: Field<E>, fr: Fractions<E>, c: nat): (s: seq<E>)
    requires fr.Valid() && c < fr.numCols
    ensures |s| == fr.numRows
  {
    seq(fr.numRows, r requires 0 <= r < fr.numRows => CellAt(f, fr, r, c))
  }

  function Columns<E(!new)>(f: Field<E>, fr: Fractions<E>): (s: seq<seq<E>>)
    requires fr.Valid()
    ensures |s| == fr.numCols
  {
    seq(fr.numCols, c requires 0 <= c < fr.numCols => Column(f, fr, c))
  }

  lemma SumSnoc<E(!new)>(f: Field<E>, s: seq<E>, x: E)
    ensures Sum(f, s + [x]) == f.add(Sum(f, s), x)
  {
    assert (s + [x])[..|s|] == s;
  }

  /** Sum of m/d over fractions lo up to hi, each inverted on its own; None on a zero denominator. */
  method SumFractions<E(==, !new)>(f: Field<E>, s: seq<(E, E)>, lo: nat, hi: nat) returns (r: Option<E>)
    requires lo <= hi <= |s|
    ensures r.Some? <==> NoZero(f, s, lo, hi)
    ensures r.Some? ==> r.value == Sum(f, Quots(f, s)[lo..hi])
  {
    var sum := f.zero;
    for i := lo to hi
      invariant NoZero(f, s, lo, i)
      invariant sum == Sum(f, Quots(f, s)[lo..i])
    {
      if s[i].1 == f.zero {
        return None;
      }
      sum := f.add(sum, f.mul(f.inv(s[i].1), s[i].0));
      SumSnoc(f, Quots(f, s)[lo..i], Quots(f, s)[i]);
      assert Quots(f, s)[lo..i + 1] == Quots(f, s)[lo..i] + [Quots(f, s)[i]];
    }
    return Some(sum);
  }

  method SumAll<E(!new)>(f: Field<E>, s: seq<E>) returns (sum: E)
    ensures sum == Sum(f, s)
  {
    sum := f.zero;
    for i := 0 to |s|
      invariant sum == Sum(f, s[..i])
    {
      sum := f.add(sum, s[i]);
      SumSnoc(f, s[..i], s[i]);
      assert s[..i + 1] == s[..i] + [s[i]];
    }
    assert s[..|s|] == s;
  }

  /** Fills column zero from the row totals. */
  method Center<E(==, !new)>(f: Field<E>, t: seq<E>) returns (r: Option<(seq<E>, E)>)
    ensures r.Some? <==> f.Nat(|t|) != f.zero
    ensures r.Some? ==> r.value.1 == SigmaPrime(f, t) && |r.value.0| == |t|
    ensures r.Some? ==> forall i: nat | i < |t| :: r.value.0[i] == Acc(f, t, SigmaPrime(f, t), i)
  {
    var sigma := SumAll(f, t);
    if f.Nat(|t|) == f.zero {
      return None;
    }
    var sigma' := f.mul(sigma, f.inv(f.Nat(|t|)));
    var acc, column := f.zero, [];
    for i := 0 to |t|
      invariant |column| == i && acc == Acc(f, t, sigma', i)
      invariant forall j: nat | j < i :: column[j] == Acc(f, t, sigma', j)
    {
      column := column + [acc];
      acc := f.add(acc, f.Sub(t[i], sigma'));
    }
    return Some((column, sigma'));
  }

  /** Values of the row at flat index base, whose fractions start at start. */
  method SlowRow<E(==, !new)>(f: Field<E>, fr: Fractions<E>, base: nat, start: nat, ghost end: nat)
    returns (r: Option<(seq<E>, nat)>)
    requires fr.Valid() && base + fr.numCols <= |fr.counts|
    requires start == Prefix(fr.counts, base) && end == Prefix(fr.counts, base + fr.numCols)
    ensures start <= end <= |fr.fractions|
    ensures r.Some? <==> NoZero(f, fr.fractions, start, end)
    ensures r.Some? ==> r.value == (RowValues(f, fr, base), end)
  {
    PrefixGrows(fr.counts, base, base + fr.numCols);
    PrefixGrows(fr.counts, base + fr.numCols, |fr.counts|);
    var values, cursor := [], start;
    for col := 0 to fr.numCols
      invariant |values| == col && cursor == Prefix(fr.counts, base + col) && start <= cursor <= end
      invariant NoZero(f, fr.fractions, start, cursor)
      invariant forall c: nat | c < col :: values[c] == Entry(f, fr, base + c)
    {
      PrefixGrows(fr.counts, base + col + 1, base + fr.numCols);
      var next := cursor + fr.counts[base + col];
      var sum := SumFractions(f, fr.fractions, cursor, next);
      if sum.None? {
        return None;
      }
      values, cursor := values + [sum.value], next;
    }
    assert values == RowValues(f, fr, base);
    return Some((values, cursor));
  }

  ghost predicate StoredAt<E(!new)>(f: Field<E>, fr: Fractions<E>, aux: seq<seq<E>>, c: nat, r: nat)
    requires fr.Valid() && c < fr.numCols && r < fr.numRows && Shaped(fr, aux)
  {
    IndexInside(r, c, fr.numRows, fr.numCols);
    aux[c][r] == Entry(f, fr, RowBase(fr.numCols, r) + c)
  }

  ghost predicate Shaped<E(!new)>(fr: Fractions<E>, aux: seq<seq<E>>) {
    |aux| == fr.numCols && forall c: nat | c < fr.numCols :: |aux[c]| == fr.numRows
  }

  /** Writes the fraction columns of one row. */
  method StoreRow<E(!new)>(f: Field<E>, fr: Fractions<E>, aux: seq<seq<E>>, values: seq<E>, row: nat) returns (out: seq<seq<E>>)
    requires fr.Valid() && row < fr.numRows && fr.numCols > 0 && RowBase(fr.numCols, row) + fr.numCols <= |fr.counts|
    requires values == RowValues(f, fr, RowBase(fr.numCols, row)) && Shaped(fr, aux)
    ensures Shaped(fr, out)
    ensures forall c: nat | 0 < c < fr.numCols :: StoredAt(f, fr, out, c, row)
    ensures forall c: nat, i: nat | 0 < c < fr.numCols && i < fr.numRows && i != row && StoredAt(f, fr, aux, c, i) ::
              StoredAt(f, fr, out, c, i)
  {
    out := aux;
    ghost var base := RowBase(fr.numCols, row);
    for col := 1 to fr.numCols
      invariant Shaped(fr, out)
      invariant forall c: nat | 0 < c < col :: out[c][row] == values[c]
      invariant forall c: nat, i: nat | 0 < c < fr.numCols && i < fr.numRows && i != row :: out[c][i] == aux[c][i]
    {
      out := out[col := out[col][row := values[col]]];
    }
    forall c: nat | 0 < c < fr.numCols
      ensures StoredAt(f, fr, out, c, row)
    {
      assert out[c][row] == values[c] == Entry(f, fr, base + c);
    }
  }

  /** The row loop of the oracle. */
  method SlowRows<E(==, !new)>(f: Field<E>, fr: Fractions<E>) returns (r: Option<(seq<seq<E>>, seq<E>)>)
    requires fr.Valid() && fr.numCols > 0
    ensures r.Some? <==> NoZero(f, fr.fractions, 0, |fr.fractions|)
    ensures r.Some? ==> r.value.1 == Totals(f, fr) && Shaped(fr, r.value.0)
    ensures r.Some? ==> forall c: nat, i: nat | 0 < c < fr.numCols && i < fr.numRows :: StoredAt(f, fr, r.value.0, c, i)
  {
    var aux := seq(fr.numCols, _ => seq(fr.numRows, _ => f.zero));
    var totals, cursor, base := [], 0, 0;
    for row := 0 to fr.numRows
      invariant |totals| == row && base == RowBase(fr.numCols, row) <= |fr.counts| && cursor == Prefix(fr.counts, base)
      invariant cursor <= |fr.fractions| && NoZero(f, fr.fractions, 0, cursor)
      invariant forall i: nat | i < row :: totals[i] == RowTotal(f, fr, i)
      invariant Shaped(fr, aux)
      invariant forall c: nat, i: nat | 0 < c < fr.numCols && i < row :: StoredAt(f, fr, aux, c, i)
    {
      RowInside(row, fr.numRows, fr.numCols);
      var values := SlowRow(f, fr, base, cursor, Prefix(fr.counts, base + fr.numCols));
      if values.None? {
        return None;
      }
      aux := StoreRow(f, fr, aux, values.value.0, row);
      var total := SumAll(f, values.value.0);
      totals, cursor, base := totals + [total], values.value.1, base + fr.numCols;
    }
    assert totals == Totals(f, fr);
    return Some((aux, totals));
  }

  /** The oracle: None exactly when the source panics, else columns and sigma'. */
  method AccumulateSlow<E(==, !new)>(f: Field<E>, fr: Fractions<E>) returns (r: Option<(seq<seq<E>>, E)>)
    requires fr.Valid()
    ensures r.Some? <==> Accumulable(f, fr)
    ensures r.Some? ==> r.value == (Columns(f, fr), SigmaPrime(f, Totals(f, fr)))
  {
    if fr.numRows == 0 || fr.numCols == 0 {
      return None;
    }
    var rows := SlowRows(f, fr);
    if rows.None? {
      return None;
    }
    var (aux, totals) := rows.value;
    var centered := Center(f, totals);
    if centered.None? {
      return None;
    }
    var out := aux[0 := centered.value.0];
    assert forall c: nat, i: nat | 0 < c < fr.numCols && i < fr.numRows && StoredAt(f, fr, aux, c, i) :: StoredAt(f, fr, out, c, i);
    AuxIsColumns(f, fr, out);
    return Some((out, centered.value.1));
  }

  lemma AuxIsColumns<E(!new)>(f: Field<E>, fr: Fractions<E>, aux: seq<seq<E>>)
    requires fr.Valid() && fr.numCols > 0 && Shaped(fr, aux)
    requires forall c: nat, i: nat | 0 < c < fr.numCols && i < fr.numRows :: StoredAt(f, fr, aux, c, i)
    requires forall i: nat | i < fr.numRows :: aux[0][i] == Acc(f, Totals(f, fr), SigmaPrime(f, Totals(f, fr)), i)
    ensures aux == Columns(f, fr)
  {
    forall c: nat | c < fr.numCols
      ensures aux[c] == Column(f, fr, c)
    {
      forall r: nat | r < fr.numRows
        ensures aux[c][r] == CellAt(f, fr, r, c)
      {
        CellAtIs(f, fr, r, c, RowBase(fr.numCols, r) + c);
        if c > 0 {
          assert StoredAt(f, fr, aux, c, r);
        }
      }
    }
  }

  // Montgomery batch inversion
  // ----------------------------------------------------------------------------

  /** Product of the first k denominators. */
  function Product<E(!new)>(f: Field<E>, s: seq<(E, E)>, k: nat): E
    requires k <= |s|
  {
    if k == 0 then f.one else f.mul(Product(f, s, k - 1), s[k - 1].1)
  }

  lemma {:induction false} ProductNonzero<E(!new)>(f: Field<E>, s: seq<(E, E)>, k: nat)
    requires f.Laws() && k <= |s|
    ensures Product(f, s, k) != f.zero <==> NoZero(f, s, 0, k)
  {
    if k > 0 {
      ProductNonzero(f, s, k - 1);
      f.MulNonzero(Product(f, s, k - 1), s[k - 1].1);
    }
  }

  /** With run the inverse of the first k + 1 denominators, the prefix product isolates one inverse. */
  lemma IsolateInverse<E(!new)>(f: Field<E>, s: seq<(E, E)>, k: nat, run: E)
    requires f.Laws() && k < |s| && f.mul(run, Product(f, s, k + 1)) == f.one
    ensures f.mul(f.mul(Product(f, s, k), run), s[k].0) == f.Quot(s[k].0, s[k].1)
    ensures f.mul(f.mul(run, s[k].1), Product(f, s, k)) == f.one
  {
    var p, d := Product(f, s, k), s[k].1;
    assert f.MulComm(p, run) && f.MulComm(p, d) && f.MulAssoc(run, p, d) && f.MulAssoc(run, d, p);
    f.InverseIsUnique(f.mul(p, run), d);
  }

  /** Forward sweep: prefix products of the denominators. */
  method PrefixProducts<E(!new)>(f: Field<E>, fracs: seq<(E, E)>, scratch: array<E>)
    requires f.Laws() && |fracs| > 0 && scratch.Length == |fracs|
    modifies scratch
    ensures forall j: nat | j < |fracs| :: scratch[j] == Product(f, fracs, j + 1)
  {
    var acc := fracs[0].1;
    scratch[0] := acc;
    f.OneMul(acc);
    assert Product(f, fracs, 1) == f.mul(Product(f, fracs, 0), fracs[0].1);
    for i := 1 to |fracs|
      invariant acc == Product(f, fracs, i)
      invariant forall j: nat | j < i :: scratch[j] == Product(f, fracs, j + 1)
    {
      acc := f.mul(acc, fracs[i].1);
      scratch[i] := acc;
    }
  }

  /** Fills scratch with m/d for every fraction, by one inversion; false when a denominator is zero. */
  method InvertAndScale<E(==, !new)>(f: Field<E>, fracs: seq<(E, E)>, scratch: array<E>) returns (ok: bool)
    requires f.Laws() && |fracs| > 0 && scratch.Length == |fracs|
    modifies scratch
    ensures ok <==> NoZero(f, fracs, 0, |fracs|)
    ensures ok ==> scratch[..] == Quots(f, fracs)
  {
    PrefixProducts(f, fracs, scratch);
    var n := |fracs|;
    ProductNonzero(f, fracs, n);
    if scratch[n - 1] == f.zero {
      return false;
    }
    var running := f.inv(scratch[n - 1]);
    f.InvMul(scratch[n - 1]);
    var i := n - 1;
    while i > 0
      invariant 0 <= i < n
      invariant f.mul(running, Product(f, fracs, i + 1)) == f.one
      invariant forall j: nat | j < i :: scratch[j] == Product(f, fracs, j + 1)
      invariant forall j: nat | i < j < n :: scratch[j] == f.Quot(fracs[j].0, fracs[j].1)
    {
      IsolateInverse(f, fracs, i, running);
      scratch[i] := f.mul(f.mul(scratch[i - 1], running), fracs[i].0);
      running := f.mul(running, fracs[i].1);
      i := i - 1;
    }
    IsolateInverse(f, fracs, 0, running);
    f.OneMul(running);
    scratch[0] := f.mul(running, fracs[0].0);
    return true;
  }

  // The chunked accumulator
  // ----------------------------------------------------------------------------

  ghost predicate OffsetAt(counts: seq<nat>, cols: nat, offsets: seq<nat>, r: nat)
    requires r < |offsets|
  {
    RowBase(cols, r) <= |counts| && offsets[r] == Prefix(counts, RowBase(cols, r))
  }

  /** Offsets of the rows in the flat fraction buffer. */
  method ComputeRowFracOffsets(counts: seq<nat>, numRows: nat, numCols: nat) returns (offsets: seq<nat>)
    requires |counts| == RowBase(numCols, numRows)
    ensures |offsets| == numRows + 1
    ensures forall r: nat | r <= numRows :: OffsetAt(counts, numCols, offsets, r)
  {
    var acc, base := 0, 0;
    offsets := [0];
    for row := 0 to numRows
      invariant |offsets| == row + 1 && base == RowBase(numCols, row) <= |counts| && acc == Prefix(counts, base)
      invariant forall r: nat | r <= row :: OffsetAt(counts, numCols, offsets, r)
    {
      RowInside(row, numRows, numCols);
      for col := 0 to numCols
        invariant acc == Prefix(counts, base + col)
      {
        acc := acc + counts[base + col];
      }
      base := base + numCols;
      offsets := PushOffset(counts, numCols, offsets, acc);
    }
  }

  /** Appends the offset of the next row. */
  function PushOffset(counts: seq<nat>, cols: nat, offsets: seq<nat>, acc: nat): (out: seq<nat>)
    requires forall r: nat | r < |offsets| :: OffsetAt(counts, cols, offsets, r)
    requires RowBase(cols, |offsets|) <= |counts| && acc == Prefix(counts, RowBase(cols, |offsets|))
    ensures |out| == |offsets| + 1
    ensures forall r: nat | r < |out| :: OffsetAt(counts, cols, out, r)
  {
    assert forall r: nat | r < |offsets| :: OffsetAt(counts, cols, offsets, r) ==> OffsetAt(counts, cols, offsets + [acc], r);
    offsets + [acc]
  }

  method SumSlice<E(!new)>(f: Field<E>, a: array<E>, lo: nat, hi: nat) returns (sum: E)
    requires lo <= hi <= a.Length
    ensures sum == Sum(f, a[lo..hi])
  {
    sum := f.zero;
    for i := lo to hi
      invariant sum == Sum(f, a[lo..i])
    {
      sum := f.add(sum, a[i]);
      SumSnoc(f, a[lo..i], a[i]);
      assert a[lo..i + 1] == a[lo..i] + [a[i]];
    }
  }

  lemma SliceOfSlice<T>(s: seq<T>, lo: nat, hi: nat, a: nat, b: nat)
    requires lo <= hi <= |s| && a <= b <= hi - lo
    ensures s[lo..hi][a..b] == s[lo + a..lo + b]
  {
    forall i: nat | i < b - a
      ensures s[lo..hi][a..b][i] == s[lo + a..lo + b][i]
    {
    }
  }

  /** Row sums read off the scaled fractions of a chunk that starts at fraction fracLo. */
  method FastRow<E(!new)>(f: Field<E>, fr: Fractions<E>, base: nat, scratch: array<E>, ghost fracLo: nat, start: nat)
    returns (values: seq<E>, cursor: nat)
    requires fr.Valid() && base + fr.numCols <= |fr.counts|
    requires fracLo + scratch.Length <= |fr.fractions|
    requires scratch[..] == Quots(f, fr.fractions)[fracLo..fracLo + scratch.Length]
    requires fracLo + start == Prefix(fr.counts, base) && Prefix(fr.counts, base + fr.numCols) <= fracLo + scratch.Length
    ensures values == RowValues(f, fr, base) && fracLo + cursor == Prefix(fr.counts, base + fr.numCols)
  {
    values, cursor := [], start;
    for col := 0 to fr.numCols
      invariant |values| == col && fracLo + cursor == Prefix(fr.counts, base + col)
      invariant forall c: nat | c < col :: values[c] == Entry(f, fr, base + c)
    {
      PrefixGrows(fr.counts, base + col + 1, base + fr.numCols);
      var end := cursor + fr.counts[base + col];
      var sum := SumSlice(f, scratch, cursor, end);
      assert scratch[cursor..end] == scratch[..][cursor..end];
      SliceOfSlice(Quots(f, fr.fractions), fracLo, fracLo + scratch.Length, cursor, end);
      values, cursor := values + [sum], end;
    }
  }

  /** What phase 1 leaves at flat index k: column zero untouched, fraction columns filled. */
  function Phase1Cell<E(!new)>(f: Field<E>, fr: Fractions<E>, k: nat): E
    requires fr.Valid() && k < |fr.counts| && fr.numCols > 0
  {
    if k % fr.numCols == 0 then f.zero else Entry(f, fr, k)
  }

  lemma RowCells<E(!new)>(f: Field<E>, fr: Fractions<E>, r: nat, base: nat)
    requires fr.Valid() && r < fr.numRows && base == RowBase(fr.numCols, r) && fr.numCols > 0
    ensures base + fr.numCols <= |fr.counts| && base % fr.numCols == 0 && base / fr.numCols == r
    ensures forall k: nat | base < k < base + fr.numCols :: k % fr.numCols != 0
  {
    RowInside(r, fr.numRows, fr.numCols);
    IndexInside(r, 0, fr.numRows, fr.numCols);
    forall k: nat | base < k < base + fr.numCols
      ensures k % fr.numCols != 0
    {
      IndexInside(r, k - base, fr.numRows, fr.numCols);
    }
  }

  /** Copies the fraction columns of a row into the output. */
  method WriteRow<E(!new)>(output: array<E>, base: nat, values: seq<E>)
    requires base + |values| <= output.Length
    modifies output
    ensures forall j: nat | j < output.Length ::
              output[j] == if base < j < base + |values| then values[j - base] else old(output[j])
  {
    if |values| > 0 {
      for col := 1 to |values|
        invariant forall j: nat | j < output.Length ::
                    output[j] == if base < j < base + col then values[j - base] else old(output[j])
      {
        output[base + col] := values[col];
      }
    }
  }

  /** What phase 1 makes of an output buffer when it fills cells lo up to hi. */
  ghost predicate Filled<E(!new)>(f: Field<E>, fr: Fractions<E>, before: seq<E>, after: seq<E>, lo: nat, hi: nat)
    requires fr.Valid() && fr.numCols > 0 && hi <= |fr.counts|
  {
    && |before| == |after| == |fr.counts|
    && forall j: nat | j < |after| :: after[j] == if lo <= j < hi then Phase1Cell(f, fr, j) else before[j]
  }

  ghost predicate Totalled<E(!new)>(f: Field<E>, fr: Fractions<E>, before: seq<E>, after: seq<E>, lo: nat, hi: nat)
    requires fr.Valid() && hi <= fr.numRows
  {
    && |before| == |after| == fr.numRows
    && forall r: nat | r < |after| :: after[r] == if lo <= r < hi then RowTotal(f, fr, r) else before[r]
  }

  lemma FilledRow<E(!new)>(f: Field<E>, fr: Fractions<E>, start: seq<E>, before: seq<E>, after: seq<E>, lo: nat, r: nat, base: nat)
    requires fr.Valid() && fr.numCols > 0 && r < fr.numRows && base == RowBase(fr.numCols, r) && lo <= base
    requires base <= |fr.counts| && Filled(f, fr, start, before, lo, base) && |after| == |before|
    requires base + fr.numCols <= |fr.counts| && start[base] == f.zero
    requires forall j: nat | j < |after| ::
               after[j] == if base < j < base + fr.numCols then RowValues(f, fr, base)[j - base] else before[j]
    ensures Filled(f, fr, start, after, lo, base + fr.numCols)
  {
    RowCells(f, fr, r, base);
  }

  /** Phase 1 on rows rowLo up to rowHi, from their scaled fractions. */
  method FillRows<E(!new)>(f: Field<E>, fr: Fractions<E>, rowLo: nat, rowHi: nat, baseLo: nat, ghost fracLo: nat,
                           scratch: array<E>, output: array<E>, totals: array<E>)
    requires fr.Valid() && fr.numCols > 0 && rowLo <= rowHi <= fr.numRows && baseLo == RowBase(fr.numCols, rowLo) <= |fr.counts|
    requires RowBase(fr.numCols, rowHi) <= |fr.counts| && fracLo == Prefix(fr.counts, baseLo)
    requires fracLo + scratch.Length == Prefix(fr.counts, RowBase(fr.numCols, rowHi)) <= |fr.fractions|
    requires scratch[..] == Quots(f, fr.fractions)[fracLo..fracLo + scratch.Length]
    requires output != totals && output != scratch && totals != scratch
    requires output.Length == |fr.counts| && totals.Length == fr.numRows
    requires forall j: nat | baseLo <= j < output.Length :: output[j] == f.zero
    modifies output, totals
    ensures Filled(f, fr, old(output[..]), output[..], baseLo, RowBase(fr.numCols, rowHi))
    ensures Totalled(f, fr, old(totals[..]), totals[..], rowLo, rowHi)
  {
    ghost var quots := scratch[..];
    var base, cursor := baseLo, 0;
    for row := rowLo to rowHi
      invariant baseLo <= base == RowBase(fr.numCols, row) <= |fr.counts| && fracLo + cursor == Prefix(fr.counts, base)
      invariant scratch[..] == quots
      invariant Filled(f, fr, old(output[..]), output[..], baseLo, base)
      invariant Totalled(f, fr, old(totals[..]), totals[..], rowLo, row)
    {
      RowInside(row, fr.numRows, fr.numCols);
      RowInside(row, rowHi, fr.numCols);
      PrefixGrows(fr.counts, base + fr.numCols, RowBase(fr.numCols, rowHi));
      var values;
      values, cursor := FastRow(f, fr, base, scratch, fracLo, cursor);
      ghost var before := output[..];
      WriteRow(output, base, values);
      FilledRow(f, fr, old(output[..]), before, output[..], baseLo, row, base);
      var total := SumAll(f, values);
      totals[row] := total;
      base := base + fr.numCols;
    }
  }

  /** Phase 1 on one chunk of rows; false when one of its denominators is zero. */
  method FillChunk<E(==, !new)>(f: Field<E>, fr: Fractions<E>, rowLo: nat, rowHi: nat, baseLo: nat, fracLo: nat, fracHi: nat,
                                output: array<E>, totals: array<E>)
    returns (ok: bool)
    requires f.Laws() && fr.Valid() && fr.numCols > 0 && rowLo <= rowHi <= fr.numRows && baseLo == RowBase(fr.numCols, rowLo) <= |fr.counts|
    requires fracLo == Prefix(fr.counts, baseLo) <= fracHi <= |fr.fractions|
    requires RowBase(fr.numCols, rowHi) <= |fr.counts| && fracHi == Prefix(fr.counts, RowBase(fr.numCols, rowHi))
    requires output != totals && output.Length == |fr.counts| && totals.Length == fr.numRows
    requires forall j: nat | baseLo <= j < output.Length :: output[j] == f.zero
    requires forall r: nat | rowLo <= r < fr.numRows :: totals[r] == f.zero
    modifies output, totals
    ensures ok <==> NoZero(f, fr.fractions, fracLo, fracHi)
    ensures ok ==> Filled(f, fr, old(output[..]), output[..], baseLo, RowBase(fr.numCols, rowHi))
    ensures ok ==> Totalled(f, fr, old(totals[..]), totals[..], rowLo, rowHi)
  {
    if fracLo == fracHi {
      EmptyCells(f, fr, baseLo, RowBase(fr.numCols, rowHi));
      EmptyRows(f, fr, rowLo, rowHi);
      return true;
    }
    var fracs := fr.fractions[fracLo..fracHi];
    var scratch := new E[|fracs|](_ => f.zero);
    ok := InvertAndScale(f, fracs, scratch);
    SliceNoZero(f, fr.fractions, fracLo, fracHi);
    if ok {
      assert Quots(f, fracs) == Quots(f, fr.fractions)[fracLo..fracHi];
      FillRows(f, fr, rowLo, rowHi, baseLo, fracLo, scratch, output, totals);
    }
  }

  lemma SliceNoZero<E(!new)>(f: Field<E>, s: seq<(E, E)>, lo: nat, hi: nat)
    requires lo <= hi <= |s|
    ensures NoZero(f, s[lo..hi], 0, hi - lo) <==> NoZero(f, s, lo, hi)
  {
    forall i: nat | NoZero(f, s[lo..hi], 0, hi - lo) && lo <= i < hi
      ensures s[i].1 != f.zero
    {
      assert s[lo..hi][i - lo] == s[i];
    }
  }

  lemma EmptyCells<E(!new)>(f: Field<E>, fr: Fractions<E>, lo: nat, hi: nat)
    requires f.Laws() && fr.Valid() && fr.numCols > 0 && lo <= |fr.counts| && hi <= |fr.counts|
    requires Prefix(fr.counts, lo) == Prefix(fr.counts, hi)
    ensures forall j: nat | lo <= j < hi :: Entry(f, fr, j) == f.zero && Phase1Cell(f, fr, j) == f.zero
  {
    forall j: nat | lo <= j < hi
      ensures Entry(f, fr, j) == f.zero
    {
      PrefixGrows(fr.counts, lo, j);
      PrefixGrows(fr.counts, j + 1, hi);
      PrefixGrows(fr.counts, hi, |fr.counts|);
      assert Quots(f, fr.fractions)[Prefix(fr.counts, j)..Prefix(fr.counts, j + 1)] == [];
    }
  }

  /** Rows without fractions have zero totals. */
  lemma EmptyRows<E(!new)>(f: Field<E>, fr: Fractions<E>, rowLo: nat, rowHi: nat)
    requires f.Laws() && fr.Valid() && fr.numCols > 0 && rowLo <= rowHi <= fr.numRows
    requires RowBase(fr.numCols, rowLo) <= |fr.counts| && RowBase(fr.numCols, rowHi) <= |fr.counts|
    requires Prefix(fr.counts, RowBase(fr.numCols, rowLo)) == Prefix(fr.counts, RowBase(fr.numCols, rowHi))
    ensures forall r: nat | rowLo <= r < rowHi :: RowTotal(f, fr, r) == f.zero
  {
    forall r: nat | rowLo <= r < rowHi
      ensures RowTotal(f, fr, r) == f.zero
    {
      RowInside(r, fr.numRows, fr.numCols);
      RowInside(r, rowHi, fr.numCols);
      RowBaseGrows(fr.numCols, rowLo, r);
      EmptyCells(f, fr, RowBase(fr.numCols, rowLo), RowBase(fr.numCols, rowHi));
      SumOfZeros(f, RowValues(f, fr, RowBase(fr.numCols, r)));
    }
  }

  lemma {:induction false} SumOfZeros<E(!new)>(f: Field<E>, s: seq<E>)
    requires f.Laws() && forall i: nat | i < |s| :: s[i] == f.zero
    ensures Sum(f, s) == f.zero
  {
    if s != [] {
      SumOfZeros(f, s[..|s| - 1]);
      f.ZeroAdd(f.zero);
    }
  }

  function FlatMatrix<E(!new)>(f: Field<E>, fr: Fractions<E>): (m: seq<E>)
    requires fr.Valid() && fr.numCols > 0
    ensures |m| == |fr.counts|
  {
    seq(|fr.counts|, k requires 0 <= k < |fr.counts| => Cell(f, fr, k))
  }

  /** Phase 1: every chunk in turn. */
  method FillAll<E(==, !new)>(f: Field<E>, fr: Fractions<E>, rowsPerChunk: nat, output: array<E>, totals: array<E>) returns (ok: bool)
    requires f.Laws() && fr.Valid() && fr.numCols > 0 && rowsPerChunk > 0
    requires output != totals && output.Length == |fr.counts| && totals.Length == fr.numRows
    requires forall j: nat | j < output.Length :: output[j] == f.zero
    requires forall r: nat | r < fr.numRows :: totals[r] == f.zero
    modifies output, totals
    ensures ok <==> NoZero(f, fr.fractions, 0, |fr.fractions|)
    ensures ok ==> forall j: nat | j < output.Length :: output[j] == Phase1Cell(f, fr, j)
    ensures ok ==> totals[..] == Totals(f, fr)
  {
    var offsets := ComputeRowFracOffsets(fr.counts, fr.numRows, fr.numCols);
    var rowLo, base := 0, 0;
    assert OffsetAt(fr.counts, fr.numCols, offsets, 0);
    while rowLo < fr.numRows
      invariant rowLo <= fr.numRows && base == RowBase(fr.numCols, rowLo) <= |fr.counts|
      invariant offsets[rowLo] == Prefix(fr.counts, base) <= |fr.fractions| && NoZero(f, fr.fractions, 0, offsets[rowLo])
      invariant forall j: nat | j < output.Length :: output[j] == if j < base then Phase1Cell(f, fr, j) else f.zero
      invariant forall r: nat | r < fr.numRows :: totals[r] == if r < rowLo then RowTotal(f, fr, r) else f.zero
    {
      var rowHi := if rowLo + rowsPerChunk < fr.numRows then rowLo + rowsPerChunk else fr.numRows;
      assert OffsetAt(fr.counts, fr.numCols, offsets, rowHi);
      RowBaseGrows(fr.numCols, rowLo, rowHi);
      ghost var baseHi := RowBase(fr.numCols, rowHi);
      PrefixGrows(fr.counts, base, baseHi);
      PrefixGrows(fr.counts, baseHi, |fr.counts|);
      ok := FillChunk(f, fr, rowLo, rowHi, base, offsets[rowLo], offsets[rowHi], output, totals);
      if !ok {
        return;
      }
      RowBaseIsProduct(fr.numCols, rowHi);
      rowLo, base := rowHi, rowHi * fr.numCols;
    }
    assert totals[..] == Totals(f, fr);
    ok := true;
  }

  /** Phase 2: writes the accumulator column. */
  method WriteAccumulator<E(!new)>(f: Field<E>, fr: Fractions<E>, column: seq<E>, output: array<E>)
    requires fr.Valid() && fr.numCols > 0 && |column| == fr.numRows && output.Length == |fr.counts|
    requires forall r: nat | r < fr.numRows :: column[r] == Acc(f, Totals(f, fr), SigmaPrime(f, Totals(f, fr)), r)
    requires forall j: nat | j < output.Length :: output[j] == Phase1Cell(f, fr, j)
    modifies output
    ensures output[..] == FlatMatrix(f, fr)
  {
    var base := 0;
    for row := 0 to fr.numRows
      invariant base == RowBase(fr.numCols, row) <= |fr.counts|
      invariant forall j: nat | j < output.Length :: output[j] == if j < base then Cell(f, fr, j) else Phase1Cell(f, fr, j)
    {
      RowCells(f, fr, row, base);
      output[base] := column[row];
      base := base + fr.numCols;
    }
  }

  /** The fast path: None exactly when the source panics, for every chunk size. */
  method Accumulate<E(==, !new)>(f: Field<E>, fr: Fractions<E>, rowsPerChunk: nat) returns (r: Option<(seq<E>, E)>)
    requires f.Laws() && fr.Valid() && rowsPerChunk > 0
    ensures r.Some? <==> Accumulable(f, fr)
    ensures r.Some? ==> r.value == (FlatMatrix(f, fr), SigmaPrime(f, Totals(f, fr)))
  {
    if fr.numRows == 0 || fr.numCols == 0 {
      return None;
    }
    var output := new E[|fr.counts|](_ => f.zero);
    var totals := new E[fr.numRows](_ => f.zero);
    var ok := FillAll(f, fr, rowsPerChunk, output, totals);
    if !ok {
      return None;
    }
    var centered := Center(f, totals[..]);
    if centered.None? {
      return None;
    }
    WriteAccumulator(f, fr, centered.value.0, output);
    return Some((output[..], centered.value.1));
  }

  /** Both accumulators return the same matrix, one in columns and one row-major. */
  lemma SameMatrix<E(!new)>(f: Field<E>, fr: Fractions<E>, r: nat, c: nat, k: nat)
    requires fr.Valid() && r < fr.numRows && c < fr.numCols && k == r * fr.numCols + c
    ensures k < |fr.counts| && FlatMatrix(f, fr)[k] == Columns(f, fr)[c][r]
  {
    RowBaseIsProduct(fr.numCols, r);
    CellAtIs(f, fr, r, c, k);
  }
}
