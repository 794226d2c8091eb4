/** Wire format of the continuation stack: tags, little-endian words and vint64 lengths. */
module ContinuationCodec {
  import opened Goldilocks
  import opened Wrappers
  import opened ContinuationStack

  type Bytes = seq<nat>

  const ID_BYTES: nat := 4
  const WORD_BYTES: nat := 8

  datatype DecodeError = UnexpectedEof | InvalidTag(tag: nat) | TooManyElements

  type Parsed<T> = Result<(T, Bytes), DecodeError>

  // Little-endian integers
  // ----------------------------------------------------------------------------

  function LittleEndian(x: nat, n: nat): (b: Bytes)
    ensures |b| == n
  {
    if n == 0 then [] else [x % 256] + LittleEndian(x / 256, n - 1)
  }

  function FromLittleEndian(b: Bytes): nat {
    if b == [] then 0 else b[0] + 256 * FromLittleEndian(b[1..])
  }

  function Pow256(n: nat): (p: nat)
    ensures p >= 1
  {
    if n == 0 then 1 else 256 * Pow256(n - 1)
  }

  lemma {:induction false} LittleEndianRoundTrip(x: nat, n: nat)
    requires x < Pow256(n)
    ensures FromLittleEndian(LittleEndian(x, n)) == x
  {
    if n > 0 {
      LittleEndianRoundTrip(x / 256, n - 1);
      assert LittleEndian(x, n)[1..] == LittleEndian(x / 256, n - 1);
    }
  }

  function ReadWord(b: Bytes, n: nat): Parsed<nat> {
    if |b| < n then Err(UnexpectedEof) else Ok((FromLittleEndian(b[..n]), b[n..]))
  }

  lemma ReadWordRoundTrip(x: nat, n: nat, rest: Bytes)
    requires x < Pow256(n)
    ensures ReadWord(LittleEndian(x, n) + rest, n) == Ok((x, rest))
  {
    LittleEndianRoundTrip(x, n);
    assert (LittleEndian(x, n) + rest)[..n] == LittleEndian(x, n) && (LittleEndian(x, n) + rest)[n..] == rest;
  }

  // vint64: the number of trailing zeros of the first byte gives the length
  // ----------------------------------------------------------------------------

  function BitLength(x: nat): nat {
    if x == 0 then 0 else 1 + BitLength(x / 2)
  }

  function EncodedLen(x: nat): nat
    requires x <= MAX_U64
  {
    BitLengthBound(x);
    var zeros := 64 - BitLength(x);
    var len := (if zeros == 0 then 0 else zeros - 1) / 7;
    9 - (if len < 8 then len else 8)
  }

  lemma {:induction false} BitLengthExact(x: nat, n: nat)
    ensures BitLength(x) <= n <==> x < Pow2(n)
  {
    if x > 0 && n > 0 {
      BitLengthExact(x / 2, n - 1);
    }
  }

  lemma BitLengthBound(x: nat)
    requires x <= MAX_U64
    ensures BitLength(x) <= 64
  {
    Pow2Values();
    BitLengthExact(x, 64);
  }

  lemma EncodedLenMeaning(x: nat)
    requires x <= MAX_U64
    ensures 1 <= EncodedLen(x) <= 9
    ensures EncodedLen(x) < 9 ==> x < Pow2(7 * EncodedLen(x))
  {
    BitLengthBound(x);
    if EncodedLen(x) < 9 {
      BitLengthExact(x, 7 * EncodedLen(x));
    }
  }

  /** k bytes are enough exactly for the values of 7k bits; nine for all. */
  lemma EncodedLenIsLeast(x: nat, k: nat)
    requires x <= MAX_U64 && 1 <= k <= 9
    ensures EncodedLen(x) <= k <==> k == 9 || x < Pow2(7 * k)
  {
    BitLengthBound(x);
    BitLengthExact(x, 7 * k);
  }

  function EncodeUsize(x: nat): Bytes
    requires x <= MAX_U64
  {
    EncodedLenMeaning(x);
    var len := EncodedLen(x);
    if len == 9 then [0] + LittleEndian(x, WORD_BYTES) else LittleEndian(Marked(x, len), len)
  }

  /** A value with the marker of its length below it. */
  function Marked(x: nat, len: nat): nat
    requires len >= 1
  {
    (2 * x + 1) * Pow2(len - 1)
  }

  /** Trailing zero bits of a byte; eight for zero. */
  function TrailingZeros(b: nat, width: nat): nat {
    if width == 0 || b % 2 == 1 then 0 else 1 + TrailingZeros(b / 2, width - 1)
  }

  function DecodeUsize(b: Bytes): Parsed<nat> {
    if b == [] then Err(UnexpectedEof)
    else
      var len := TrailingZeros(b[0], 8) + 1;
      if len == 9 then ReadWord(b[1..], WORD_BYTES)
      else
        match ReadWord(b, len)
        case Ok((x, rest)) => Ok((ShiftRight(x, len), rest))
        case Err(e) => Err(e)
  }

  lemma {:induction false} Pow256IsPow2(n: nat)
    ensures Pow256(n) == Pow2(8 * n)
  {
    if n > 0 {
      Pow256IsPow2(n - 1);
      Pow2Add(8, 8 * (n - 1));
      assert Pow2(8) == 256 by { Pow2Add(4, 4); assert Pow2(4) == 16; }
    }
  }

  /** An odd number times 2^k has k trailing zeros, also when cut to its lowest byte. */
  lemma {:induction false} TrailingZerosOf(odd: nat, k: nat, width: nat, x: nat)
    requires odd % 2 == 1 && k < width && x == odd * Pow2(k)
    ensures TrailingZeros(x % Pow2(width), width) == k
  {
    HalveMod(x, width);
    if k > 0 {
      assert x == 2 * (odd * Pow2(k - 1));
      TrailingZerosOf(odd, k - 1, width - 1, x / 2);
    }
  }

  /** The low bits of x, halved, are the low bits of x / 2. */
  lemma HalveMod(x: nat, width: nat)
    requires width > 0
    ensures (x % Pow2(width)) % 2 == x % 2 && (x % Pow2(width)) / 2 == x / 2 % Pow2(width - 1)
  {
    var p := Pow2(width - 1);
    var q, r := x / 2 / p, x / 2 % p;
    assert x / 2 == p * q + r;
    assert x == 2 * p * q + (2 * r + x % 2);
    ModUnique(x, 2 * p, q, 2 * r + x % 2);
  }

  lemma TimesLess(a: nat, b: nat, p: nat)
    requires a < b && p > 0
    ensures a * p < b * p
  {
    assert b * p == a * p + (b - a) * p;
  }

  lemma {:induction false} ShiftBack(x: nat, len: nat, y: nat)
    requires len > 0 && y == (2 * x + 1) * Pow2(len - 1)
    ensures ShiftRight(y, len) == x
  {
    if len == 1 {
      assert y / 2 == x;
    } else {
      assert y == 2 * ((2 * x + 1) * Pow2(len - 2));
      ShiftBack(x, len - 1, y / 2);
    }
  }

  lemma ShiftedFits(x: nat, len: nat, p: nat)
    requires 1 <= len <= 8 && x < Pow2(7 * len) && p == Pow2(len - 1)
    ensures (2 * x + 1) * p < Pow256(len)
  {
    Pow256IsPow2(len);
    Pow2Add(7 * len + 1, len - 1);
    TimesLess(2 * x + 1, Pow2(7 * len + 1), p);
  }

  lemma DecodeShort(b: Bytes, len: nat, y: nat, rest: Bytes)
    requires 1 <= len <= 8 && b != [] && TrailingZeros(b[0], 8) == len - 1 && ReadWord(b, len) == Ok((y, rest))
    ensures DecodeUsize(b) == Ok((ShiftRight(y, len), rest))
  {
  }

  lemma MarkerIsLength(x: nat, len: nat, y: nat)
    requires 1 <= len <= 8 && y == Marked(x, len)
    ensures TrailingZeros(LittleEndian(y, len)[0], 8) == len - 1
  {
    LowByte(y, len);
    TrailingZerosOf(2 * x + 1, len - 1, 8, y);
  }

  lemma ShortRoundTrip(x: nat, len: nat, y: nat, rest: Bytes)
    requires 1 <= len <= 8 && y == Marked(x, len) < Pow256(len)
    ensures DecodeUsize(LittleEndian(y, len) + rest) == Ok((x, rest))
  {
    ShiftBack(x, len, y);
    ReadWordRoundTrip(y, len, rest);
    MarkerIsLength(x, len, y);
    DecodeShort(LittleEndian(y, len) + rest, len, y, rest);
  }

  lemma LongRoundTrip(x: nat, n: nat, rest: Bytes)
    requires x < Pow256(n) && n == WORD_BYTES
    ensures DecodeUsize([0] + LittleEndian(x, n) + rest) == Ok((x, rest))
  {
    ReadWordRoundTrip(x, n, rest);
    assert ([0] + LittleEndian(x, n) + rest)[1..] == LittleEndian(x, n) + rest;
    ZeroHasEight();
  }

  lemma WordFits(x: nat)
    requires x <= MAX_U64
    ensures x < Pow256(WORD_BYTES)
  {
    Pow256IsPow2(WORD_BYTES);
    Pow2Values();
  }

  /** Every 64-bit length survives the vint64 encoding. */
  lemma UsizeRoundTrip(x: nat, rest: Bytes)
    requires x <= MAX_U64
    ensures DecodeUsize(EncodeUsize(x) + rest) == Ok((x, rest))
  {
    EncodedLenMeaning(x);
    var len := EncodedLen(x);
    if len == 9 {
      WordFits(x);
      LongRoundTrip(x, WORD_BYTES, rest);
    } else {
      ShiftedFits(x, len, Pow2(len - 1));
      ShortRoundTrip(x, len, Marked(x, len), rest);
    }
  }

  lemma ZeroHasEight()
    ensures TrailingZeros(0, 8) == 8
  {
    assert TrailingZeros(0, 4) == 4;
  }

  lemma LowByte(y: nat, len: nat)
    requires len > 0
    ensures LittleEndian(y, len)[0] == y % Pow2(8)
  {
    Pow2Add(4, 4);
    assert Pow2(4) == 16;
  }

  // Continuations
  // ----------------------------------------------------------------------------

  /** Ids are 32-bit and indices 64-bit. */
  predicate OnWire<D>(c: Continuation<nat, D>) {
    match c
    case ResumeBasicBlock(node, batch, op) => node < Pow256(ID_BYTES) && batch <= MAX_U64 && op <= MAX_U64
    case Respan(node, batch) => node < Pow256(ID_BYTES) && batch <= MAX_U64
    case EnterForest(forest, _, depth) => forest < Pow256(ID_BYTES) && depth <= MAX_U64
    case _ => c.node < Pow256(ID_BYTES)
  }

  /** Debug information does not travel. */
  function Erase<D>(c: Continuation<nat, D>): Continuation<nat, D> {
    match c
    case EnterForest(forest, _, depth) => EnterForest(forest, None, depth)
    case _ => c
  }

  function Encode<D>(c: Continuation<nat, D>): Bytes
    requires OnWire(c)
  {
    match c
    case StartNode(node) => [0] + LittleEndian(node, ID_BYTES)
    case FinishJoin(node) => [1] + LittleEndian(node, ID_BYTES)
    case FinishSplit(node) => [2] + LittleEndian(node, ID_BYTES)
    case FinishLoop(node) => [3] + LittleEndian(node, ID_BYTES)
    case FinishCall(node) => [4] + LittleEndian(node, ID_BYTES)
    case FinishDyn(node) => [5] + LittleEndian(node, ID_BYTES)
    case ResumeBasicBlock(node, batch, op) => [6] + LittleEndian(node, ID_BYTES) + EncodeUsize(batch) + EncodeUsize(op)
    case Respan(node, batch) => [7] + LittleEndian(node, ID_BYTES) + EncodeUsize(batch)
    case FinishBasicBlock(node) => [8] + LittleEndian(node, ID_BYTES)
    case EnterForest(forest, _, depth) => [9] + LittleEndian(forest, ID_BYTES) + EncodeUsize(depth)
  }

  /** The continuation with a tag that carries a node id alone. */
  function Simple<D>(tag: nat, node: nat): Continuation<nat, D>
    requires tag <= 5 || tag == 8
  {
    if tag == 0 then StartNode(node)
    else if tag == 1 then FinishJoin(node)
    else if tag == 2 then FinishSplit(node)
    else if tag == 3 then FinishLoop(node)
    else if tag == 4 then FinishCall(node)
    else if tag == 5 then FinishDyn(node)
    else FinishBasicBlock(node)
  }

  function Decode<D>(b: Bytes): Parsed<Continuation<nat, D>> {
    if b == [] then Err(UnexpectedEof)
    else if b[0] > 9 then Err(InvalidTag(b[0]))
    else
      match ReadWord(b[1..], ID_BYTES)
      case Err(e) => Err(e)
      case Ok((id, r0)) =>
        if b[0] <= 5 || b[0] == 8 then Ok((Simple(b[0], id), r0))
        else
          match DecodeUsize(r0)
          case Err(e) => Err(e)
          case Ok((x, r1)) =>
            if b[0] == 7 then Ok((Respan(id, x), r1))
            else if b[0] == 9 then Ok((EnterForest(id, None, x), r1))
            else
              match DecodeUsize(r1)
              case Err(e) => Err(e)
              case Ok((y, r2)) => Ok((ResumeBasicBlock(id, x, y), r2))
  }

  lemma TagAndWord(tag: nat, id: nat, n: nat, rest: Bytes)
    requires id < Pow256(n)
    ensures var b := [tag] + LittleEndian(id, n) + rest; b[0] == tag && ReadWord(b[1..], n) == Ok((id, rest))
  {
    ReadWordRoundTrip(id, n, rest);
    assert ([tag] + LittleEndian(id, n) + rest)[1..] == LittleEndian(id, n) + rest;
  }

  lemma SimpleRoundTrip<D>(c: Continuation<nat, D>, tag: nat, rest: Bytes)
    requires OnWire(c) && !c.ResumeBasicBlock? && !c.Respan? && !c.EnterForest?
    requires (tag <= 5 || tag == 8) && Encode(c) == [tag] + LittleEndian(c.node, ID_BYTES) && c == Simple(tag, c.node)
    ensures Decode(Encode(c) + rest) == Ok((c, rest))
  {
    TagAndWord(tag, c.node, ID_BYTES, rest);
  }

  lemma IndexedRoundTrip<D>(c: Continuation<nat, D>, rest: Bytes)
    requires OnWire(c) && (c.Respan? || c.EnterForest?)
    ensures Decode(Encode(c) + rest) == Ok((Erase(c), rest))
  {
    var (tag, id, x) := match c case Respan(node, batch) => (7, node, batch) case EnterForest(forest, _, depth) => (9, forest, depth);
    var r0 := EncodeUsize(x) + rest;
    var b := [tag] + LittleEndian(id, ID_BYTES) + r0;
    TagAndWord(tag, id, ID_BYTES, r0);
    UsizeRoundTrip(x, rest);
    DecodeIndexed<D>(b, tag, id, x, r0, rest);
    Assoc([tag] + LittleEndian(id, ID_BYTES), EncodeUsize(x), rest);
  }

  lemma DecodeIndexed<D>(b: Bytes, tag: nat, id: nat, x: nat, r0: Bytes, r1: Bytes)
    requires b != [] && b[0] == tag && (tag == 7 || tag == 9) && ReadWord(b[1..], ID_BYTES) == Ok((id, r0)) && DecodeUsize(r0) == Ok((x, r1))
    ensures Decode<D>(b) == Ok((if tag == 7 then Respan(id, x) else EnterForest(id, None, x), r1))
  {
  }

  lemma ResumeRoundTrip<D>(c: Continuation<nat, D>, rest: Bytes)
    requires OnWire(c) && c.ResumeBasicBlock?
    ensures Decode(Encode(c) + rest) == Ok((c, rest))
  {
    var x, y := EncodeUsize(c.batchIndex), EncodeUsize(c.opIdxInBatch);
    var b := [6] + LittleEndian(c.node, ID_BYTES) + (x + (y + rest));
    TagAndWord(6, c.node, ID_BYTES, x + (y + rest));
    UsizeRoundTrip(c.batchIndex, y + rest);
    UsizeRoundTrip(c.opIdxInBatch, rest);
    DecodeResume<D>(b, c.node, c.batchIndex, c.opIdxInBatch, x + (y + rest), y + rest, rest);
    var head := [6] + LittleEndian(c.node, ID_BYTES);
    Assoc(head, x, y + rest);
    Assoc(head + x, y, rest);
  }

  lemma DecodeResume<D>(b: Bytes, id: nat, x: nat, y: nat, r0: Bytes, r1: Bytes, r2: Bytes)
    requires b != [] && b[0] == 6 && ReadWord(b[1..], ID_BYTES) == Ok((id, r0))
    requires DecodeUsize(r0) == Ok((x, r1)) && DecodeUsize(r1) == Ok((y, r2))
    ensures Decode<D>(b) == Ok((ResumeBasicBlock(id, x, y), r2))
  {
  }

  /** A continuation survives the wire up to its debug information. */
  lemma ContinuationRoundTrip<D>(c: Continuation<nat, D>, rest: Bytes)
    requires OnWire(c)
    ensures Decode(Encode(c) + rest) == Ok((Erase(c), rest))
  {
    match c
    case StartNode(_) => SimpleRoundTrip(c, 0, rest);
    case FinishJoin(_) => SimpleRoundTrip(c, 1, rest);
    case FinishSplit(_) => SimpleRoundTrip(c, 2, rest);
    case FinishLoop(_) => SimpleRoundTrip(c, 3, rest);
    case FinishCall(_) => SimpleRoundTrip(c, 4, rest);
    case FinishDyn(_) => SimpleRoundTrip(c, 5, rest);
    case FinishBasicBlock(_) => SimpleRoundTrip(c, 8, rest);
    case ResumeBasicBlock(_, _, _) => ResumeRoundTrip(c, rest);
    case Respan(_, _) => IndexedRoundTrip(c, rest);
    case EnterForest(_, _, _) => IndexedRoundTrip(c, rest);
  }

  // Stacks
  // ----------------------------------------------------------------------------

  predicate AllOnWire<D>(s: seq<Continuation<nat, D>>) {
    |s| <= MAX_U64 && forall i: nat | i < |s| :: OnWire(s[i])
  }

  function EncodeMany<D>(s: seq<Continuation<nat, D>>): Bytes
    requires forall i: nat | i < |s| :: OnWire(s[i])
  {
    if s == [] then [] else Encode(s[0]) + EncodeMany(s[1..])
  }

  function EraseAll<D>(s: seq<Continuation<nat, D>>): seq<Continuation<nat, D>> {
    if s == [] then [] else [Erase(s[0])] + EraseAll(s[1..])
  }

  function EncodeStack<D>(s: seq<Continuation<nat, D>>): Bytes
    requires AllOnWire(s)
  {
    EncodeUsize(|s|) + EncodeMany(s)
  }

  function DecodeMany<D>(b: Bytes, n: nat): Parsed<seq<Continuation<nat, D>>> {
    if n == 0 then Ok(([], b))
    else
      match Decode(b)
      case Err(e) => Err(e)
      case Ok((c, rest)) =>
        match DecodeMany(rest, n - 1)
        case Err(e) => Err(e)
        case Ok((cs, rest')) => Ok(([c] + cs, rest'))
  }

  /** A reader refuses a length prefix above the number of elements it can provide. A plain
      reader can provide MAX_U64. */
  function DecodeStack<D>(b: Bytes, maxElements: nat): Parsed<seq<Continuation<nat, D>>> {
    match DecodeUsize(b)
    case Err(e) => Err(e)
    case Ok((n, rest)) => if n > maxElements then Err(TooManyElements) else DecodeMany(rest, n)
  }

  lemma {:induction false} ManyRoundTrip<D>(s: seq<Continuation<nat, D>>, rest: Bytes)
    requires forall i: nat | i < |s| :: OnWire(s[i])
    ensures DecodeMany(EncodeMany(s) + rest, |s|) == Ok((EraseAll(s), rest))
  {
    if s == [] {
      assert EncodeMany(s) + rest == rest;
    } else {
      var tail := EncodeMany(s[1..]) + rest;
      assert EncodeMany(s) + rest == Encode(s[0]) + tail;
      ContinuationRoundTrip(s[0], tail);
      ManyRoundTrip(s[1..], rest);
    }
  }

  /** A stack survives the wire up to its debug information, unless the reader cannot provide
      that many elements. */
  lemma StackRoundTrip<D>(s: seq<Continuation<nat, D>>, rest: Bytes, maxElements: nat)
    requires AllOnWire(s)
    ensures DecodeStack(EncodeStack(s) + rest, maxElements)
         == if |s| <= maxElements then Ok((EraseAll(s), rest)) else Err(TooManyElements)
  {
    var body := EncodeMany(s) + rest;
    UsizeRoundTrip(|s|, body);
    Assoc(EncodeUsize(|s|), EncodeMany(s), rest);
    ManyRoundTrip(s, rest);
    DecodeCounted<D>(EncodeUsize(|s|) + body, |s|, body, maxElements);
  }

  lemma DecodeCounted<D>(b: Bytes, n: nat, body: Bytes, maxElements: nat)
    requires DecodeUsize(b) == Ok((n, body))
    ensures DecodeStack<D>(b, maxElements) == if n > maxElements then Err(TooManyElements) else DecodeMany(body, n)
  {
  }

  /** A reader whose budget is exactly the encoded stack counts elementSize bytes for each
      continuation, whatever it takes on the wire; it accepts exactly the stacks that are that long. */
  lemma BudgetedRoundTrip<D>(s: seq<Continuation<nat, D>>, total: nat, elementSize: nat, maxElements: nat)
    requires AllOnWire(s) && total == |EncodeMany(s)| && elementSize > 0
    requires elementSize * maxElements <= total < elementSize * maxElements + elementSize
    ensures DecodeStack<D>(EncodeStack(s), maxElements).Ok? <==> |s| * elementSize <= total
  {
    StackRoundTrip(s, [], maxElements);
    assert EncodeStack(s) + [] == EncodeStack(s);
    QuotientAtLeast(|s|, total, elementSize, maxElements, total - elementSize * maxElements);
  }

  lemma QuotientAtLeast(n: nat, total: nat, size: nat, q: nat, r: int)
    requires size > 0 && total == size * q + r && 0 <= r < size
    ensures n <= q <==> n * size <= total
  {
    if n < q {
      TimesLess(n, q, size);
    } else if q + 1 < n {
      TimesLess(q + 1, n, size);
    }
  }

  /** Two stacks look the same on the wire exactly when they differ in debug information only. */
  lemma SameOnWire<D>(s: seq<Continuation<nat, D>>, s': seq<Continuation<nat, D>>)
    requires AllOnWire(s) && AllOnWire(s')
    ensures EncodeStack(s) == EncodeStack(s') <==> EraseAll(s) == EraseAll(s')
  {
    if EncodeStack(s) == EncodeStack(s') {
      StackRoundTrip(s, [], MAX_U64);
      StackRoundTrip(s', [], MAX_U64);
    }
    if EraseAll(s) == EraseAll(s') {
      ErasedSame(s, s');
    }
  }

  lemma {:induction false} ErasedSame<D>(s: seq<Continuation<nat, D>>, s': seq<Continuation<nat, D>>)
    requires AllOnWire(s) && AllOnWire(s') && EraseAll(s) == EraseAll(s')
    ensures |s| == |s'| && EncodeMany(s) == EncodeMany(s')
  {
    if s != [] && s' != [] {
      assert EraseAll(s)[0] == Erase(s[0]) && EraseAll(s')[0] == Erase(s'[0]);
      assert EraseAll(s)[1..] == EraseAll(s[1..]) && EraseAll(s')[1..] == EraseAll(s'[1..]);
      ErasedSame(s[1..], s'[1..]);
    }
  }

  // Layout, and what a reader makes of a part
  // ----------------------------------------------------------------------------

  /** The first byte of each kind of continuation. */
  lemma WireTags<D>(c: Continuation<nat, D>)
    requires OnWire(c)
    ensures var tag := Encode(c)[0];
            && (tag == 0 <==> c.StartNode?) && (tag == 1 <==> c.FinishJoin?) && (tag == 2 <==> c.FinishSplit?) && (tag == 3 <==> c.FinishLoop?)
            && (tag == 4 <==> c.FinishCall?) && (tag == 5 <==> c.FinishDyn?) && (tag == 6 <==> c.ResumeBasicBlock?) && (tag == 7 <==> c.Respan?)
            && (tag == 8 <==> c.FinishBasicBlock?) && (tag == 9 <==> c.EnterForest?)
    ensures !c.ResumeBasicBlock? && !c.Respan? && !c.EnterForest? ==> |Encode(c)| == 5
  {
  }

  lemma WordPrefix(b: Bytes, k: nat, n: nat)
    requires k <= |b| && n <= |b|
    ensures ReadWord(b[..n], k) == if n < k then Err(UnexpectedEof) else Ok((FromLittleEndian(b[..k]), b[k..n]))
  {
    if k <= n {
      assert b[..n][..k] == b[..k] && b[..n][k..] == b[k..n];
    }
  }

  /** What is left of a remainder when n bytes of the input are left. */
  function Part<T>(n: nat, used: nat, x: T, rest: Bytes): Parsed<T>
    requires n <= used + |rest|
  {
    if n < used then Err(UnexpectedEof) else Ok((x, rest[..n - used]))
  }

  lemma UsizePrefix(b: Bytes, n: nat, x: nat, rest: Bytes)
    requires DecodeUsize(b) == Ok((x, rest)) && n <= |b|
    ensures |rest| < |b| && DecodeUsize(b[..n]) == Part(n, |b| - |rest|, x, rest)
  {
    var len := TrailingZeros(b[0], 8) + 1;
    if n > 0 {
      assert b[..n][0] == b[0];
      if len == 9 {
        WordPrefix(b[1..], WORD_BYTES, n - 1);
        assert b[..n][1..] == b[1..][..n - 1];
        if n >= 9 {
          assert b[1..][WORD_BYTES..n - 1] == rest[..n - 9];
        }
      } else {
        WordPrefix(b, len, n);
        if n >= len {
          assert b[len..n] == rest[..n - len];
        }
      }
    }
  }

  lemma SimplePrefix<D>(b: Bytes, n: nat)
    requires |b| >= 5 && n <= |b| && (b[0] <= 5 || b[0] == 8)
    ensures Decode<D>(b) == Ok((Simple(b[0], FromLittleEndian(b[1..5])), b[5..]))
    ensures Decode<D>(b[..n]) == Part(n, 5, Simple<D>(b[0], FromLittleEndian(b[1..5])), b[5..])
  {
    WordPrefix(b[1..], ID_BYTES, |b| - 1);
    assert b[1..][..|b| - 1] == b[1..] && b[1..][..4] == b[1..5] && b[1..][4..|b| - 1] == b[5..];
    if n > 0 {
      WordPrefix(b[1..], ID_BYTES, n - 1);
      assert b[..n][0] == b[0] && b[..n][1..] == b[1..][..n - 1];
      if n >= 5 {
        assert b[1..][4..n - 1] == b[5..][..n - 5];
      }
    }
  }

  /** The id and the bytes after it. */
  lemma IdPrefix(b: Bytes, n: nat)
    requires |b| >= 5 && 5 <= n <= |b|
    ensures b[..n][0] == b[0] && ReadWord(b[1..], ID_BYTES) == Ok((FromLittleEndian(b[1..5]), b[5..]))
    ensures ReadWord(b[..n][1..], ID_BYTES) == Ok((FromLittleEndian(b[1..5]), b[5..][..n - 5]))
  {
    assert b[1..][..4] == b[1..5] && b[1..][4..] == b[5..];
    WordPrefix(b[1..], ID_BYTES, n - 1);
    assert b[..n][1..] == b[1..][..n - 1] && b[1..][4..n - 1] == b[5..][..n - 5];
  }

  lemma ShortPrefix<D>(b: Bytes, n: nat)
    requires n < 5 && n <= |b| && (b != [] ==> b[0] <= 9)
    ensures Decode<D>(b[..n]) == Err(UnexpectedEof)
  {
    if n > 0 {
      assert b[..n][0] == b[0] && |b[..n][1..]| < 4;
    }
  }

  lemma IndexedPrefix<D>(b: Bytes, n: nat, c: Continuation<nat, D>, rest: Bytes)
    requires Decode(b) == Ok((c, rest)) && n <= |b| && (c.Respan? || c.EnterForest?) && b[0] != 6
    ensures |rest| < |b| && Decode(b[..n]) == Part(n, |b| - |rest|, c, rest)
  {
    IdPrefix(b, |b|);
    var x := if c.Respan? then c.batchIndex else c.inlineContextDepth;
    UsizePrefix(b[5..], if n < 5 then 0 else n - 5, x, rest);
    if n < 5 {
      ShortPrefix<D>(b, n);
    } else {
      IdPrefix(b, n);
    }
  }

  lemma ResumePrefix<D>(b: Bytes, n: nat, c: Continuation<nat, D>, rest: Bytes, r1: Bytes)
    requires b != [] && b[0] == 6 && |b| >= 5 && Decode(b) == Ok((c, rest)) && n <= |b| && c.ResumeBasicBlock?
    requires DecodeUsize(b[5..]) == Ok((c.batchIndex, r1)) && DecodeUsize(r1) == Ok((c.opIdxInBatch, rest))
    ensures |rest| < |b| && Decode(b[..n]) == Part(n, |b| - |rest|, c, rest)
  {
    var used := |b| - 5 - |r1|;
    UsizePrefix(b[5..], if n < 5 then 0 else n - 5, c.batchIndex, r1);
    UsizePrefix(r1, if n < 5 + used then 0 else n - 5 - used, c.opIdxInBatch, rest);
    if n < 5 {
      ShortPrefix<D>(b, n);
    } else {
      IdPrefix(b, n);
      IdPrefix(b, |b|);
    }
  }

  /** Reading a continuation from the first n bytes: the end of input comes too early, or the same continuation is read. */
  lemma DecodePrefix<D>(b: Bytes, n: nat, c: Continuation<nat, D>, rest: Bytes)
    requires Decode(b) == Ok((c, rest)) && n <= |b|
    ensures |rest| < |b| && Decode(b[..n]) == Part(n, |b| - |rest|, c, rest)
  {
    if b[0] <= 5 || b[0] == 8 {
      SimplePrefix<D>(b, n);
    } else if b[0] == 6 {
      IdPrefix(b, |b|);
      var (x, r1) := DecodeUsize(b[5..]).value;
      ResumePrefix(b, n, c, rest, r1);
    } else {
      IndexedPrefix(b, n, c, rest);
    }
  }

  lemma ManyUnfold<D>(b: Bytes, k: nat, c: Continuation<nat, D>, r0: Bytes)
    requires k > 0 && Decode(b) == Ok((c, r0))
    ensures DecodeMany<D>(b, k).Ok? <==> DecodeMany<D>(r0, k - 1).Ok?
    ensures DecodeMany<D>(r0, k - 1).Ok? ==>
              DecodeMany(b, k) == Ok(([c] + DecodeMany<D>(r0, k - 1).value.0, DecodeMany<D>(r0, k - 1).value.1))
    ensures DecodeMany<D>(r0, k - 1).Err? ==> DecodeMany<D>(b, k) == Err(DecodeMany<D>(r0, k - 1).error)
  {
  }

  lemma {:induction false} ManyPrefix<D>(b: Bytes, k: nat, n: nat, cs: seq<Continuation<nat, D>>, rest: Bytes)
    requires DecodeMany(b, k) == Ok((cs, rest)) && n <= |b|
    ensures |rest| <= |b| && DecodeMany(b[..n], k) == Part(n, |b| - |rest|, cs, rest)
    decreases k
  {
    if k == 0 {
      assert b[..n] == rest[..n];
    } else {
      var (c, r0) := Decode<D>(b).value;
      ManyUnfold(b, k, c, r0);
      DecodePrefix(b, n, c, r0);
      var used := |b| - |r0|;
      var m := if n < used then 0 else n - used;
      ManyPrefix(r0, k - 1, m, DecodeMany<D>(r0, k - 1).value.0, rest);
      if n >= used {
        ManyUnfold(b[..n], k, c, r0[..m]);
      }
    }
  }

  /** A stack that is cut short anywhere is refused. */
  lemma TruncatedIsRefused<D>(s: seq<Continuation<nat, D>>, n: nat, maxElements: nat)
    requires AllOnWire(s) && n < |EncodeStack(s)|
    ensures DecodeStack<D>(EncodeStack(s)[..n], maxElements).Err?
    ensures |s| <= maxElements ==> DecodeStack<D>(EncodeStack(s)[..n], maxElements) == Err(UnexpectedEof)
  {
    var b, body := EncodeStack(s), EncodeMany(s);
    UsizeRoundTrip(|s|, body);
    UsizePrefix(b, n, |s|, body);
    var used := |b| - |body|;
    if n >= used {
      ManyRoundTrip(s, []);
      assert body + [] == body;
      ManyPrefix(body, |s|, n - used, EraseAll(s), []);
    }
  }
}
