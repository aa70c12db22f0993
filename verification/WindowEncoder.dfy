/** The sender's window of recent source symbols, from which a repair can be built at any time. */
module WindowEncoder {
  import opened GaloisField
  import opened LinearSystem
  import opened SymbolIds
  import opened Coefficients
  import opened DecoderModel
  import opened DecoderSemantics
  import opened DecoderRuns

  /** Doubles size until it is at least n. */
  function RoundedUp(n: int, size: nat): (r: nat)
    requires size > 0
    ensures r >= n && r >= size
    decreases n - size
  {
    if size >= n then size else RoundedUp(n, 2 * size)
  }

  /** The smallest power of two that is at least n, and at least one. */
  method RoundUpPowerOfTwo(n: int) returns (size: nat)
    ensures size == RoundedUp(n, 1) && n <= size && PowerOfTwo(size) && (size == 1 || size / 2 < n)
  {
    size := 1;
    while size < n
      invariant size > 0 && PowerOfTwo(size) && (size == 1 || size / 2 < n) && RoundedUp(n, size) == RoundedUp(n, 1)
      decreases n - size
    {
      size := 2 * size;
    }
  }

  /** Within the widest repair the ring has one of the sizes that divide 2^32. */
  lemma RingIsSmall(n: int)
    requires n <= MAX_REPAIR_WINDOW
    ensures RingSize(RoundedUp(n, 1)) && RoundedUp(n, 1) <= MAX_REPAIR_WINDOW
  {
    if n > 16 {
      assert RoundedUp(n, 1) == RoundedUp(n, 2) == RoundedUp(n, 4) == RoundedUp(n, 8) == RoundedUp(n, 16);
      assert RoundedUp(n, 16) == RoundedUp(n, 32);
      assert n > 32 ==> RoundedUp(n, 32) == RoundedUp(n, 64);
      assert n > 64 ==> RoundedUp(n, 64) == RoundedUp(n, 128);
      assert n > 128 ==> RoundedUp(n, 128) == RoundedUp(n, 256);
    } else {
      assert n > 1 ==> RoundedUp(n, 1) == RoundedUp(n, 2);
      assert n > 2 ==> RoundedUp(n, 2) == RoundedUp(n, 4);
      assert n > 4 ==> RoundedUp(n, 4) == RoundedUp(n, 8);
      assert n > 8 ==> RoundedUp(n, 8) == RoundedUp(n, 16);
    }
  }

  /** The ring a capacity asks for. */
  function RingFor(capacity: int): nat {
    RoundedUp(if capacity > MAX_REPAIR_WINDOW then MAX_REPAIR_WINDOW else capacity, 1)
  }

  /** The sizes a ring can have; each divides 2^32. */
  predicate RingSize(n: nat) {
    n == 1 || n == 2 || n == 4 || n == 8 || n == 16 || n == 32 || n == 64 || n == 128 || n == 256
  }

  lemma RingIndex(k: nat, size: nat)
    requires RingSize(size)
    ensures Wrap(k) % size == k % size
  {
    var ratio := RingsPerWrap(size);
    var q := k / MODULUS;
    assert Wrap(k) == k - q * MODULUS;
    assert q * MODULUS == q * ratio * size;
    RemainderOfSum(k, -(q * ratio), size);
  }

  lemma RingsPerWrap(size: nat) returns (ratio: nat)
    requires RingSize(size)
    ensures ratio * size == MODULUS
  {
    ratio := MODULUS / size;
    if size == 1 || size == 2 || size == 4 || size == 8 || size == 16 {
    } else {
    }
  }

  /** Everything sent so far, as a stream; nothing exists outside it. */
  function Sent(symbols: seq<Vector>): Stream {
    id => if 0 <= id < |symbols| then symbols[id] else []
  }

  /** The repair symbol as the encoder hands it over. */
  datatype RepairSymbol = RepairSymbol(rid: Id, first: Id, count: nat, vector: Vector)

  /** The packet it stands for, given the true identifier of its first symbol. */
  function PacketOf(r: RepairSymbol, first: int): Packet {
    RepairPacket(first, WindowCoefficients(r.rid, r.count), r.vector)
  }

  class Encoder {
    var ring: seq<Vector>
    var first: Id
    var next: Id
    var held: nat
    /** Every symbol ever added. */
    ghost var symbols: seq<Vector>

    ghost predicate Valid()
      reads this
    {
      && RingSize(|ring|)
      && held <= |ring| && held <= |symbols|
      && next == Wrap(|symbols|) && first == Wrap(|symbols| - held)
      && Copied(ring, symbols, |symbols| - held, |symbols|)
    }

    constructor (capacity: int)
      ensures Valid() && symbols == [] && held == 0 && |ring| == RingFor(capacity)
    {
      ring := [];
      first, next, held, symbols := 0, 0, 0, [];
      new;
      var bounded := if capacity > MAX_REPAIR_WINDOW then MAX_REPAIR_WINDOW as int else capacity;
      var size := RoundUpPowerOfTwo(bounded);
      RingIsSmall(bounded);
      ring := seq(size, _ => []);
    }

    /** Changes how far back a repair may reach, keeping the newest symbols that still fit. */
    method SetCapacity(capacity: int)
      requires Valid()
      modifies this
      ensures Valid() && symbols == old(symbols)
      ensures |ring| == RingFor(capacity) <= MAX_REPAIR_WINDOW && (capacity <= MAX_REPAIR_WINDOW ==> capacity <= |ring|)
      ensures held == if old(held) <= |ring| then old(held) else |ring|
    {
      var bounded := if capacity > MAX_REPAIR_WINDOW then MAX_REPAIR_WINDOW as int else capacity;
      var size := RoundUpPowerOfTwo(bounded);
      RingIsSmall(bounded);
      if size == |ring| {
        return;
      }
      var keep := if held > size then size else held;
      var start := Wrap(next - keep);
      WrapMinusSmall(|symbols|, keep);
      ring := CopyNewest(ring, start, keep, size, symbols);
      first, held := start, keep;
    }

    /** Takes a source symbol into the window and returns its identifier. */
    method Add(vector: Vector) returns (esi: Id)
      requires Valid()
      modifies this
      ensures Valid() && symbols == old(symbols) + [vector] && ring != [] && |ring| == old(|ring|)
      ensures esi == Wrap(|old(symbols)|)
      ensures held == if old(held) < |ring| then old(held) + 1 else old(held)
    {
      esi := next;
      ghost var n := |symbols|;
      RingIndex(n, |ring|);
      next := Wrap(next + 1);
      WrapPlus(n, 1);
      WrapPlus(n - held, 1);
      ghost var from := if held < |ring| then n - held else n - held + 1;
      CopiedStep(ring, symbols, from, vector);
      ring := ring[esi % |ring| := vector];
      if held < |ring| {
        held := held + 1;
      } else {
        first := Wrap(first + 1);
      }
      symbols := symbols + [vector];
    }

    /** The span a repair over the newest count symbols covers, and how long its vector is. */
    method RepairBounds(count: int) returns (ok: bool, start: Id, span: nat, length: nat)
      requires Valid()
      ensures ok <==> held > 0
      ensures ok ==> span == if count <= 0 || count > held then held else count
      ensures ok ==> 0 < span <= held && start == Wrap(|symbols| - span)
      ensures ok ==> LongestOf(symbols, |symbols| - span, |symbols|, length)
      ensures ok ==> span == SpanFor(held, count)
    {
      ok, start, span, length := held > 0, 0, 0, 0;
      if !ok {
        return;
      }
      span := if count <= 0 || count > held then held else count;
      ghost var oldest := |symbols| - span;
      start := Wrap(next - span);
      WrapMinusSmall(|symbols|, span);
      var i := 0;
      while i < span
        invariant i <= span
        invariant LongestOf(symbols, oldest, oldest + i, length)
      {
        hide Copied, RingSize, Wrap, LongestOf;
        RingRead(ring, symbols, |symbols| - held, start, oldest, i);
        var n := |ring[Wrap(start + i) % |ring|]|;
        LongestOfNext(symbols, oldest, oldest + i, length);
        if n > length {
          length := n;
        }
        i := i + 1;
      }
    }

    /**
     A repair over the newest count symbols, or over everything held. Whatever is
     sent later, the equation it carries is true of the whole stream.
     */
    method Repair(rid: Id, count: int) returns (ok: bool, repair: RepairSymbol)
      requires Valid()
      ensures ok <==> held > 0
      ensures ok ==> 0 < repair.count <= held && repair.rid == rid && repair.count == SpanFor(held, count)
      ensures ok ==> repair.first == Wrap(|symbols| - repair.count)
      ensures ok ==> Genuine(Sent(symbols), PacketOf(repair, |symbols| - repair.count))
      ensures ok ==> PacketOf(repair, |symbols| - repair.count) == RepairOver(symbols, rid, repair.count)
    {
      hide LongestOf, Copied, RingSize, Wrap, RepairOver, PacketOf, Genuine;
      repair := RepairSymbol(rid, 0, 0, []);
      var start, span, length;
      ok, start, span, length := RepairBounds(count);
      if !ok {
        return;
      }
      hide Copied, Combination, Wrap, WindowCoefficients, RingSize, Genuine, PacketOf, Span, RepairOver, Longest,
           LongestOf, Sent;
      RingBound(|ring|);
      var vector := Combine(ring, start, span, length, rid, symbols, |symbols| - held);
      repair := RepairSymbol(rid, start, span, vector);
      BuiltRepair(symbols, repair);
    }
  }

  /** The length of the longest of these symbols. */
  ghost predicate LongestOf(symbols: seq<Vector>, from: nat, to: nat, length: nat) {
    && to <= |symbols| && (forall k :: from <= k < to ==> |symbols[k]| <= length)
    && (length == 0 || exists k :: from <= k < to && |symbols[k]| == length)
  }

  lemma LongestOfNext(symbols: seq<Vector>, from: nat, to: nat, length: nat)
    requires LongestOf(symbols, from, to, length) && from <= to < |symbols|
    ensures LongestOf(symbols, from, to + 1, if |symbols[to]| > length then |symbols[to]| else length)
  {
  }

  lemma RingBound(n: nat)
    requires RingSize(n)
    ensures n <= MAX_REPAIR_WINDOW
  {
  }

  /** The combination, as long as the longest symbol it covers, is the repair. */
  lemma BuiltRepair(symbols: seq<Vector>, r: RepairSymbol)
    requires 0 < r.count <= MAX_REPAIR_WINDOW && r.count <= |symbols|
    requires Combination(r.vector, WindowCoefficients(r.rid, r.count),
                         Span(Sent(symbols), |symbols| - r.count, r.count), r.count)
    requires LongestOf(symbols, |symbols| - r.count, |symbols|, |r.vector|)
    ensures Genuine(Sent(symbols), PacketOf(r, |symbols| - r.count))
    ensures PacketOf(r, |symbols| - r.count) == RepairOver(symbols, r.rid, r.count)
  {
    hide Combination, WindowCoefficients, Genuine, Span, RepairVector;
    SymbolIsGenuine(symbols, r);
    VectorIsCombination(symbols, r.rid, r.count, r.vector);
  }

  /** How many of the newest symbols a repair covers. */
  function SpanFor(held: nat, count: int): nat {
    if count <= 0 || count > held then held else count
  }

  /** Its vector: as long as the longest of them, each byte the sum of their multiples there. */
  function RepairVector(symbols: seq<Vector>, rid: Id, span: nat): Vector
    requires span <= |symbols|
  {
    var coefs, xs := WindowCoefficients(rid, span), symbols[|symbols| - span..];
    seq(Longest(xs), p requires 0 <= p => Sum(coefs, xs, p, span))
  }

  function RepairOver(symbols: seq<Vector>, rid: Id, span: nat): Packet
    requires span <= |symbols|
  {
    RepairPacket(|symbols| - span, WindowCoefficients(rid, span), RepairVector(symbols, rid, span))
  }

  lemma NewestSpan(symbols: seq<Vector>, span: nat)
    requires span <= |symbols|
    ensures symbols[|symbols| - span..] == Span(Sent(symbols), |symbols| - span, span)
  {
  }

  lemma {:induction false} LongestReached(xs: seq<Vector>)
    ensures Longest(xs) == 0 || exists k :: 0 <= k < |xs| && |xs[k]| == Longest(xs)
  {
    if xs != [] {
      LongestReached(xs[..|xs| - 1]);
    }
  }

  lemma LongestIs(xs: seq<Vector>, length: nat)
    requires forall k :: 0 <= k < |xs| ==> |xs[k]| <= length
    requires length == 0 || exists k :: 0 <= k < |xs| && |xs[k]| == length
    ensures length == Longest(xs)
  {
    hide Longest;
    LongestReached(xs);
  }

  lemma VectorIsCombination(symbols: seq<Vector>, rid: Id, span: nat, vector: Vector)
    requires span <= |symbols|
    requires Combination(vector, WindowCoefficients(rid, span), Span(Sent(symbols), |symbols| - span, span), span)
    requires LongestOf(symbols, |symbols| - span, |symbols|, |vector|)
    ensures vector == RepairVector(symbols, rid, span)
  {
    hide Sum, WindowCoefficient, Longest;
    NewestSpan(symbols, span);
    var xs := symbols[|symbols| - span..];
    if |vector| != 0 {
      var k :| |symbols| - span <= k < |symbols| && |symbols[k]| == |vector|;
      assert |xs[k - (|symbols| - span)]| == |vector|;
    }
    LongestIs(xs, |vector|);
  }

  /** The repair of any span of the newest symbols is genuine. */
  lemma RepairOverIsGenuine(symbols: seq<Vector>, rid: Id, span: nat)
    requires 0 < span <= |symbols| && span <= MAX_REPAIR_WINDOW
    ensures Genuine(Sent(symbols), RepairOver(symbols, rid, span))
  {
    hide Sum, WindowCoefficient, Genuine, Longest;
    NewestSpan(symbols, span);
    var xs := symbols[|symbols| - span..];
    LongestReached(xs);
    RepairIsGenuine(Sent(symbols), WindowCoefficients(rid, span), |symbols| - span, span,
                    RepairVector(symbols, rid, span));
  }

  /** The combination of the newest span symbols under repair rid's coefficients. */
  method Combine(
    ring: seq<Vector>, start: Id, span: nat, length: nat, rid: Id, ghost symbols: seq<Vector>, ghost from: nat)
    returns (vector: Vector)
    requires Copied(ring, symbols, from, |symbols|) && from + span <= |symbols| && start == Wrap(|symbols| - span)
    requires LongestOf(symbols, |symbols| - span, |symbols|, length)
    ensures |vector| == length
    ensures Combination(vector, WindowCoefficients(rid, span), Span(Sent(symbols), |symbols| - span, span), span)
  {
    ghost var oldest := |symbols| - span;
    ghost var coefs, xs := WindowCoefficients(rid, span), Span(Sent(symbols), oldest, span);
    hide WindowCoefficient, Copied, Wrap, Combination, Sum, LongestOf;
    vector := seq(length, _ => 0);
    NothingCombined(coefs, xs, length);
    LongestBounds(symbols, oldest, |symbols|, length);
    var i: nat := 0;
    while i < span
      invariant i <= span && |vector| == length && Combination(vector, coefs, xs, i)
    {
      RingRead(ring, symbols, from, start, oldest, i);
      var symbol := ring[Wrap(start + i) % |ring|];
      assert symbol == xs[i];
      AccumulateTerm(coefs, xs, i, vector);
      vector := AddScaled(WindowCoefficient(rid, i), symbol, vector);
      i := i + 1;
    }
  }

  lemma NothingCombined(coefs: seq<Byte>, xs: seq<Vector>, length: nat)
    requires |coefs| == |xs|
    ensures Combination(seq(length, _ => 0), coefs, xs, 0)
  {
  }

  lemma LongestBounds(symbols: seq<Vector>, from: nat, to: nat, length: nat)
    requires LongestOf(symbols, from, to, length)
    ensures to <= |symbols| && forall k :: from <= k < to ==> |symbols[k]| <= length
  {
  }

  /** Each byte of the vector is the sum of the first n terms there. */
  ghost predicate Combination(vector: Vector, coefs: seq<Byte>, xs: seq<Vector>, n: nat) {
    n <= |coefs| == |xs| && forall p :: 0 <= p < |vector| ==> vector[p] == Sum(coefs, xs, p, n)
  }

  /** The ring holds the symbols from..to, each at its identifier's place. */
  ghost predicate Copied(ring: seq<Vector>, symbols: seq<Vector>, from: nat, to: nat) {
    RingSize(|ring|) && to <= |symbols| && forall k :: from <= k < to ==> ring[k % |ring|] == symbols[k]
  }

  lemma CopiedAt(ring: seq<Vector>, symbols: seq<Vector>, from: nat, to: nat, k: nat)
    requires Copied(ring, symbols, from, to) && from <= k < to
    ensures k % |ring| < |ring| && ring[k % |ring|] == symbols[k]
  {
  }

  /** Writing the next symbol in its place disturbs none of the others. */
  lemma CopiedNext(ring: seq<Vector>, symbols: seq<Vector>, from: nat, to: nat)
    requires Copied(ring, symbols, from, to) && from <= to < |symbols| && to - from < |ring|
    ensures to % |ring| < |ring| && Copied(ring[to % |ring| := symbols[to]], symbols, from, to + 1)
  {
    forall k | from <= k < to
      ensures k % |ring| != to % |ring|
    {
      RemaindersDiffer(k, to, |ring|);
    }
  }

  lemma CopiedStep(ring: seq<Vector>, symbols: seq<Vector>, from: nat, v: Vector)
    requires Copied(ring, symbols, from, |symbols|) && from <= |symbols| && |symbols| - from < |ring|
    ensures |symbols| % |ring| < |ring|
    ensures Copied(ring[|symbols| % |ring| := v], symbols + [v], from, |symbols| + 1)
  {
    assert Copied(ring, symbols + [v], from, |symbols|);
    CopiedNext(ring, symbols + [v], from, |symbols|);
  }

  /** A ring of the given size holding the newest keep symbols of another. */
  method CopyNewest(ring: seq<Vector>, start: Id, keep: nat, size: nat, ghost symbols: seq<Vector>)
    returns (resized: seq<Vector>)
    requires RingSize(size) && keep <= size && keep <= |symbols| && start == Wrap(|symbols| - keep)
    requires Copied(ring, symbols, |symbols| - keep, |symbols|)
    ensures |resized| == size && Copied(resized, symbols, |symbols| - keep, |symbols|)
  {
    resized := seq(size, _ => []);
    ghost var oldest := |symbols| - keep;
    var i := 0;
    while i < keep
      invariant i <= keep && |resized| == size && Copied(resized, symbols, oldest, oldest + i)
    {
      hide Copied, RingSize, Wrap;
      var esi := Wrap(start + i);
      WrapPlus(oldest, i);
      RingIndex(oldest + i, size);
      RingRead(ring, symbols, oldest, start, oldest, i);
      CopiedNext(resized, symbols, oldest, oldest + i);
      resized := resized[esi % size := ring[esi % |ring|]];
      i := i + 1;
    }
  }

  /** Reading the ring by a wrapped identifier finds the symbol itself. */
  lemma RingRead(ring: seq<Vector>, symbols: seq<Vector>, from: nat, start: Id, oldest: nat, i: nat)
    requires Copied(ring, symbols, from, |symbols|) && start == Wrap(oldest) && from <= oldest && oldest + i < |symbols|
    ensures |ring| > 0 && Wrap(start + i) % |ring| < |ring| && ring[Wrap(start + i) % |ring|] == symbols[oldest + i]
  {
    WrapPlus(oldest, i);
    RingIndex(oldest + i, |ring|);
    CopiedAt(ring, symbols, from, |symbols|, oldest + i);
  }

  lemma WrapMinusSmall(n: nat, k: nat)
    requires k <= n
    ensures Wrap(Wrap(n) - k) == Wrap(n - k)
  {
    WrapPlus(n, -(k as int));
  }

  /** Adding one more symbol's multiple extends the sum by one term. */
  lemma AccumulateTerm(coefs: seq<Byte>, xs: seq<Vector>, i: nat, vector: Vector)
    requires i < |coefs| == |xs| && |xs[i]| <= |vector| && Combination(vector, coefs, xs, i)
    ensures Combination(AddScaled(coefs[i], xs[i], vector), coefs, xs, i + 1)
  {
    hide Add, Mul, AddScaled;
    forall p | 0 <= p < |vector|
      ensures AddScaled(coefs[i], xs[i], vector)[p] == Sum(coefs, xs, p, i + 1)
    {
      AtAddScaled(coefs[i], xs[i], vector, p);
      assert At(AddScaled(coefs[i], xs[i], vector), p) == AddScaled(coefs[i], xs[i], vector)[p];
    }
  }

  lemma RepairIsGenuine(stream: Stream, coefs: seq<Byte>, first: int, count: nat, vector: Vector)
    requires 0 < |coefs| == count <= MAX_REPAIR_WINDOW
    requires forall k :: 0 <= k < count ==> |Span(stream, first, count)[k]| <= |vector|
    requires Combination(vector, coefs, Span(stream, first, count), count)
    ensures Genuine(stream, RepairPacket(first, coefs, vector))
  {
    hide Sum;
    forall p: nat
      ensures Sum(coefs, Span(stream, first, count), p, count) == At(vector, p)
    {
      if p >= |vector| {
        BeyondEveryLength(coefs, Span(stream, first, count), p, count);
      }
    }
  }

  lemma SymbolIsGenuine(symbols: seq<Vector>, r: RepairSymbol)
    requires 0 < r.count <= MAX_REPAIR_WINDOW && r.count <= |symbols|
    requires forall k :: |symbols| - r.count <= k < |symbols| ==> |symbols[k]| <= |r.vector|
    requires var first := |symbols| - r.count;
             Combination(r.vector, WindowCoefficients(r.rid, r.count), Span(Sent(symbols), first, r.count), r.count)
    ensures Genuine(Sent(symbols), PacketOf(r, |symbols| - r.count))
  {
    hide Combination, WindowCoefficient, Genuine;
    var first, coefs := |symbols| - r.count, WindowCoefficients(r.rid, r.count);
    RepairIsGenuine(Sent(symbols), coefs, first, r.count, r.vector);
  }

  /** What was true of a repair when it was built stays true however the stream goes on. */
  lemma GenuineForEver(symbols: seq<Vector>, later: seq<Vector>, pk: Packet)
    requires symbols <= later && pk.RepairPacket? && 0 <= pk.first && pk.first + |pk.coefs| <= |symbols|
    requires Genuine(Sent(symbols), pk)
    ensures Genuine(Sent(later), pk)
  {
    hide Sum;
    var n := |pk.coefs|;
    assert Span(Sent(symbols), pk.first, n) == Span(Sent(later), pk.first, n);
    forall p: nat
      ensures Sum(pk.coefs, Span(Sent(later), pk.first, n), p, n) == At(pk.vector, p)
    {
      assert Sum(pk.coefs, Span(Sent(symbols), pk.first, n), p, n) == At(pk.vector, p);
    }
  }
}
