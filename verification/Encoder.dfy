/** The sliding-window encoder (window.go): a ring of the newest symbols, and repairs over them. */
module Encoder {
  import opened Gf256
  import opened Vectors
  import opened Ids
  import opened Knowledge
  import opened Coefficients
  import opened DecoderSteps

  /** The ring's length is a power of two, so it divides the range of identifiers. */
  predicate RingSize(n: int) {
    n == 1 || n == 2 || n == 4 || n == 8 || n == 16 || n == 32 || n == 64 || n == 128 || n == 256
  }

  function Pow2(k: nat): nat { if k == 0 then 1 else 2 * Pow2(k - 1) }

  ghost predicate IsPower(size: nat) {
    exists k: nat :: size == Pow2(k)
  }

  /** The smallest power of two that holds n; past 2^62 the source's shift leaves the width of its
      integers. */
  method RoundUpPowerOfTwo(n: int) returns (size: nat)
    requires n <= 0x4000_0000_0000_0000
    ensures IsPower(size)
    ensures n <= size && (size > 1 ==> size < 2 * n)
  {
    size := 1;
    ghost var k := 0;
    while size < n
      invariant size == Pow2(k) && (size > 1 ==> size < 2 * n)
      decreases n - size
    {
      size := 2 * size;
      k := k + 1;
    }
  }

  /** The powers of two up to the widest repair are the sizes of a ring. */
  lemma SmallPower(size: nat)
    requires size < 2 * MAX_REPAIR_WINDOW && IsPower(size)
    ensures RingSize(size)
  {
    var k: nat :| size == Pow2(k);
    if k > 9 { PowerGrows(k - 9, k); }
    assert Pow2(1) == 2 && Pow2(2) == 4 && Pow2(3) == 8 && Pow2(4) == 16 && Pow2(5) == 32;
    assert Pow2(6) == 64 && Pow2(7) == 128 && Pow2(8) == 256 && Pow2(9) == 512;
  }

  lemma {:induction false} PowerGrows(j: nat, k: nat)
    requires j <= k
    ensures Pow2(k) >= Pow2(k - j) >= 1
  {
    if j > 0 { PowerGrows(j - 1, k - 1); }
    if k > 0 { PowerGrows(0, k - 1); }
  }

  /** The size of the ring for a capacity asked for. */
  function RingFor(capacity: int): nat {
    if capacity <= 1 then 1 else if capacity <= 2 then 2 else if capacity <= 4 then 4 else if capacity <= 8 then 8
    else if capacity <= 16 then 16 else if capacity <= 32 then 32 else if capacity <= 64 then 64
    else if capacity <= 128 then 128 else 256
  }

  lemma RingIsFor(capacity: int, size: nat)
    requires RingSize(size) && (capacity <= size || size == MAX_REPAIR_WINDOW) && (size > 1 ==> size < 2 * capacity)
    ensures size == RingFor(capacity)
  {}

  lemma RingBounds(n: int)
    requires RingSize(n)
    ensures 0 < n <= MAX_REPAIR_WINDOW
  {}

  /** A ring of such a size finds a position's slot from its wrapped identifier. */
  lemma RingSlot(p: int, size: nat)
    requires RingSize(size)
    ensures Wrap(p) % size == p % size
  {
    assert MODULUS % size == 0;
    SlotOfWrap(p, size);
  }

  /** Positions nearer to each other than the size fall into different slots. */
  lemma RingDistinct(p: int, q: int, size: nat)
    requires size > 0 && p < q < p + size
    ensures p % size != q % size
  {
    var k := q / size - p / size;
    assert size * k == (q - p) - (q % size - p % size);
    assert k >= 1 ==> size * k >= size;
    assert k <= 0 ==> size * k <= 0;
  }

  /** The length of the longest of the newest n symbols. */
  function Longest(sent: seq<seq<byte>>, n: nat): nat
    requires n <= |sent|
  {
    if n == 0 then 0
    else
      var rest := Longest(sent[..|sent| - 1], n - 1);
      if |sent[|sent| - 1]| > rest then |sent[|sent| - 1]| else rest
  }

  /** The symbols sent, as a stream with nothing before it and after it. */
  ghost function StreamOf(sent: seq<seq<byte>>): int -> seq<byte> {
    p => if 0 <= p < |sent| then sent[p] else []
  }

  lemma AtAddScaled(c: byte, input: seq<byte>, out: seq<byte>, j: nat)
    requires |input| <= |out|
    ensures At(AddScaled(c, input, out), j) == Xor(At(out, j), Mul(c, At(input, j)))
  {
    assert Ensure(out, |input|) == out;
    AtCombine(c, input, out, j);
  }

  lemma AtZeros(n: nat, j: nat)
    ensures At(seq(n, _ => ZERO), j) == ZERO
  {}

  class WindowEncoder {
    var ring: seq<seq<byte>>
    var first: uint32
    var next: uint32
    var held: nat
    // Every symbol ever taken, and how many had been when the window was last reset.
    ghost var sent: seq<seq<byte>>
    ghost var resetAt: nat

    /** The ring holds exactly the newest held symbols, each in its identifier's slot. */
    ghost predicate Valid()
      reads this
    {
      && RingSize(|ring|)
      && next == Wrap(|sent|) && first == Wrap(|sent| - held)
      && resetAt + held <= |sent| && held <= |ring|
      && forall p :: |sent| - held <= p < |sent| ==> ring[p % |ring|] == sent[p]
    }

    /** A window for a number of symbols, holding none yet. */
    constructor (capacity: int)
      ensures Valid() && sent == [] && held == 0 && resetAt == 0 && |ring| == RingFor(capacity)
    {
      var size := RoundUpPowerOfTwo(if capacity > MAX_REPAIR_WINDOW then MAX_REPAIR_WINDOW else capacity);
      SmallPower(size);
      RingIsFor(capacity, size);
      ring := seq(size, _ => []);
      first, next, held, sent, resetAt := 0, 0, 0, [], 0;
    }

    /** Changes how far back a repair may reach, keeping the newest symbols that still fit. */
    method SetCapacity(capacity: int)
      requires Valid()
      modifies this`ring, this`first, this`held
      ensures Valid()
      ensures held == if |ring| < old(held) then |ring| else old(held)
      ensures capacity <= |ring| || |ring| == MAX_REPAIR_WINDOW
      ensures |ring| > 1 ==> |ring| < 2 * capacity
      ensures |ring| == RingFor(capacity)
    {
      hide RingFor;
      hide Wrap, Plus, RingSize, IsPower;
      RingBounds(|ring|);
      var wanted := if capacity > MAX_REPAIR_WINDOW then MAX_REPAIR_WINDOW else capacity;
      var size := RoundUpPowerOfTwo(wanted);
      SmallPower(size);
      RingIsFor(capacity, size);
      RingBounds(size);
      if size == |ring| {
        return;
      }
      var resized: seq<seq<byte>> := seq(size, _ => []);
      var keep := if held > size then size else held;
      ghost var p := |sent| - keep;
      PlusOfWrap(|sent|, -keep);
      var from := Plus(next, -keep);
      for i := 0 to keep
        modifies {}
        invariant |resized| == size
        invariant forall q :: p <= q < p + i ==> resized[q % size] == sent[q]
      {
        PlusOfWrap(p, i);
        RingSlot(p + i, size); RingSlot(p + i, |ring|);
        forall q | p <= q < p + i ensures q % size != (p + i) % size { RingDistinct(q, p + i, size); }
        var esi := Plus(from, i);
        resized := resized[esi % size := ring[esi % |ring|]];
      }
      ring, first, held := resized, from, keep;
    }

    /** Drops every symbol held, keeping the capacity. */
    method Reset()
      requires Valid()
      modifies this`ring, this`first, this`held, this`resetAt
      ensures Valid() && held == 0 && resetAt == |sent| && |ring| == old(|ring|)
    {
      ring := seq(|ring|, _ => []);
      first := next;
      held := 0;
      resetAt := |sent|;
    }

    /** Takes a symbol into the window and returns its identifier. */
    method Add(vector: seq<byte>) returns (esi: uint32)
      requires Valid()
      modifies this`ring, this`first, this`next, this`held, this`sent
      ensures Valid() && sent == old(sent) + [vector] && esi == Wrap(|old(sent)|)
      ensures |ring| == old(|ring|) && held == if old(held) < |ring| then old(held) + 1 else |ring|
    {
      esi := next;
      PlusOfWrap(|sent|, 1); PlusOfWrap(|sent| - held, 1);
      RingSlot(|sent|, |ring|);
      forall q | |sent| - held <= q < |sent| && |sent| < q + |ring| ensures q % |ring| != |sent| % |ring| {
        RingDistinct(q, |sent|, |ring|);
      }
      next := Plus(next, 1);
      ring := ring[esi % |ring| := vector];
      sent := sent + [vector];
      if held < |ring| {
        held := held + 1;
      } else {
        first := Plus(first, 1);
      }
    }

    /** The length of the longest of the newest n symbols, read from the ring. */
    method SpanLength(from: uint32, n: nat) returns (vlen: nat)
      requires Valid() && n <= held && from == Wrap(|sent| - n)
      ensures vlen == Longest(sent, n)
      ensures forall q :: |sent| - n <= q < |sent| ==> |sent[q]| <= vlen
    {
      hide Wrap, Plus, RingSize;
      RingBounds(|ring|);
      ghost var p := |sent| - n;
      vlen := 0;
      for i := 0 to n
        invariant vlen == Longest(sent[..p + i], i)
        invariant forall q :: p <= q < p + i ==> |sent[q]| <= vlen
      {
        PlusOfWrap(p, i); RingSlot(p + i, |ring|);
        assert sent[..p + i + 1][..p + i] == sent[..p + i];
        var size := |ring[Plus(from, i) % |ring|]|;
        if size > vlen { vlen := size; }
      }
      assert sent[..p + n] == sent;
    }

    /** The combination of the newest n symbols, accumulated over the ring. */
    method Accumulate(rid: uint32, from: uint32, n: nat, vlen: nat) returns (vector: seq<byte>)
      requires Valid() && n <= held && from == Wrap(|sent| - n)
      requires forall q :: |sent| - n <= q < |sent| ==> |sent[q]| <= vlen
      ensures |vector| == vlen
      ensures forall j: nat :: At(vector, j) == Combination(TruthOf(StreamOf(sent))(j), rid, |sent| - n, n)
    {
      hide WindowCoefficient, Wrap, Plus, Xor, Mul, AddScaled, At, RingSize;
      RingBounds(|ring|);
      ghost var p := |sent| - n;
      vector := seq(vlen, _ => ZERO);
      ghost var truth := TruthOf(StreamOf(sent));
      forall j: nat ensures At(vector, j) == ZERO { AtZeros(vlen, j); }
      for i := 0 to n
        invariant |vector| == vlen
        invariant forall j: nat :: At(vector, j) == Combination(truth(j), rid, p, i)
      {
        PlusOfWrap(p, i); RingSlot(p + i, |ring|);
        var input := ring[Plus(from, i) % |ring|];
        assert input == sent[p + i];
        var c := WindowCoefficient(rid, i);
        forall j: nat ensures At(AddScaled(c, input, vector), j) == Combination(truth(j), rid, p, i + 1) {
          AtAddScaled(c, input, vector, j);
          assert truth(j)(p + i) == At(sent[p + i], j);
        }
        vector := AddScaled(c, input, vector);
      }
    }

    /** A repair over the newest count symbols, or over all held when count is zero or too large. */
    method Repair(rid: uint32, count: int) returns (ok: bool, r: RepairSymbol)
      requires Valid()
      ensures ok <==> held > 0
      ensures ok ==>
        && r.rid == rid && r.count == (if 0 < count <= held then count else held)
        && r.first == Wrap(|sent| - r.count)
        && |r.vector| == Longest(sent, r.count)
        && IsCombination(r, |sent| - r.count, TruthOf(StreamOf(sent)))
    {
      hide Wrap, Combination, Longest;
      if held == 0 {
        return false, RepairSymbol(0, 0, 0, []);
      }
      var n := if count <= 0 || count > held then held else count;
      if n > MAX_REPAIR_WINDOW { n := MAX_REPAIR_WINDOW; }
      PlusOfWrap(|sent|, -n);
      var from := Plus(next, -n);
      var vlen := SpanLength(from, n);
      var vector := Accumulate(rid, from, n, vlen);
      return true, RepairSymbol(rid, from, n, vector);
    }
  }
}
