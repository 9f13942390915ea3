/** The buffered segments of a reassembly as values: their order, their overlaps, the bytes they
    hold and the ranges they cover (reassembly.go). */
module Segments {
  import opened Wrappers
  import Bits8

  const MAX_UINT64 := 0xffff_ffff_ffff_ffff

  type Byte = Bits8.byte

  datatype Segment = Segment(sequence: nat, payload: seq<Byte>, final: bool, charged: bool)

  type Buffer = map<nat, Segment>

  /** One past the last byte; a FIN ends where it stands. */
  function End(s: Segment): nat {
    if s.final then s.sequence else s.sequence + |s.payload|
  }

  /** The segments are well formed and filed under where they start. */
  ghost predicate Filed(buffer: Buffer) {
    forall k :: k in buffer ==>
      && buffer[k].sequence == k && buffer[k].charged && (buffer[k].final <==> buffer[k].payload == [])
      && End(buffer[k]) <= MAX_UINT64
  }

  /** Two segments starting at different places overlap when the earlier one reaches past the start
      of the later one. */
  predicate Overlap(a: Segment, b: Segment) {
    if a.sequence < b.sequence then b.sequence < End(a) else a.sequence < End(b)
  }

  ghost predicate Apart(buffer: Buffer) {
    forall k, m :: k in buffer && m in buffer && k < m ==> End(buffer[k]) <= m
  }

  /** Starts in strictly increasing order. */
  ghost predicate Sorted(order: seq<nat>) {
    forall i, j :: 0 <= i < j < |order| ==> order[i] < order[j]
  }

  /** The order lists exactly the buffer's keys. */
  ghost predicate Lists(order: seq<nat>, buffer: Buffer) {
    Sorted(order) && forall k :: k in order <==> k in buffer
  }

  /** How many starts lie before s. */
  ghost predicate IsRank(order: seq<nat>, s: nat, at: nat) {
    at <= |order|
    && (forall i :: 0 <= i < at ==> order[i] < s)
    && (forall i :: at <= i < |order| ==> s <= order[i])
  }

  /** Position p lies in a buffered segment. */
  ghost predicate Covered(buffer: Buffer, p: nat) {
    exists k :: k in buffer && k <= p < End(buffer[k])
  }

  /** The payload bytes of the listed segments. */
  function Bytes(order: seq<nat>, buffer: Buffer): nat
    requires forall k :: k in order ==> k in buffer
  {
    if order == [] then 0
    else Bytes(order[..|order| - 1], buffer) + |buffer[order[|order| - 1]].payload|
  }

  lemma {:induction false} BytesSplit(a: seq<nat>, b: seq<nat>, buffer: Buffer)
    requires forall k :: k in a + b ==> k in buffer
    ensures (forall k :: k in a ==> k in a + b) && (forall k :: k in b ==> k in a + b)
    ensures Bytes(a + b, buffer) == Bytes(a, buffer) + Bytes(b, buffer)
  {
    assert forall k :: k in a ==> k in a + b;
    assert forall k :: k in b ==> k in a + b;
    if b == [] {
      assert a + b == a;
    } else {
      var n := |b| - 1;
      assert a + b == (a + b[..n]) + [b[n]];
      assert (a + b)[..|a + b| - 1] == a + b[..n];
      BytesSplit(a, b[..n], buffer);
    }
  }

  lemma {:induction false} BytesAgree(order: seq<nat>, b: Buffer, c: Buffer)
    requires forall k :: k in order ==> k in b && k in c && b[k] == c[k]
    ensures Bytes(order, b) == Bytes(order, c)
  {
    if order != [] { BytesAgree(order[..|order| - 1], b, c); }
  }

  function Insertion(order: seq<nat>, at: nat, s: nat): seq<nat>
    requires at <= |order|
  {
    order[..at] + [s] + order[at..]
  }

  lemma InsertionMembers(order: seq<nat>, at: nat, s: nat)
    requires at <= |order|
    ensures forall k :: k in Insertion(order, at, s) <==> k in order || k == s
    ensures forall k :: (k in order[..at] ==> k in order) && (k in order[at..] ==> k in order)
  {
    assert order == order[..at] + order[at..];
  }

  lemma InsertionSorted(order: seq<nat>, at: nat, s: nat)
    requires Sorted(order) && IsRank(order, s, at) && s !in order
    ensures Sorted(Insertion(order, at, s))
  {}

  /** Filing one more segment: still listed in order, and its bytes are added. */
  lemma InsertionLists(order: seq<nat>, buffer: Buffer, at: nat, s: Segment)
    requires Lists(order, buffer) && s.sequence !in buffer && IsRank(order, s.sequence, at)
    ensures var order' := Insertion(order, at, s.sequence);
            var buffer' := buffer[s.sequence := s];
            Lists(order', buffer') && Bytes(order', buffer') == Bytes(order, buffer) + |s.payload|
  {
    hide Sorted, Insertion;
    InsertionMembers(order, at, s.sequence);
    InsertionSorted(order, at, s.sequence);
    InsertionBytes(order, buffer, at, s);
  }

  lemma InsertionBytes(order: seq<nat>, buffer: Buffer, at: nat, s: Segment)
    requires at <= |order| && s.sequence !in buffer && forall k :: k in order ==> k in buffer
    ensures forall k :: k in Insertion(order, at, s.sequence) ==> k in buffer[s.sequence := s]
    ensures Bytes(Insertion(order, at, s.sequence), buffer[s.sequence := s]) == Bytes(order, buffer) + |s.payload|
  {
    var low, high, buffer' := order[..at], order[at..], buffer[s.sequence := s];
    InsertionMembers(order, at, s.sequence);
    assert order == low + high;
    BytesSplit(low, high, buffer);
    BytesSplit(low + [s.sequence], high, buffer');
    BytesSplit(low, [s.sequence], buffer');
    BytesAgree(low, buffer, buffer'); BytesAgree(high, buffer, buffer');
    BytesOne(s.sequence, buffer');
    hide Bytes;
  }

  lemma BytesOne(k: nat, buffer: Buffer)
    requires k in buffer
    ensures Bytes([k], buffer) == |buffer[k].payload|
  {
    assert [k][..0] == [];
  }

  function Removal(order: seq<nat>, at: nat): seq<nat>
    requires at < |order|
  {
    order[..at] + order[at + 1..]
  }

  lemma RemovalMembers(order: seq<nat>, at: nat)
    requires Sorted(order) && at < |order|
    ensures forall k :: k in Removal(order, at) <==> k in order && k != order[at]
    ensures forall k :: (k in order[..at] ==> k in order) && (k in order[at + 1..] ==> k in order)
    ensures Sorted(Removal(order, at))
  {
    assert order == order[..at] + [order[at]] + order[at + 1..];
    assert order[at] !in order[..at] && order[at] !in order[at + 1..];
  }

  /** Taking a segment out: still listed in order, and its bytes are subtracted. */
  lemma RemovalLists(order: seq<nat>, buffer: Buffer, at: nat)
    requires Lists(order, buffer) && at < |order|
    ensures order[at] in buffer
    ensures var s := order[at];
            && Lists(Removal(order, at), buffer - {s})
            && Bytes(Removal(order, at), buffer - {s}) == Bytes(order, buffer) - |buffer[s].payload|
  {
    hide Sorted, Removal;
    assert order[at] in order;
    RemovalMembers(order, at);
    RemovalBytes(order, buffer, at);
  }

  lemma RemovalBytes(order: seq<nat>, buffer: Buffer, at: nat)
    requires Sorted(order) && at < |order| && forall k :: k in order ==> k in buffer
    ensures order[at] in buffer && forall k :: k in Removal(order, at) ==> k in buffer - {order[at]}
    ensures Bytes(Removal(order, at), buffer - {order[at]}) == Bytes(order, buffer) - |buffer[order[at]].payload|
  {
    var s, low, high := order[at], order[..at], order[at + 1..];
    assert s in order;
    RemovalMembers(order, at);
    assert order == (low + [s]) + high;
    BytesSplit(low + [s], high, buffer);
    BytesSplit(low, [s], buffer);
    BytesSplit(low, high, buffer - {s});
    BytesAgree(low, buffer, buffer - {s}); BytesAgree(high, buffer, buffer - {s});
    BytesOne(s, buffer);
    hide Bytes;
  }

  /** A listed start is found at its rank. */
  lemma RankFinds(order: seq<nat>, s: nat, at: nat)
    requires Sorted(order) && IsRank(order, s, at) && s in order
    ensures at < |order| && order[at] == s
  {}

  // ---------------------------------------------------------------- the two neighbours

  /** What the neighbour check looks at: the segment before the insertion point and the one after. */
  predicate NeighboursClear(order: seq<nat>, buffer: Buffer, s: Segment, at: nat)
    requires at <= |order| && forall k :: k in order ==> k in buffer
  {
    && (at > 0 ==> End(buffer[order[at - 1]]) <= s.sequence)
    && (at < |order| ==> End(s) <= buffer[order[at]].sequence)
  }

  /** The two-neighbour check agrees with a scan of the whole buffer. */
  lemma NeighboursSuffice(order: seq<nat>, buffer: Buffer, s: Segment, at: nat)
    requires Lists(order, buffer) && Filed(buffer) && Apart(buffer)
    requires s.sequence !in buffer && IsRank(order, s.sequence, at)
    ensures NeighboursClear(order, buffer, s, at) <==> forall k :: k in buffer ==> !Overlap(buffer[k], s)
  {
    assert forall i :: 0 <= i < |order| ==> order[i] in order && order[i] in buffer;
    if NeighboursClear(order, buffer, s, at) {
      forall k | k in buffer ensures !Overlap(buffer[k], s) {
        assert k in order;
        var i :| 0 <= i < |order| && order[i] == k;
        if i < at - 1 {
          assert End(buffer[order[i]]) <= order[at - 1];
        }
      }
    }
  }

  /** Filing a segment that overlaps nothing keeps the segments apart. */
  lemma FilingApart(buffer: Buffer, s: Segment)
    requires Filed(buffer) && Apart(buffer) && s.sequence !in buffer
    requires forall k :: k in buffer ==> !Overlap(buffer[k], s)
    ensures Apart(buffer[s.sequence := s])
  {}

  // ---------------------------------------------------------------- the bytes accepted

  /** What has been accepted at each position. */
  type Ledger = nat -> Option<Byte>

  /** Position p lies in a payload placed at a sequence number. */
  predicate Carries(at: nat, payload: seq<Byte>, p: nat) {
    at <= p < at + |payload|
  }

  /** The ledger with a payload's bytes entered. */
  ghost function Enter(accepted: Ledger, at: nat, payload: seq<Byte>): Ledger {
    (p: nat) => if Carries(at, payload, p) then Some(payload[p - at]) else accepted(p)
  }

  /** The positions accepted are those below the cursor and those buffered. */
  ghost predicate Positions(next: nat, buffer: Buffer, accepted: Ledger) {
    forall p: nat :: accepted(p).Some? <==> p < next || Covered(buffer, p)
  }

  /** What was delivered is what was accepted, in order. */
  ghost predicate Delivered(delivered: seq<Byte>, accepted: Ledger) {
    forall p: nat :: p < |delivered| ==> accepted(p) == Some(delivered[p])
  }

  /** What is buffered is what was accepted. */
  ghost predicate Buffered(buffer: Buffer, accepted: Ledger) {
    forall k, p: nat ::
      k in buffer && k <= p < k + |buffer[k].payload| ==> accepted(p) == Some(buffer[k].payload[p - k])
  }

  /** The bytes accepted so far are those delivered, below the cursor, and those buffered; the
      delivered ones are the accepted ones, in order. */
  ghost predicate Accounts(next: nat, delivered: seq<Byte>, buffer: Buffer, accepted: Ledger) {
    && |delivered| == next && Positions(next, buffer, accepted) && Delivered(delivered, accepted)
    && Buffered(buffer, accepted)
  }

  lemma CoveredByMore(buffer: Buffer, s: Segment, p: nat)
    requires s.sequence !in buffer && (s.final ==> s.payload == [])
    ensures Covered(buffer[s.sequence := s], p) <==> Covered(buffer, p) || Carries(s.sequence, s.payload, p)
  {
    var buffer' := buffer[s.sequence := s];
    if Covered(buffer, p) {
      var k :| k in buffer && k <= p < End(buffer[k]);
      assert k in buffer';
    }
    if Carries(s.sequence, s.payload, p) { assert s.sequence in buffer'; }
  }

  lemma NotCarriedTwice(buffer: Buffer, s: Segment, p: nat)
    requires Filed(buffer) && s.sequence !in buffer && (s.final ==> s.payload == [])
    requires forall k :: k in buffer ==> !Overlap(buffer[k], s)
    ensures Carries(s.sequence, s.payload, p) ==> !Covered(buffer, p)
  {}

  lemma BufferedIsCovered(buffer: Buffer, k: nat, p: nat)
    requires Filed(buffer) && k in buffer && k <= p < k + |buffer[k].payload|
    ensures Covered(buffer, p)
  {
    assert k <= p < End(buffer[k]);
  }

  /** A segment that can be filed: past the cursor, and overlapping nothing. */
  ghost predicate Fits(next: nat, buffer: Buffer, s: Segment) {
    Filed(buffer) && s.sequence !in buffer && next <= s.sequence && (s.final ==> s.payload == [])
    && forall k :: k in buffer ==> !Overlap(buffer[k], s)
  }

  lemma FilingPositions(next: nat, buffer: Buffer, accepted: Ledger, s: Segment)
    requires Fits(next, buffer, s) && Positions(next, buffer, accepted)
    ensures Positions(next, buffer[s.sequence := s], Enter(accepted, s.sequence, s.payload))
    ensures forall p: nat :: Carries(s.sequence, s.payload, p) ==> accepted(p) == None
  {
    hide Overlap, Covered, Carries;
    forall p: nat
      ensures Enter(accepted, s.sequence, s.payload)(p).Some? <==> p < next || Covered(buffer[s.sequence := s], p)
      ensures Carries(s.sequence, s.payload, p) ==> accepted(p) == None
    {
      CoveredByMore(buffer, s, p); NotCarriedTwice(buffer, s, p); CarriedBeyond(next, s, p);
    }
  }

  lemma CarriedBeyond(next: nat, s: Segment, p: nat)
    requires next <= s.sequence
    ensures Carries(s.sequence, s.payload, p) ==> next <= p
  {}

  lemma FilingBuffered(next: nat, buffer: Buffer, accepted: Ledger, s: Segment)
    requires Fits(next, buffer, s) && Buffered(buffer, accepted)
    ensures Buffered(buffer[s.sequence := s], Enter(accepted, s.sequence, s.payload))
  {
    hide Overlap, Covered;
    var buffer' := buffer[s.sequence := s];
    forall k, p: nat | k in buffer' && k <= p < k + |buffer'[k].payload|
      ensures Enter(accepted, s.sequence, s.payload)(p) == Some(buffer'[k].payload[p - k])
    {
      if k != s.sequence {
        BufferedIsCovered(buffer, k, p); NotCarriedTwice(buffer, s, p);
        assert accepted(p) == Some(buffer[k].payload[p - k]);
      } else {
        assert Carries(s.sequence, s.payload, p);
      }
    }
  }

  /** Filing a segment that fits adds its bytes, all of them new. */
  lemma FilingAccounts(next: nat, delivered: seq<Byte>, buffer: Buffer, accepted: Ledger, s: Segment)
    requires Accounts(next, delivered, buffer, accepted) && Fits(next, buffer, s)
    ensures Accounts(next, delivered, buffer[s.sequence := s], Enter(accepted, s.sequence, s.payload))
    ensures forall p: nat :: Carries(s.sequence, s.payload, p) ==> accepted(p) == None
  {
    FilingPositions(next, buffer, accepted, s);
    FilingBuffered(next, buffer, accepted, s);
    hide Positions, Buffered, Carries;
    forall p: nat | p < |delivered| ensures Enter(accepted, s.sequence, s.payload)(p) == Some(delivered[p]) {
      CarriedBeyond(next, s, p);
    }
  }

  lemma CoveredByLess(next: nat, buffer: Buffer, p: nat)
    requires Filed(buffer) && Apart(buffer) && next in buffer && forall k :: k in buffer ==> next <= k
    ensures p < next + |buffer[next].payload| || Covered(buffer - {next}, p) <==> p < next || Covered(buffer, p)
  {
    var rest := buffer - {next};
    if next <= p < next + |buffer[next].payload| { BufferedIsCovered(buffer, next, p); }
    if Covered(rest, p) {
      var k :| k in rest && k <= p < End(rest[k]);
      assert k in buffer;
    }
    if Covered(buffer, p) {
      var k :| k in buffer && k <= p < End(buffer[k]);
      assert k != next ==> k in rest;
    }
  }

  /** Delivering the segment at the cursor moves its bytes from buffered to delivered. */
  lemma DeliveryAccounts(next: nat, delivered: seq<Byte>, buffer: Buffer, accepted: Ledger)
    requires Accounts(next, delivered, buffer, accepted) && Filed(buffer) && Apart(buffer) && next in buffer
    requires forall k :: k in buffer ==> next <= k
    ensures Accounts(next + |buffer[next].payload|, delivered + buffer[next].payload, buffer - {next}, accepted)
    ensures forall k :: k in buffer - {next} ==> next + |buffer[next].payload| <= k
  {
    hide Covered;
    forall p: nat
      ensures accepted(p).Some? <==> p < next + |buffer[next].payload| || Covered(buffer - {next}, p)
    {
      CoveredByLess(next, buffer, p);
    }
  }

  // ---------------------------------------------------------------- the store

  /** The segments held are filed, apart, listed in order, and their bytes are counted. */
  ghost predicate Stocked(buffer: Buffer, order: seq<nat>, bytes: nat) {
    Filed(buffer) && Apart(buffer) && Lists(order, buffer) && |order| == |buffer| && bytes == Bytes(order, buffer)
  }

  ghost predicate Beyond(cursor: nat, buffer: Buffer) {
    forall k :: k in buffer ==> cursor <= k
  }

  lemma StockMore(next: nat, buffer: Buffer, order: seq<nat>, bytes: nat, s: Segment, order': seq<nat>)
    requires Stocked(buffer, order, bytes) && Fits(next, buffer, s)
    requires s.charged && (s.final <==> s.payload == []) && End(s) <= MAX_UINT64
    requires Lists(order', buffer[s.sequence := s]) && |order'| == |order| + 1
    requires Bytes(order', buffer[s.sequence := s]) == Bytes(order, buffer) + |s.payload|
    ensures Stocked(buffer[s.sequence := s], order', bytes + |s.payload|)
  {
    hide Overlap, Bytes, Lists, Filed, Apart, End;
    FilingApart(buffer, s);
    FilingFiled(buffer, s);
    FilingSize(buffer, s);
  }

  lemma FilingFiled(buffer: Buffer, s: Segment)
    requires Filed(buffer) && s.charged && (s.final <==> s.payload == []) && End(s) <= MAX_UINT64
    ensures Filed(buffer[s.sequence := s])
  {
    hide End;
  }

  lemma FilingSize(buffer: Buffer, s: Segment)
    requires s.sequence !in buffer
    ensures |buffer[s.sequence := s]| == |buffer| + 1
  {}

  lemma RemovalSize(buffer: Buffer, k: nat)
    requires k in buffer
    ensures |buffer - {k}| == |buffer| - 1
  {
    assert buffer == (buffer - {k})[k := buffer[k]];
  }

  lemma RemovalKeeps(buffer: Buffer, k: nat)
    requires Filed(buffer) && Apart(buffer)
    ensures Filed(buffer - {k}) && Apart(buffer - {k})
  {
    var rest := buffer - {k};
    assert forall m :: m in rest ==> m in buffer && rest[m] == buffer[m];
  }

  lemma StockLess(buffer: Buffer, order: seq<nat>, bytes: nat, k: nat, order': seq<nat>)
    requires Stocked(buffer, order, bytes) && k in buffer
    requires Lists(order', buffer - {k}) && |order'| == |order| - 1
    requires Bytes(order', buffer - {k}) == Bytes(order, buffer) - |buffer[k].payload|
    ensures |buffer[k].payload| <= bytes && Stocked(buffer - {k}, order', bytes - |buffer[k].payload|)
  {
    hide Bytes, Lists, Filed, Apart;
    RemovalSize(buffer, k);
    RemovalKeeps(buffer, k);
    var rest := buffer - {k};
  }

  lemma StockListed(buffer: Buffer, order: seq<nat>, bytes: nat)
    requires Stocked(buffer, order, bytes)
    ensures Lists(order, buffer) && bytes == Bytes(order, buffer) && Filed(buffer) && Apart(buffer)
    ensures |order| == |buffer|
  {}

  /** What a buffered segment is known to be. */
  lemma StockItem(buffer: Buffer, order: seq<nat>, bytes: nat, k: nat)
    requires Stocked(buffer, order, bytes) && k in buffer
    ensures buffer[k].sequence == k && buffer[k].charged && (buffer[k].final <==> buffer[k].payload == [])
    ensures End(buffer[k]) <= MAX_UINT64
    ensures Beyond(k, buffer) ==> Beyond(End(buffer[k]), buffer - {k})
    ensures buffer == (buffer - {k})[k := buffer[k]]
  {
    hide Lists, Bytes, End;
    var rest := buffer - {k};
    assert buffer == rest[k := buffer[k]];
    assert forall m :: m in rest ==> m in buffer && m != k;
    assert Beyond(k, buffer) ==> Beyond(End(buffer[k]), rest) by {
      assert forall m :: m in rest && k <= m ==> End(buffer[k]) <= m;
    }
  }

  /** The segment at the cursor, out of the buffer and about to be delivered. */
  ghost predicate AtCursor(next: nat, buffer: Buffer, s: Segment) {
    && s.sequence == next && next !in buffer && (s.final <==> s.payload == []) && End(s) <= MAX_UINT64
    && Beyond(End(s), buffer)
  }

  lemma DeliveryFiled(next: nat, buffer: Buffer, order: seq<nat>, bytes: nat, s: Segment)
    requires Stocked(buffer, order, bytes) && AtCursor(next, buffer, s)
    ensures var all := buffer[next := s.(charged := true)];
            Filed(all) && Apart(all) && forall k :: k in all ==> next <= k
  {
    hide Lists, Bytes;
    var all := buffer[next := s.(charged := true)];
    assert End(all[next]) == End(s);
    assert forall k :: k in buffer ==> End(s) <= k;
    assert next <= End(s);
  }

  /** Delivering the segment at the cursor. */
  lemma DeliveryStep(next: nat, delivered: seq<Byte>, buffer: Buffer, order: seq<nat>, bytes: nat, accepted: Ledger,
                     s: Segment)
    requires Stocked(buffer, order, bytes) && AtCursor(next, buffer, s)
    requires Accounts(next, delivered, buffer[next := s.(charged := true)], accepted)
    ensures Accounts(next + |s.payload|, delivered + s.payload, buffer, accepted)
    ensures next + |s.payload| == End(s) && next + |s.payload| <= MAX_UINT64 && Beyond(next + |s.payload|, buffer)
  {
    hide Positions, Buffered, Delivered, Lists, Bytes, Filed, Apart, Accounts;
    var all := buffer[next := s.(charged := true)];
    assert all - {next} == buffer;
    assert next in all && all[next].payload == s.payload;
    DeliveryFiled(next, buffer, order, bytes, s);
    DeliveryAccounts(next, delivered, all, accepted);
  }

  /** The buffered segment at the new cursor becomes the one to be delivered. */
  lemma NextAtCursor(next: nat, buffer: Buffer, order: seq<nat>, bytes: nat)
    requires Stocked(buffer, order, bytes) && next in buffer && Beyond(next, buffer)
    ensures AtCursor(next, buffer - {next}, buffer[next])
    ensures (buffer - {next})[next := buffer[next].(charged := true)] == buffer
  {
    StockItem(buffer, order, bytes, next);
    hide Stocked;
  }

  lemma FirstAtCursor(next: nat, delivered: seq<Byte>, buffer: Buffer, order: seq<nat>, bytes: nat, accepted: Ledger,
                      s: Segment)
    requires Stocked(buffer, order, bytes) && Fits(next, buffer, s) && s.sequence == next && End(s) <= MAX_UINT64
    requires s.final <==> s.payload == []
    requires Accounts(next, delivered, buffer, accepted) && Beyond(next, buffer)
    ensures AtCursor(next, buffer, s)
    ensures Accounts(next, delivered, buffer[next := s.(charged := true)], Enter(accepted, s.sequence, s.payload))
    ensures forall p: nat :: Carries(s.sequence, s.payload, p) ==> accepted(p) == None
  {
    hide Positions, Buffered, Delivered, Lists, Bytes, Carries;
    var t := s.(charged := true);
    assert End(t) == End(s);
    assert Fits(next, buffer, t);
    assert forall k :: k in buffer ==> !Overlap(buffer[k], s) && buffer[k].sequence == k && next < k;
    FilingAccounts(next, delivered, buffer, accepted, t);
  }
}
