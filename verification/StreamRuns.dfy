/** Whole runs of a reassembly fed the pieces of one stream (reassembly.go). */
module StreamRuns {
  import opened Wrappers
  import opened Segments
  import opened Reassembly
  import Memlimit

  /** A slice of the stream, or its end. */
  ghost predicate SliceOf(s: Segment, stream: seq<Byte>) {
    !s.charged &&
    if s.final then s.payload == [] && s.sequence == |stream|
    else s.sequence + |s.payload| <= |stream| && s.payload == stream[s.sequence..s.sequence + |s.payload|]
  }

  /** Everything accepted so far belongs to the stream. */
  ghost predicate Faithful(c: Contents, stream: seq<Byte>) {
    && (forall p: nat :: c.accepted(p).Some? ==> p < |stream| && c.accepted(p) == Some(stream[p]))
    && (forall f :: f in c.fins ==> f == |stream|)
  }

  /** Every byte of the segment, and its end of stream, has been accepted. */
  ghost predicate Taken(c: Contents, s: Segment) {
    && (forall p: nat :: Carries(s.sequence, s.payload, p) ==> c.accepted(p).Some?)
    && (s.final ==> s.sequence in c.fins)
  }

  lemma FaithfulKept(c: Contents, s: Segment, c': Contents, out: Outcome, stream: seq<Byte>)
    requires Inserted(c, s, c', out) && Faithful(c, stream) && SliceOf(s, stream)
    ensures Faithful(c', stream)
  {
    hide Part, Overlap, Judge;
    forall p: nat | c'.accepted(p).Some? ensures p < |stream| && c'.accepted(p) == Some(stream[p]) {
      assert Carries(s.sequence, s.payload, p) || c'.accepted(p) == c.accepted(p);
    }
  }

  lemma TakenKept(c: Contents, s: Segment, c': Contents, out: Outcome, t: Segment)
    requires Inserted(c, s, c', out) && Taken(c, t)
    ensures Taken(c', t)
  {
    hide Part, Overlap;
  }

  lemma InsertedTaken(c: Contents, s: Segment, c': Contents, out: Outcome, stream: seq<Byte>)
    requires Kept(c) && Inserted(c, s, c', out) && Faithful(c, stream) && SliceOf(s, stream) && out.error == None
    ensures Taken(c', s)
  {
    hide Part, Overlap, Apart, Lists, Bytes, Delivered, Buffered, Beyond;
    FaithfulCursor(c, stream);
    if s.sequence in c.buffer {
      forall p: nat | Carries(s.sequence, s.payload, p) && c.buffer[s.sequence].payload == s.payload
        ensures c.accepted(p).Some?
      {
        BufferedIsCovered(c.buffer, s.sequence, p);
      }
    }
  }

  /** Nothing is accepted at the cursor: it cannot pass a gap, nor stop short of one. */
  lemma CursorAtGap(c: Contents)
    requires Kept(c)
    ensures c.accepted(c.next) == None && forall p: nat :: p < c.next ==> c.accepted(p).Some?
  {
    hide Lists, Bytes, Delivered, Buffered, Apart;
    assert !Covered(c.buffer, c.next);
  }

  lemma FaithfulCursor(c: Contents, stream: seq<Byte>)
    requires Kept(c) && Faithful(c, stream)
    ensures c.next <= |stream|
  {
    CursorAtGap(c);
    var n: nat := |stream|;
    assert c.next > n ==> c.accepted(n).Some?;
  }

  /** Whatever has been delivered is the stream up to the cursor. */
  lemma DeliveredIsPrefix(c: Contents, stream: seq<Byte>)
    requires Kept(c) && Faithful(c, stream)
    ensures c.next <= |stream| && c.delivered == stream[..c.next]
  {
    FaithfulCursor(c, stream);
    hide Lists, Bytes, Positions, Buffered, Apart;
    forall i: nat | i < c.next ensures c.delivered[i] == stream[i] {
      assert c.accepted(i) == Some(c.delivered[i]);
    }
  }

  /** Once every byte and the end have been accepted, the whole stream has been delivered and the flow is closed. */
  lemma AllTakenDelivers(c: Contents, stream: seq<Byte>)
    requires Kept(c) && Faithful(c, stream)
    requires |stream| in c.fins && forall p: nat :: p < |stream| ==> c.accepted(p).Some?
    ensures c.delivered == stream && c.next == |stream| && c.finalAt == Some(|stream|)
  {
    DeliveredIsPrefix(c, stream);
    CursorAtGap(c);
  }

  // ---------------------------------------------------------------- a fixed segmentation

  /** Where a stream is cut: from its start to its end, every piece but the last not empty. */
  ghost predicate Cuts(cuts: seq<nat>, stream: seq<Byte>) {
    cuts != [] && cuts[0] == 0 && cuts[|cuts| - 1] == |stream| && Sorted(cuts) && |stream| <= MAX_UINT64
  }

  /** The pieces of a segmentation in order, the end of the stream last. */
  ghost function Piece(cuts: seq<nat>, stream: seq<Byte>, i: nat): Segment
    requires Cuts(cuts, stream) && i < |cuts|
  {
    if i + 1 < |cuts| then Segment(cuts[i], stream[cuts[i]..cuts[i + 1]], false, false)
    else Segment(cuts[i], [], true, false)
  }

  ghost predicate Whole(c: Contents, lo: nat, hi: nat) {
    forall p, q: nat :: lo <= p < hi && lo <= q < hi && c.accepted(p).Some? ==> c.accepted(q).Some?
  }

  /** Only whole pieces have been accepted, and only pieces are buffered. */
  ghost predicate OnlyPieces(c: Contents, cuts: seq<nat>, stream: seq<Byte>)
    requires Cuts(cuts, stream)
  {
    && (forall i: nat :: i + 1 < |cuts| ==> Whole(c, cuts[i], cuts[i + 1]))
    && (forall k :: k in c.buffer ==> exists i: nat ::
          i < |cuts| && k == cuts[i] && c.buffer[k].(charged := false) == Piece(cuts, stream, i))
  }

  lemma PieceIsSlice(cuts: seq<nat>, stream: seq<Byte>, i: nat)
    requires Cuts(cuts, stream) && i < |cuts|
    ensures i + 1 < |cuts| ==> cuts[i] < cuts[i + 1] <= |stream|
    ensures SliceOf(Piece(cuts, stream, i), stream) && Piece(cuts, stream, i).sequence == cuts[i]
    ensures !Piece(cuts, stream, i).charged && (Piece(cuts, stream, i).final <==> Piece(cuts, stream, i).payload == [])
    ensures End(Piece(cuts, stream, i)) == (if i + 1 < |cuts| then cuts[i + 1] else |stream|)
  {
    assert i + 2 < |cuts| ==> cuts[i + 1] < cuts[|cuts| - 1];
  }

  /** The cursor always stands at a cut. */
  lemma CursorAtCut(c: Contents, cuts: seq<nat>, stream: seq<Byte>, i: nat)
    requires Kept(c) && Faithful(c, stream) && Cuts(cuts, stream) && OnlyPieces(c, cuts, stream)
    requires i < |cuts| && cuts[i] < c.next
    ensures i + 1 < |cuts| && cuts[i + 1] <= c.next
  {
    CursorAtGap(c);
    FaithfulCursor(c, stream);
    hide Kept, Faithful;
    assert i + 1 < |cuts|;
    assert Whole(c, cuts[i], cuts[i + 1]);
    assert c.accepted(cuts[i]).Some? && c.accepted(c.next).None?;
  }

  /** Pieces of one segmentation never conflict or overlap: the only refusals left are for want of room. */
  lemma PiecesNeverConflict(c: Contents, cuts: seq<nat>, stream: seq<Byte>, i: nat)
    requires Kept(c) && Faithful(c, stream) && Cuts(cuts, stream) && OnlyPieces(c, cuts, stream) && i < |cuts|
    ensures !Judge(c.next, c.buffer, Piece(cuts, stream, i)).Refuse?
  {
    hide Kept, Faithful, Piece, Cuts, End, Overlap, Sorted;
    var s := Piece(cuts, stream, i);
    PieceIsSlice(cuts, stream, i);
    SliceSize(s, cuts, stream);
    if s.sequence < c.next { CursorAtCut(c, cuts, stream, i); }
    FaithfulCursor(c, stream);
    forall k | k in c.buffer
      ensures k == s.sequence ==> c.buffer[k].final == s.final && c.buffer[k].payload == s.payload
      ensures k != s.sequence ==> !Overlap(c.buffer[k], s)
    {
      var j: nat :| j < |cuts| && k == cuts[j] && c.buffer[k].(charged := false) == Piece(cuts, stream, j);
      PieceIsSlice(cuts, stream, j);
      PiecesApart(cuts, stream, i, j);
      ChargeOverlaps(c.buffer[k], s);
    }
  }

  lemma SliceSize(s: Segment, cuts: seq<nat>, stream: seq<Byte>)
    requires SliceOf(s, stream) && Cuts(cuts, stream)
    ensures s.sequence + |s.payload| <= |stream| <= MAX_UINT64
  {}

  /** Whether a segment is charged does not matter to where it lies. */
  lemma ChargeOverlaps(t: Segment, s: Segment)
    ensures Overlap(t, s) <==> Overlap(t.(charged := false), s)
    ensures Overlap(s, t) <==> Overlap(s, t.(charged := false))
  {}

  lemma PiecesApart(cuts: seq<nat>, stream: seq<Byte>, i: nat, j: nat)
    requires Cuts(cuts, stream) && i < |cuts| && j < |cuts|
    ensures i + 1 < |cuts| ==> cuts[i] < cuts[i + 1] <= |stream|
    ensures j + 1 < |cuts| ==> cuts[j] < cuts[j + 1] <= |stream|
    ensures i != j ==> cuts[i] != cuts[j] && !Overlap(Piece(cuts, stream, j), Piece(cuts, stream, i))
  {
    PieceIsSlice(cuts, stream, i);
    PieceIsSlice(cuts, stream, j);
    assert i < j ==> i + 1 < |cuts| && cuts[i + 1] <= cuts[j];
    assert j < i ==> j + 1 < |cuts| && cuts[j + 1] <= cuts[i];
  }

  lemma OnlyPiecesKept(c: Contents, cuts: seq<nat>, stream: seq<Byte>, i: nat, c': Contents, out: Outcome)
    requires Kept(c) && Cuts(cuts, stream) && OnlyPieces(c, cuts, stream) && i < |cuts|
    requires Inserted(c, Piece(cuts, stream, i), c', out)
    ensures OnlyPieces(c', cuts, stream)
  {
    hide Kept, Overlap;
    var s := Piece(cuts, stream, i);
    PieceIsSlice(cuts, stream, i);
    if c'.accepted == Enter(c.accepted, s.sequence, s.payload) {
      forall j: nat | j + 1 < |cuts| ensures Whole(c', cuts[j], cuts[j + 1]) { WholeKept(c, cuts, stream, i, j, c'); }
    }
    forall k | k in c'.buffer
      ensures exists j: nat :: j < |cuts| && k == cuts[j] && c'.buffer[k].(charged := false) == Piece(cuts, stream, j)
    {
      if k in c.buffer && c'.buffer[k] == c.buffer[k] {
        var j: nat :| j < |cuts| && k == cuts[j] && c.buffer[k].(charged := false) == Piece(cuts, stream, j);
        assert c'.buffer[k].(charged := false) == Piece(cuts, stream, j);
      } else {
        assert c'.buffer[k].(charged := false) == s;
      }
    }
  }

  lemma WholeKept(c: Contents, cuts: seq<nat>, stream: seq<Byte>, i: nat, j: nat, c': Contents)
    requires Cuts(cuts, stream) && i < |cuts| && j + 1 < |cuts| && Whole(c, cuts[j], cuts[j + 1])
    requires var s := Piece(cuts, stream, i); c'.accepted == Enter(c.accepted, s.sequence, s.payload)
    ensures Whole(c', cuts[j], cuts[j + 1])
  {
    PieceIsSlice(cuts, stream, i);
    assert i < j ==> i + 1 < |cuts| && cuts[i + 1] <= cuts[j];
    assert j < i ==> cuts[j + 1] <= cuts[i];
    var s := Piece(cuts, stream, i);
    PieceCarries(cuts, stream, i);
    hide Cuts, Piece, Carries, SliceOf;
    forall p, q: nat | cuts[j] <= p < cuts[j + 1] && cuts[j] <= q < cuts[j + 1] && c'.accepted(p).Some?
      ensures c'.accepted(q).Some?
    {
      assert Carries(s.sequence, s.payload, p) <==> Carries(s.sequence, s.payload, q);
      if !Carries(s.sequence, s.payload, p) {
        assert c.accepted(p).Some?;
        assert c.accepted(q).Some?;
      }
    }
  }

  /** A piece carries the positions from its cut to the next. */
  lemma PieceCarries(cuts: seq<nat>, stream: seq<Byte>, i: nat)
    requires Cuts(cuts, stream) && i < |cuts|
    ensures forall p: nat :: Carries(Piece(cuts, stream, i).sequence, Piece(cuts, stream, i).payload, p) <==>
      i + 1 < |cuts| && cuts[i] <= p < cuts[i + 1]
  {
    PieceIsSlice(cuts, stream, i);
  }

  // ---------------------------------------------------------------- room for everything

  lemma {:induction false} BytesBelow(order: seq<nat>, buffer: Buffer, limit: nat)
    requires Sorted(order) && Apart(buffer)
    requires forall k :: k in order ==> k in buffer && k + |buffer[k].payload| <= limit
    requires forall k :: k in order ==> End(buffer[k]) == k + |buffer[k].payload|
    ensures Bytes(order, buffer) <= limit
  {
    if order != [] {
      var n := |order| - 1;
      assert forall k :: k in order[..n] ==> k in order;
      assert order[n] in order;
      forall k | k in order[..n] ensures k + |buffer[k].payload| <= order[n] {
        assert k < order[n];
      }
      BytesBelow(order[..n], buffer, order[n]);
    }
  }

  /** With room for every piece, none is ever refused. */
  lemma RoomForAll(c: Contents, cuts: seq<nat>, stream: seq<Byte>, i: nat)
    requires Kept(c) && Cuts(cuts, stream) && OnlyPieces(c, cuts, stream) && i < |cuts|
    requires Judge(c.next, c.buffer, Piece(cuts, stream, i)).Store?
    ensures |c.order| + 1 <= |cuts| && c.bytes + |Piece(cuts, stream, i).payload| <= |stream|
  {
    hide Kept, Bytes, Sorted, Insertion, Cuts, Piece, Overlap, Stocked, OnlyPieces, SliceOf, Lists, Filed, Apart, End;
    var s := Piece(cuts, stream, i);
    KeptStock(c);
    PieceIsSlice(cuts, stream, i);
    assert s.sequence !in c.buffer && forall k :: k in c.buffer ==> !Overlap(c.buffer[k], s);
    var more, order := c.buffer[s.sequence := s], c.order;
    RoomForFrames(c, cuts, stream, i);
    FilingApart(c.buffer, s);
    ListsSorted(order, c.buffer);
    ghost var at := Rank(order, s.sequence);
    InsertionLists(order, c.buffer, at, s);
    ListsSorted(Insertion(order, at, s.sequence), more);
    PiecesWithin(c, cuts, stream, i);
    BytesBelow(Insertion(order, at, s.sequence), more, |stream|);
    StockCounts(c);
  }

  lemma StockCounts(c: Contents)
    requires Kept(c)
    ensures Lists(c.order, c.buffer) && c.bytes == Bytes(c.order, c.buffer)
  {}

  lemma PiecesWithin(c: Contents, cuts: seq<nat>, stream: seq<Byte>, i: nat)
    requires Cuts(cuts, stream) && OnlyPieces(c, cuts, stream) && i < |cuts|
    ensures var s := Piece(cuts, stream, i); var more := c.buffer[s.sequence := s];
            forall k :: k in more ==> End(more[k]) == k + |more[k].payload| <= |stream|
  {
    hide Cuts, Piece;
    var s := Piece(cuts, stream, i);
    var more := c.buffer[s.sequence := s];
    PieceIsSlice(cuts, stream, i);
    forall k | k in more ensures End(more[k]) == k + |more[k].payload| <= |stream| {
      if k != s.sequence {
        var j: nat :| j < |cuts| && k == cuts[j] && c.buffer[k].(charged := false) == Piece(cuts, stream, j);
        PieceIsSlice(cuts, stream, j);
      }
    }
  }

  lemma ListsSorted(order: seq<nat>, buffer: Buffer)
    requires Lists(order, buffer)
    ensures Sorted(order) && forall k :: k in order <==> k in buffer
  {}

  lemma RoomForFrames(c: Contents, cuts: seq<nat>, stream: seq<Byte>, i: nat)
    requires Kept(c) && Cuts(cuts, stream) && OnlyPieces(c, cuts, stream) && i < |cuts| && cuts[i] !in c.buffer
    ensures |c.order| + 1 <= |cuts|
  {
    hide Kept, Cuts, Piece, Stocked, Sorted;
    KeptStock(c);
    SizeOf(c.buffer, c.order, c.bytes);
    var all := set j | 0 <= j < |cuts| :: cuts[j];
    DistinctCount(cuts);
    forall k | k in c.buffer ensures k in all { 
      var j: nat :| j < |cuts| && k == cuts[j];
    }
    Cardinality(c.buffer.Keys, all - {cuts[i]});
  }

  lemma Cardinality(a: set<nat>, b: set<nat>)
    requires a <= b
    ensures |a| <= |b|
  {
    assert b == a + (b - a);
  }

  lemma {:induction false} DistinctCount(cuts: seq<nat>)
    ensures |set j | 0 <= j < |cuts| :: cuts[j]| <= |cuts|
  {
    if cuts != [] {
      var n := |cuts| - 1;
      DistinctCount(cuts[..n]);
      assert (set j | 0 <= j < |cuts| :: cuts[j]) == (set j | 0 <= j < n :: cuts[..n][j]) + {cuts[n]};
    }
  }

  ghost function Rank(order: seq<nat>, s: nat): (at: nat)
    requires Sorted(order)
    ensures IsRank(order, s, at)
  {
    if order == [] || order[|order| - 1] < s then |order| else Rank(order[..|order| - 1], s)
  }

  // ---------------------------------------------------------------- runs

  /** Feeds a reassembly the pieces of one segmentation in any order, with any repeats: the output is
      always the stream up to the cursor, a refusal is for want of room, and once every piece has
      been accepted the whole stream is out and the flow is closed. */
  method Feed(r: Reassembler, ghost stream: seq<Byte>, ghost cuts: seq<nat>, arrivals: seq<Segment>)
    returns (output: seq<Byte>, refused: bool)
    requires r.Valid() && r.next == 0 && r.delivered == [] && (forall p: nat :: r.accepted(p) == None) && r.fins == {}
    requires Cuts(cuts, stream)
    requires forall a :: a in arrivals ==> exists i: nat :: i < |cuts| && a == Piece(cuts, stream, i)
    modifies r, if r.memory == null then {} else {r.memory}
    ensures r.Valid() && r.Others() == old(r.Others())
    ensures r.next <= |stream| && output == stream[..r.next]
    ensures (forall i: nat :: i < |cuts| ==> Piece(cuts, stream, i) in arrivals) && !refused
      ==> output == stream && r.Closed()
    ensures r.memory == null && |cuts| <= r.maxFrames && |stream| <= r.maxBytes ==> !refused
  {
    hide Kept, Inserted, Faithful, OnlyPieces, Taken, Cuts, Piece;
    output, refused := [], false;
    FreshRun(r.View(), stream, cuts);
    var n := 0;
    while n < |arrivals|
      invariant 0 <= n <= |arrivals| && r.Valid() && r.Others() == old(r.Others()) && output == r.delivered
      invariant Faithful(r.View(), stream) && OnlyPieces(r.View(), cuts, stream)
      invariant !refused ==> forall m :: 0 <= m < n ==> Taken(r.View(), arrivals[m])
      invariant r.memory == null && |cuts| <= r.maxFrames && |stream| <= r.maxBytes ==> !refused
    {
      ghost var c := r.View();
      assert arrivals[n] in arrivals;
      ghost var i: nat :| i < |cuts| && arrivals[n] == Piece(cuts, stream, i);
      PieceIsSlice(cuts, stream, i);
      PiecesNeverConflict(c, cuts, stream, i);
      if Judge(c.next, c.buffer, arrivals[n]).Store? { RoomForAll(c, cuts, stream, i); }
      var out := r.Insert(arrivals[n]);
      output := output + out.output;
      refused := refused || out.error.Some?;
      RefusedForRoom(c, arrivals[n], r.View(), out);
      Fed(c, stream, cuts, i, r.View(), out, arrivals, n);
      n := n + 1;
    }
    Finished(r.View(), stream, cuts, arrivals);
  }

  lemma FreshBuffer(c: Contents)
    requires Kept(c) && (forall p: nat :: c.accepted(p) == None) && c.fins == {}
    ensures c.buffer == map[]
  {
    forall k ensures k !in c.buffer {
      if k in c.buffer && !c.buffer[k].final { BufferedIsCovered(c.buffer, k, k); }
    }
  }

  lemma FreshRun(c: Contents, stream: seq<Byte>, cuts: seq<nat>)
    requires Kept(c) && Cuts(cuts, stream) && c.next == 0 && (forall p: nat :: c.accepted(p) == None) && c.fins == {}
    ensures Faithful(c, stream) && OnlyPieces(c, cuts, stream)
  {
    FreshBuffer(c);
  }

  lemma Fed(c: Contents, stream: seq<Byte>, cuts: seq<nat>, i: nat, c': Contents, out: Outcome, arrivals: seq<Segment>,
            n: nat)
    requires Kept(c) && Faithful(c, stream) && Cuts(cuts, stream) && OnlyPieces(c, cuts, stream) && i < |cuts|
    requires n < |arrivals| && arrivals[n] == Piece(cuts, stream, i) && Inserted(c, arrivals[n], c', out)
    ensures Faithful(c', stream) && OnlyPieces(c', cuts, stream) && c'.delivered == c.delivered + out.output
    ensures out.error == None && (forall m :: 0 <= m < n ==> Taken(c, arrivals[m])) ==>
      forall m :: 0 <= m < n + 1 ==> Taken(c', arrivals[m])
  {
    PieceIsSlice(cuts, stream, i);
    FaithfulKept(c, arrivals[n], c', out, stream);
    OnlyPiecesKept(c, cuts, stream, i, c', out);
    OutputDelivered(c, arrivals[n], c', out);
    hide Kept, Inserted, Faithful, OnlyPieces, Taken, Cuts, Piece, SliceOf;
    if out.error == None {
      InsertedTaken(c, arrivals[n], c', out, stream);
      forall m | 0 <= m < n && Taken(c, arrivals[m]) ensures Taken(c', arrivals[m]) {
        TakenKept(c, arrivals[n], c', out, arrivals[m]);
      }
    }
  }

  lemma RefusedForRoom(c: Contents, s: Segment, c': Contents, out: Outcome)
    requires Inserted(c, s, c', out) && !Judge(c.next, c.buffer, s).Refuse?
    ensures out.error == None || out.error == Some(WindowExceeded) || out.error == Some(NoMemory)
  {
    hide Part, Enter, Overlap, Judge;
  }

  lemma OutputDelivered(c: Contents, s: Segment, c': Contents, out: Outcome)
    requires Inserted(c, s, c', out)
    ensures c'.delivered == c.delivered + out.output
  {
    hide Part, Enter, Overlap;
    assert out.output == [] ==> c.delivered + out.output == c.delivered;
  }

  lemma Finished(c: Contents, stream: seq<Byte>, cuts: seq<nat>, arrivals: seq<Segment>)
    requires Kept(c) && Faithful(c, stream) && Cuts(cuts, stream)
    ensures c.next <= |stream| && c.delivered == stream[..c.next]
    ensures (forall i: nat :: i < |cuts| ==> Piece(cuts, stream, i) in arrivals)
      && (forall m :: 0 <= m < |arrivals| ==> Taken(c, arrivals[m]))
      ==> c.delivered == stream && c.next == |stream| && c.finalAt == Some(|stream|)
  {
    DeliveredIsPrefix(c, stream);
    hide Kept, Faithful;
    if (forall i: nat :: i < |cuts| ==> Piece(cuts, stream, i) in arrivals)
      && (forall m :: 0 <= m < |arrivals| ==> Taken(c, arrivals[m]))
    {
      PieceIsSlice(cuts, stream, |cuts| - 1);
      assert Taken(c, Piece(cuts, stream, |cuts| - 1));
      forall p: nat | p < |stream| ensures c.accepted(p).Some? {
        var i := PieceAt(cuts, stream, p);
        PieceIsSlice(cuts, stream, i);
        assert Carries(cuts[i], Piece(cuts, stream, i).payload, p);
      }
      AllTakenDelivers(c, stream);
    }
  }

  ghost function PieceAt(cuts: seq<nat>, stream: seq<Byte>, p: nat): (i: nat)
    requires Cuts(cuts, stream) && p < |stream|
    ensures i + 1 < |cuts| && cuts[i] <= p < cuts[i + 1]
  {
    CutBelow(cuts, p, |cuts| - 1);
    var i: nat :| Straddles(cuts, p, i);
    i
  }

  ghost predicate Straddles(cuts: seq<nat>, p: nat, i: nat) {
    i + 1 < |cuts| && cuts[i] <= p < cuts[i + 1]
  }

  lemma {:induction false} CutBelow(cuts: seq<nat>, p: nat, j: nat)
    requires j < |cuts| && cuts[0] <= p < cuts[j]
    ensures exists i: nat :: Straddles(cuts, p, i)
  {
    if p < cuts[j - 1] { CutBelow(cuts, p, j - 1); } else { assert Straddles(cuts, p, j - 1); }
  }
}
