/** Stream reassembly (reassembly.go): segments arrive in any order and leave as one stream. */
module Reassembly {
  import opened Wrappers
  import opened Segments
  import opened Memlimit

  datatype Error =
    | FinWithPayload | EmptyData | BadSequence | CrossesCursor | Conflict | Overlapping | WindowExceeded | NoMemory

  datatype Outcome = Outcome(output: seq<Byte>, closed: bool, error: Option<Error>)

  /** What becomes of a segment, before the limits are considered. */
  datatype Verdict = Refuse(error: Error) | Ignore | Store | Consume

  /** The verdict by a scan of everything buffered. */
  ghost function Judge(next: nat, buffer: Buffer, s: Segment): Verdict {
    if s.final && s.payload != [] then Refuse(FinWithPayload)
    else if !s.final && s.payload == [] then Refuse(EmptyData)
    else if s.sequence + |s.payload| > MAX_UINT64 then Refuse(BadSequence)
    else if s.sequence < next then (if End(s) <= next then Ignore else Refuse(CrossesCursor))
    else if s.sequence in buffer then
      (if buffer[s.sequence].final == s.final && buffer[s.sequence].payload == s.payload then Ignore
       else Refuse(Conflict))
    else if exists k :: k in buffer && Overlap(buffer[k], s) then Refuse(Overlapping)
    else if s.sequence != next then Store
    else Consume
  }

  /** A segment past the cursor that is taken for a repeat says nothing that was not accepted before, byte
      for byte; and one that starts where another does is refused exactly when it says anything else. */
  lemma RepeatSaysNothingNew(c: Contents, s: Segment)
    requires Kept(c) && c.next <= s.sequence
    ensures Judge(c.next, c.buffer, s).Ignore? ==>
      forall i :: 0 <= i < |s.payload| ==> c.accepted(s.sequence + i) == Some(s.payload[i])
    ensures Judge(c.next, c.buffer, s) == Refuse(Conflict) ==>
      s.sequence in c.buffer && c.buffer[s.sequence].(charged := s.charged) != s
  {
    hide Stocked, Ended, Beyond, Positions, Delivered, Overlap;
    if Judge(c.next, c.buffer, s).Ignore? {
      forall i | 0 <= i < |s.payload| ensures c.accepted(s.sequence + i) == Some(s.payload[i]) {
        var p := s.sequence + i;
        assert s.sequence in c.buffer && s.sequence <= p < s.sequence + |c.buffer[s.sequence].payload|;
      }
    }
  }

  /** The end of the stream recorded is one that was accepted. */
  ghost predicate Ended(finalAt: Option<nat>, buffer: Buffer, fins: set<nat>) {
    && (finalAt == None <==> fins == {})
    && (finalAt.Some? ==> finalAt.value in fins)
    && (forall k :: k in buffer && buffer[k].final ==> k in fins)
  }

  /** A reassembly's fields with what it has delivered and accepted so far: everything output, every
      byte accepted at its position, and every end of stream accepted. */
  datatype Contents = Contents(
    next: nat, buffer: Buffer, order: seq<nat>, bytes: nat, finalAt: Option<nat>,
    delivered: seq<Byte>, accepted: Ledger, fins: set<nat>)

  /** The buffered segments are disjoint, listed in order and counted, all lie past the cursor, and
      what was accepted is what was delivered and what is buffered. */
  ghost predicate Kept(c: Contents) {
    && Stocked(c.buffer, c.order, c.bytes) && Ended(c.finalAt, c.buffer, c.fins)
    && c.next <= MAX_UINT64 && Beyond(c.next, c.buffer) && c.next !in c.buffer
    && Accounts(c.next, c.delivered, c.buffer, c.accepted)
  }

  /** What filing a segment makes of the contents. */
  ghost function Filing(c: Contents, s: Segment, order': seq<nat>): Contents {
    c.(buffer := c.buffer[s.sequence := s], order := order', bytes := c.bytes + |s.payload|,
       finalAt := if s.final then Some(s.sequence) else c.finalAt,
       accepted := Enter(c.accepted, s.sequence, s.payload), fins := Fins(c.fins, s))
  }

  ghost function Fins(fins: set<nat>, s: Segment): set<nat> {
    if s.final then fins + {s.sequence} else fins
  }

  lemma FilingKeeps(c: Contents, s: Segment, order': seq<nat>)
    requires Kept(c) && Fits(c.next, c.buffer, s) && s.sequence != c.next && End(s) <= MAX_UINT64
    requires s.charged && (s.final <==> s.payload == [])
    requires Lists(order', c.buffer[s.sequence := s]) && |order'| == |c.order| + 1
    requires c.bytes == Bytes(c.order, c.buffer)
    requires Bytes(order', c.buffer[s.sequence := s]) == c.bytes + |s.payload|
    ensures Kept(Filing(c, s, order'))
  {
    hide Bytes, Lists, Filed, Apart, Overlap, Accounts, Carries, Enter, Stocked, Fits, Beyond, Ended;
    FilingEnds(c.next, c.buffer, c.finalAt, c.fins, s);
    FilingAccounts(c.next, c.delivered, c.buffer, c.accepted, s);
    StockListed(c.buffer, c.order, c.bytes);
    StockMore(c.next, c.buffer, c.order, c.bytes, s, order');
  }

  lemma FilingEnds(next: nat, buffer: Buffer, finalAt: Option<nat>, fins: set<nat>, s: Segment)
    requires Beyond(next, buffer) && Ended(finalAt, buffer, fins) && Fits(next, buffer, s)
    ensures s.sequence !in buffer && Beyond(next, buffer[s.sequence := s])
    ensures Ended(if s.final then Some(s.sequence) else finalAt, buffer[s.sequence := s], Fins(fins, s))
  {
    hide Filed, Overlap;
  }

  /** The bytes charged for a segment. */
  function Charge(s: Segment): nat { if s.charged then |s.payload| else 0 }

  /** As Ended, with one segment out of the buffer to be delivered. */
  ghost predicate EndedBut(finalAt: Option<nat>, buffer: Buffer, fins: set<nat>, current: Segment) {
    && (finalAt == None ==> fins == {} || (current.final && fins == {current.sequence}))
    && (finalAt.Some? ==> finalAt.value in fins)
    && (forall k :: k in buffer && buffer[k].final ==> k in fins)
    && (current.final ==> current.sequence in fins)
  }

  /** As Kept, with the segment at the cursor out of the buffer and about to be delivered. */
  ghost predicate Delivering(c: Contents, s: Segment) {
    && Stocked(c.buffer, c.order, c.bytes) && AtCursor(c.next, c.buffer, s) && EndedBut(c.finalAt, c.buffer, c.fins, s)
    && c.next <= MAX_UINT64
    && Accounts(c.next, c.delivered, c.buffer[c.next := s.(charged := true)], c.accepted)
  }

  lemma DeliveringFirst(c: Contents, s: Segment)
    requires Kept(c) && Fits(c.next, c.buffer, s) && s.sequence == c.next && End(s) <= MAX_UINT64
    requires s.final <==> s.payload == []
    ensures Delivering(c.(accepted := Enter(c.accepted, s.sequence, s.payload), fins := Fins(c.fins, s)), s)
    ensures s.sequence == c.next
  {
    hide Bytes, Lists, Filed, Apart, Overlap, Accounts, Carries, Enter, Stocked, Fits, Beyond, AtCursor;
    FirstAtCursor(c.next, c.delivered, c.buffer, c.order, c.bytes, c.accepted, s);
  }

  lemma DeliveringEnd(c: Contents, s: Segment)
    requires Delivering(c, s) && s.final
    ensures Kept(c.(finalAt := Some(s.sequence))) && s.sequence == c.next && s.payload == []
  {
    hide Bytes, Lists, Filed, Apart, Overlap, Accounts, Stocked, Beyond;
    DeliveryStep(c.next, c.delivered, c.buffer, c.order, c.bytes, c.accepted, s);
    assert c.delivered + s.payload == c.delivered && c.next + |s.payload| == c.next;
  }

  /** What delivering the segment at the cursor makes of the contents. */
  ghost function Delivery(c: Contents, s: Segment): Contents {
    c.(next := c.next + |s.payload|, delivered := c.delivered + s.payload)
  }

  lemma DeliveringLast(c: Contents, s: Segment)
    requires Delivering(c, s) && !s.final && c.next + |s.payload| !in c.buffer
    ensures Kept(Delivery(c, s)) && s.sequence == c.next
  {
    hide Bytes, Lists, Filed, Apart, Overlap, Accounts, Stocked, Beyond;
    DeliveryStep(c.next, c.delivered, c.buffer, c.order, c.bytes, c.accepted, s);
  }

  lemma DeliveringMore(c: Contents, s: Segment, order': seq<nat>)
    requires Delivering(c, s) && !s.final && c.next + |s.payload| in c.buffer
    requires Lists(order', c.buffer - {c.next + |s.payload|}) && |order'| == |c.order| - 1
    requires c.bytes == Bytes(c.order, c.buffer)
    requires Bytes(order', c.buffer - {c.next + |s.payload|}) == c.bytes - |c.buffer[c.next + |s.payload|].payload|
    ensures var next' := c.next + |s.payload|; var following := c.buffer[next'];
            following.charged && |following.payload| <= c.bytes && s.sequence == c.next
            && Delivering(
                 Delivery(c, s).(buffer := c.buffer - {next'}, order := order',
                                 bytes := c.bytes - |following.payload|),
                 following)
  {
    hide Bytes, Lists, Filed, Apart, Overlap, Accounts, Stocked, Beyond, AtCursor;
    var next' := c.next + |s.payload|;
    DeliveryStep(c.next, c.delivered, c.buffer, c.order, c.bytes, c.accepted, s);
    NextAtCursor(next', c.buffer, c.order, c.bytes);
    StockItem(c.buffer, c.order, c.bytes, next');
    StockLess(c.buffer, c.order, c.bytes, next', order');
    CursorIs(c.next, c.buffer, s);
  }

  lemma CursorIs(next: nat, buffer: Buffer, s: Segment)
    requires AtCursor(next, buffer, s)
    ensures s.sequence == next && next !in buffer && (s.final <==> s.payload == [])
  {}

  class Reassembler {
    const maxBytes: nat
    const maxFrames: nat
    const memory: Budget?
    var next: nat
    var buffer: Buffer
    var order: seq<nat>
    var bytes: nat
    var finalAt: Option<nat>
    // Everything output so far, every byte accepted so far, and every end of stream accepted.
    ghost var delivered: seq<Byte>
    ghost var accepted: Ledger
    ghost var fins: set<nat>

    ghost function View(): Contents
      reads this
    {
      Contents(next, buffer, order, bytes, finalAt, delivered, accepted, fins)
    }

    ghost predicate Valid()
      reads this, memory
    {
      && Kept(View()) && |order| <= maxFrames && bytes <= maxBytes
      && (memory != null ==> memory.Valid() && bytes <= memory.used)
    }

    predicate Closed()
      reads this
    {
      finalAt.Some? && finalAt.value <= next
    }

    constructor (maxBytes: nat, maxFrames: nat, memory: Budget?)
      requires maxBytes > 0 && maxFrames > 0 && (memory != null ==> memory.Valid())
      ensures Valid() && next == 0 && delivered == [] && (forall p :: accepted(p) == None) && fins == {} && bytes == 0
      ensures this.maxBytes == maxBytes && this.maxFrames == maxFrames && this.memory == memory
    {
      this.maxBytes, this.maxFrames, this.memory := maxBytes, maxFrames, memory;
      next, buffer, order, bytes, finalAt := 0, map[], [], 0, None;
      delivered, accepted, fins := [], _ => None, {};
    }

    /** The first place in the order that does not lie before s, by bisection. */
    method Search(s: nat) returns (at: nat)
      requires Sorted(order)
      ensures IsRank(order, s, at)
    {
      at := 0;
      var j := |order|;
      while at < j
        invariant 0 <= at <= j <= |order|
        invariant forall i :: 0 <= i < at ==> order[i] < s
        invariant forall i :: j <= i < |order| ==> s <= order[i]
      {
        var h := (at + j) / 2;
        if order[h] < s { at := h + 1; } else { j := h; }
      }
    }

    /** Looks only at the neighbours of the insertion point. */
    method CheckNeighbours(s: Segment) returns (clear: bool)
      requires Stocked(buffer, order, bytes) && s.sequence !in buffer
      ensures clear <==> forall k :: k in buffer ==> !Overlap(buffer[k], s)
    {
      hide Bytes, Sorted, IsRank;
      var at := Search(s.sequence);
      ListedIn(order, buffer);
      RankBounds(order, s.sequence, at);
      NeighboursSuffice(order, buffer, s, at);
      if at > 0 {
        var previous := buffer[order[at - 1]];
        var previousEnd := previous.sequence + |previous.payload|;
        if previous.final { previousEnd := previous.sequence; }
        if s.sequence < previousEnd { return false; }
      }
      if at < |order| {
        var following := buffer[order[at]];
        if following.sequence < End(s) { return false; }
        if s.final && following.sequence == s.sequence { return false; }
      }
      return true;
    }

    method InsertOrder(s: Segment)
      requires Lists(order, buffer) && s.sequence !in buffer
      modifies this`order
      ensures Lists(order, buffer[s.sequence := s]) && |order| == |old(order)| + 1
      ensures Bytes(order, buffer[s.sequence := s]) == old(Bytes(order, buffer)) + |s.payload|
    {
      hide Bytes, Sorted;
      var at := Search(s.sequence);
      InsertionLists(order, buffer, at, s);
      order := order[..at] + [s.sequence] + order[at..];
    }

    method RemoveOrder(s: nat)
      requires Lists(order, buffer) && s in buffer
      modifies this`order
      ensures Lists(order, buffer - {s}) && |order| == |old(order)| - 1
      ensures Bytes(order, buffer - {s}) == old(Bytes(order, buffer)) - |buffer[s].payload|
    {
      hide Bytes, Sorted;
      var at := Search(s);
      assert s in order;
      RankFinds(order, s, at);
      RemovalLists(order, buffer, at);
      if at < |order| && order[at] == s {
        order := order[..at] + order[at + 1..];
      }
    }

    /** What was charged elsewhere to the shared budget. */
    ghost function Others(): int
      reads this, memory
    {
      if memory == null then 0 else memory.used - bytes
    }

    /** Files a segment that is past the cursor. */
    method File(s: Segment)
      requires Valid() && Fits(next, buffer, s) && s.sequence != next && End(s) <= MAX_UINT64
      requires s.charged && (s.final <==> s.payload == [])
      requires |order| < maxFrames && bytes + |s.payload| <= maxBytes
      requires memory != null ==> bytes + |s.payload| <= memory.used
      modifies this`buffer, this`order, this`bytes, this`finalAt, this`accepted, this`fins
      ensures Valid() && View() == Filing(old(View()), s, order) && bytes == old(bytes) + |s.payload|
    {
      hide Bytes, Lists, Fits, Enter, Stocked, Ended, Accounts, Beyond;
      ghost var c := View();
      StockListed(buffer, order, bytes);
      FitsFresh(next, buffer, s);
      InsertOrder(s);
      FilingKeeps(c, s, order);
      buffer := buffer[s.sequence := s];
      bytes := bytes + |s.payload|;
      if s.final {
        finalAt := Some(s.sequence);
      }
      accepted, fins := Enter(accepted, s.sequence, s.payload), Fins(fins, s);
    }

    /** Delivers a segment's payload: its charge is given back and the cursor moves past it. */
    method Advance(current: Segment)
      requires memory != null ==> memory.Valid() && Charge(current) <= memory.used
      modifies this`next, this`delivered
      modifies if memory == null then {} else {memory}
      ensures View() == Delivery(old(View()), current)
      ensures memory != null ==> memory.Valid() && memory.used == old(memory.used) - Charge(current)
    {
      if current.charged && memory != null { memory.Release(|current.payload|); }
      next := next + |current.payload|;
      delivered := delivered + current.payload;
    }

    /** Takes the buffered segment at the new cursor out of the buffer. */
    method Pop(ghost c: Contents, ghost s: Segment)
      requires Delivering(c, s) && !s.final && next in buffer && View() == Delivery(c, s)
      modifies this`buffer, this`order, this`bytes
      ensures bytes == old(bytes) - |old(buffer)[next].payload| && old(buffer)[next].charged
      ensures buffer == old(buffer) - {next}
      ensures Delivering(View(), old(buffer)[next]) && |order| == old(|order|) - 1
      ensures View() == old(View()).(buffer := buffer, order := order, bytes := bytes)
    {
      hide Bytes, Lists, Stocked, EndedBut, Accounts, AtCursor;
      StockListed(buffer, order, bytes);
      RemoveOrder(next);
      DeliveringMore(c, s, order);
      var popped := buffer[next];
      buffer := buffer - {next};
      bytes := bytes - |popped.payload|;
    }

    /** Delivers the segment at the cursor and everything contiguous with it. */
    method ConsumeContiguous(first: Segment) returns (output: seq<Byte>, closed: bool)
      requires Valid() && Fits(next, buffer, first) && first.sequence == next && End(first) <= MAX_UINT64
      requires !first.charged && (first.final <==> first.payload == [])
      modifies this`next, this`buffer, this`order, this`bytes, this`finalAt, this`delivered, this`accepted, this`fins
      modifies if memory == null then {} else {memory}
      ensures Valid() && closed == Closed()
      ensures delivered == old(delivered) + output
      ensures accepted == Enter(old(accepted), first.sequence, first.payload) && fins == Fins(old(fins), first)
      ensures Others() == old(Others()) && Part(buffer, old(buffer))
    {
      hide Enter, Delivering, Fits, Kept, EndedBut, Fins, Part, Budget.Valid;
      PartWhole(buffer);
      DeliveringFirst(View(), first);
      output := [];
      var current := first;
      accepted, fins := Enter(accepted, first.sequence, first.payload), Fins(fins, first);
      ghost var others := Others();
      while true
        invariant Delivering(View(), current)
        invariant |order| <= maxFrames && bytes <= maxBytes && Part(buffer, old(buffer))
        invariant delivered == old(delivered) + output && others == old(Others())
        invariant accepted == Enter(old(accepted), first.sequence, first.payload) && fins == Fins(old(fins), first)
        invariant memory != null ==> memory.Valid() && others >= 0 && memory.used == others + bytes + Charge(current)
        decreases |order|
      {
        ghost var c, s := View(), current;
        if current.final {
          DeliveringEnd(c, s);
          finalAt := Some(current.sequence);
          return output, true;
        }
        output := output + current.payload;
        Advance(current);
        if next in buffer {
          current := buffer[next];
          PartLess(buffer, old(buffer), next);
          Pop(c, s);
        } else {
          DeliveringLast(c, s);
          return output, finalAt.Some? && finalAt.value <= next;
        }
      }
    }

    /** Adds one data segment or an end of stream; the bytes that became contiguous come out. */
    method Insert(segment: Segment) returns (out: Outcome)
      requires Valid() && !segment.charged
      modifies this`next, this`buffer, this`order, this`bytes, this`finalAt, this`delivered, this`accepted, this`fins
      modifies if memory == null then {} else {memory}
      ensures Valid() && Others() == old(Others())
      ensures Inserted(old(View()), segment, View(), out)
      ensures out.error == None ==> out.closed == Closed()
      ensures out.error == Some(WindowExceeded) <==>
        && old(Judge(next, buffer, segment)).Store?
        && (old(|order|) + 1 > maxFrames || old(bytes) + |segment.payload| > maxBytes)
      ensures out.error == Some(NoMemory) <==>
        old(Judge(next, buffer, segment)).Store? && out.error != Some(WindowExceeded)
        && memory != null && 0 < |segment.payload| && old(memory.used) + |segment.payload| > memory.capacity
    {
      hide Kept, Fits, Filing, Enter, Fins, Overlap, Lists, Filed, Apart, Stocked, Part;
      if segment.final && |segment.payload| != 0 {
        return Outcome([], false, Some(FinWithPayload));
      }
      if !segment.final && |segment.payload| == 0 {
        return Outcome([], false, Some(EmptyData));
      }
      if segment.sequence > MAX_UINT64 - |segment.payload| {
        return Outcome([], false, Some(BadSequence));
      }
      if segment.sequence < next {
        if End(segment) <= next {
          return Outcome([], finalAt.Some? && finalAt.value <= next, None);
        }
        return Outcome([], false, Some(CrossesCursor));
      }
      if segment.sequence in buffer {
        if buffer[segment.sequence].final == segment.final && buffer[segment.sequence].payload == segment.payload {
          return Outcome([], finalAt.Some? && finalAt.value <= next, None);
        }
        return Outcome([], false, Some(Conflict));
      }
      KeptStock(View());
      var clear := CheckNeighbours(segment);
      if !clear {
        return Outcome([], false, Some(Overlapping));
      }
      if segment.sequence != next {
        out := Hold(segment);
      } else {
        ClearFits(next, buffer, segment);
        var output, closed := ConsumeContiguous(segment);
        out := Outcome(output, closed, None);
      }
    }

    /** Retains a segment past the cursor, if there is room for it. */
    method Hold(segment: Segment) returns (out: Outcome)
      requires Valid() && !segment.charged && Judge(next, buffer, segment).Store?
      modifies this`buffer, this`order, this`bytes, this`finalAt, this`accepted, this`fins
      modifies if memory == null then {} else {memory}
      ensures Valid() && Others() == old(Others())
      ensures Inserted(old(View()), segment, View(), out)
      ensures out.error == None ==> out.closed == Closed()
      ensures out.error == None || out.error == Some(WindowExceeded) || out.error == Some(NoMemory)
      ensures out.error == Some(WindowExceeded) <==>
        old(|order|) + 1 > maxFrames || old(bytes) + |segment.payload| > maxBytes
      ensures out.error == Some(NoMemory) <==>
        && out.error != Some(WindowExceeded) && memory != null && 0 < |segment.payload|
        && old(memory.used) + |segment.payload| > memory.capacity
    {
      hide Kept, Fits, Filing, Enter, Fins, Overlap, Stocked;
      ghost var c := View();
      KeptStock(View());
      SizeOf(buffer, order, bytes);
      if |buffer| + 1 > maxFrames || bytes + |segment.payload| > maxBytes {
        return Outcome([], false, Some(WindowExceeded));
      }
      var room := true;
      if memory != null { room := memory.TryAcquire(|segment.payload|); }
      if !room {
        return Outcome([], false, Some(NoMemory));
      }
      var s := segment.(charged := true);
      ClearFits(next, buffer, segment);
      FitsCharged(next, buffer, segment);
      File(s);
      return Outcome([], finalAt.Some? && finalAt.value <= next, None);
    }

    /** Gives back what was charged for the gaps abandoned with the flow. */
    method Close()
      requires Valid()
      modifies this`buffer, this`order, this`bytes, this`accepted
      modifies if memory == null then {} else {memory}
      ensures Valid() && Others() == old(Others())
      ensures buffer == map[] && order == [] && bytes == 0
      ensures memory != null ==> memory.used == old(memory.used) - old(bytes)
      ensures forall p: nat :: accepted(p) == if p < next then old(accepted)(p) else None
    {
      hide Stocked, Kept;
      ghost var c := View();
      KeptStock(c);
      Drain();
      accepted := (p: nat) => if p < c.next then c.accepted(p) else None;
      order := [];
      bytes := 0;
      AbandonKeeps(c, View());
    }

    /** Removes every segment, in any order, giving back what it was charged. */
    method Drain()
      requires Stocked(buffer, order, bytes)
      requires memory != null ==> memory.Valid() && bytes <= memory.used
      modifies this`buffer
      modifies if memory == null then {} else {memory}
      ensures buffer == map[]
      ensures memory != null ==> memory.Valid() && memory.used == old(memory.used) - bytes
    {
      hide Stocked;
      ghost var others: int, rest: seq<nat>, left: nat := Others(), order, bytes;
      while buffer != map[]
        invariant Stocked(buffer, rest, left)
        invariant memory != null ==> memory.Valid() && others >= 0 && memory.used == others + left
        decreases |buffer|
      {
        var k :| k in buffer;
        var segment := buffer[k];
        rest := Without(buffer, rest, left, k);
        left := left - |segment.payload|;
        if segment.charged && memory != null { memory.Release(|segment.payload|); }
        buffer := buffer - {k};
      }
      EmptyStock(buffer, rest, left);
    }

    /** The byte ranges held out of order, lowest first, at most max of them. */
    method ReceivedRanges(max: int) returns (ranges: seq<Range>)
      requires Valid()
      ensures Separate(ranges) && |ranges| <= (if max > 0 then max else 0)
      ensures forall p: nat :: InRanges(ranges, p) ==> Covered(buffer, p)
      ensures forall p: nat ::
        Covered(buffer, p) && (|ranges| < max || (max > 0 && p < ranges[max - 1].to)) ==> InRanges(ranges, p)
    {
      hide Kept, Separate, InRanges, Covered, Spanned;
      KeptStock(View());
      ranges := [];
      if max <= 0 || |buffer| == 0 {
        NothingCovered(buffer);
        return;
      }
      EmptyRanges(order, buffer);
      var i := 0;
      while i < |order|
        invariant 0 <= i <= |order| && Separate(ranges) && Spanned(ranges, order[..i], buffer)
      {
        var start := order[i];
        ListedIn(order, buffer);
        var segment := buffer[start];
        var end := start + |segment.payload|;
        var last := |ranges| - 1;
        RangeStep(ranges, order, buffer, i);
        if segment.final {
        } else if last >= 0 && ranges[last].to == start {
          ranges := ranges[..last] + [Range(ranges[last].from, end)];
        } else {
          ranges := ranges + [Range(start, end)];
        }
        i := i + 1;
      }
      assert order[..i] == order;
      SpannedCovers(ranges, order, buffer);
      if |ranges| > max {
        Truncated(ranges, max);
        ranges := ranges[..max];
      }
    }
  }

  /** A half-open range of positions. */
  datatype Range = Range(from: nat, to: nat)

  /** Ranges in ascending order, none empty, none touching the next. */
  ghost predicate Separate(ranges: seq<Range>) {
    && (forall i :: 0 <= i < |ranges| ==> ranges[i].from < ranges[i].to)
    && (forall i, j :: 0 <= i < j < |ranges| ==> ranges[i].to < ranges[j].from)
  }

  ghost predicate InRanges(ranges: seq<Range>, p: nat) {
    exists i :: 0 <= i < |ranges| && ranges[i].from <= p < ranges[i].to
  }

  /** Position p lies in a listed segment. */
  ghost predicate CoveredBy(listed: seq<nat>, buffer: Buffer, p: nat) {
    exists k :: k in listed && k in buffer && k <= p < End(buffer[k])
  }

  ghost predicate EndsOne(listed: seq<nat>, buffer: Buffer, end: nat) {
    exists k :: k in listed && k in buffer && end == End(buffer[k])
  }

  /** The ranges cover exactly the bytes of the listed segments, and end where one of them does. */
  ghost predicate Spanned(ranges: seq<Range>, listed: seq<nat>, buffer: Buffer) {
    && (forall p: nat :: InRanges(ranges, p) <==> CoveredBy(listed, buffer, p))
    && (ranges != [] ==> EndsOne(listed, buffer, ranges[|ranges| - 1].to))
  }

  lemma NothingCovered(buffer: Buffer)
    ensures Separate([]) && forall p: nat :: !InRanges([], p)
    ensures buffer == map[] ==> forall p: nat :: !Covered(buffer, p)
  {}

  lemma EmptyRanges(order: seq<nat>, buffer: Buffer)
    ensures Separate([]) && Spanned([], order[..0], buffer)
  {}

  lemma SpannedCovers(ranges: seq<Range>, order: seq<nat>, buffer: Buffer)
    requires Lists(order, buffer) && Spanned(ranges, order, buffer)
    ensures forall p: nat :: InRanges(ranges, p) <==> Covered(buffer, p)
  {
    hide InRanges;
    forall p: nat ensures InRanges(ranges, p) <==> Covered(buffer, p) {
      if Covered(buffer, p) {
        var k :| k in buffer && k <= p < End(buffer[k]);
        assert k in order;
      }
    }
  }

  lemma Truncated(ranges: seq<Range>, max: int)
    requires Separate(ranges) && 0 < max < |ranges|
    ensures Separate(ranges[..max])
    ensures forall p: nat :: InRanges(ranges[..max], p) <==> InRanges(ranges, p) && p < ranges[max - 1].to
  {
    forall p: nat ensures InRanges(ranges[..max], p) <==> InRanges(ranges, p) && p < ranges[max - 1].to {
      if InRanges(ranges, p) && p < ranges[max - 1].to {
        var i :| 0 <= i < |ranges| && ranges[i].from <= p < ranges[i].to;
        assert ranges[..max][i] == ranges[i];
      }
      if InRanges(ranges[..max], p) {
        var i :| 0 <= i < max && ranges[..max][i].from <= p < ranges[..max][i].to;
        assert ranges[i].from <= p < ranges[i].to;
      }
    }
  }

  /** Extending the last range covers what it is extended by. */
  lemma Widened(ranges: seq<Range>, end: nat)
    requires Separate(ranges) && ranges != [] && ranges[|ranges| - 1].to < end
    ensures var last := |ranges| - 1;
            var wider := ranges[..last] + [Range(ranges[last].from, end)];
            Separate(wider) && forall p: nat ::
              InRanges(wider, p) <==> InRanges(ranges, p) || ranges[last].to <= p < end
  {
    var last := |ranges| - 1;
    var wider := ranges[..last] + [Range(ranges[last].from, end)];
    forall p: nat ensures InRanges(wider, p) <==> InRanges(ranges, p) || ranges[last].to <= p < end {
      if InRanges(ranges, p) {
        var i :| 0 <= i < |ranges| && ranges[i].from <= p < ranges[i].to;
        assert wider[i].from <= p < wider[i].to;
      }
      if ranges[last].to <= p < end { assert wider[last].from <= p < wider[last].to; }
      if InRanges(wider, p) {
        var i :| 0 <= i < |wider| && wider[i].from <= p < wider[i].to;
        assert i < last ==> ranges[i] == wider[i];
        assert i == last && p < ranges[last].to ==> ranges[last].from <= p < ranges[last].to;
      }
    }
  }

  /** Adding a range past the last covers what it spans. */
  lemma Appended(ranges: seq<Range>, range: Range)
    requires Separate(ranges) && range.from < range.to && (ranges != [] ==> ranges[|ranges| - 1].to < range.from)
    ensures Separate(ranges + [range])
    ensures forall p: nat :: InRanges(ranges + [range], p) <==> InRanges(ranges, p) || range.from <= p < range.to
  {
    var more := ranges + [range];
    assert forall i :: 0 <= i < |ranges| ==> ranges[i].to <= ranges[|ranges| - 1].to;
    forall p: nat ensures InRanges(more, p) <==> InRanges(ranges, p) || range.from <= p < range.to {
      if InRanges(ranges, p) {
        var i :| 0 <= i < |ranges| && ranges[i].from <= p < ranges[i].to;
        assert more[i].from <= p < more[i].to;
      }
      if range.from <= p < range.to { assert more[|ranges|].from <= p < more[|ranges|].to; }
    }
  }

  /** The next listed segment starts where the earlier ones have ended. */
  lemma ListedNext(order: seq<nat>, buffer: Buffer, i: nat, p: nat)
    requires Lists(order, buffer) && Apart(buffer) && i < |order|
    ensures order[i] in buffer
    ensures CoveredBy(order[..i + 1], buffer, p) <==>
      CoveredBy(order[..i], buffer, p) || order[i] <= p < End(buffer[order[i]])
    ensures EndsOne(order[..i], buffer, p) ==> p <= order[i] && EndsOne(order[..i + 1], buffer, p)
    ensures p == End(buffer[order[i]]) ==> EndsOne(order[..i + 1], buffer, p)
  {
    hide Apart, Sorted;
    var k, before, listed := order[i], order[..i], order[..i + 1];
    assert listed == before + [k];
    assert k in order;
    BeforeEnds(order, buffer, i);
    if CoveredBy(before, buffer, p) {
      var m :| m in before && m in buffer && m <= p < End(buffer[m]);
      assert m in listed;
    }
    if EndsOne(before, buffer, p) {
      var m :| m in before && m in buffer && p == End(buffer[m]);
      assert m in listed;
    }
    assert k in listed;
  }

  lemma BeforeEnds(order: seq<nat>, buffer: Buffer, i: nat)
    requires Lists(order, buffer) && Apart(buffer) && i < |order|
    ensures forall m :: m in order[..i] ==> m in buffer && End(buffer[m]) <= order[i]
  {
    assert order[i] in order;
    forall m | m in order[..i] ensures m in buffer && End(buffer[m]) <= order[i] {
      assert m in order;
    }
  }

  /** The ranges with one more segment, joined to the last range when it continues it. */
  function Extended(ranges: seq<Range>, start: nat, s: Segment): seq<Range> {
    var last, end := |ranges| - 1, start + |s.payload|;
    if s.final then ranges
    else if last >= 0 && ranges[last].to == start then ranges[..last] + [Range(ranges[last].from, end)]
    else ranges + [Range(start, end)]
  }

  lemma RangeStep(ranges: seq<Range>, order: seq<nat>, buffer: Buffer, i: nat)
    requires Lists(order, buffer) && Filed(buffer) && Apart(buffer) && i < |order|
    requires Separate(ranges) && Spanned(ranges, order[..i], buffer)
    ensures order[i] in buffer
    ensures var ranges' := Extended(ranges, order[i], buffer[order[i]]);
            Separate(ranges') && Spanned(ranges', order[..i + 1], buffer)
  {
    hide Sorted, Apart, Lists, Separate, CoveredBy, EndsOne, InRanges;
    ListedNext(order, buffer, i, 0);
    var k, s, last := order[i], buffer[order[i]], |ranges| - 1;
    forall p: nat
      ensures CoveredBy(order[..i + 1], buffer, p) <==> CoveredBy(order[..i], buffer, p) || k <= p < End(s)
    {
      ListedNext(order, buffer, i, p);
    }
    if ranges != [] { ListedNext(order, buffer, i, ranges[last].to); }
    var more := Extended(ranges, k, s);
    if !s.final {
      if last >= 0 && ranges[last].to == k {
        Widened(ranges, End(s));
      } else {
        Appended(ranges, Range(k, End(s)));
      }
      assert more[|more| - 1].to == End(s);
    }
    forall p: nat ensures InRanges(more, p) <==> CoveredBy(order[..i + 1], buffer, p) {
      assert InRanges(more, p) <==> InRanges(ranges, p) || k <= p < End(s);
    }
    if more != [] {
      var end := more[|more| - 1].to;
      ListedNext(order, buffer, i, end);
    }
  }

  /** The order without a segment that is about to be removed. */
  ghost function Without(buffer: Buffer, order: seq<nat>, bytes: nat, k: nat): (rest: seq<nat>)
    requires Stocked(buffer, order, bytes) && k in buffer
    ensures buffer[k].charged && |buffer[k].payload| <= bytes && |buffer - {k}| < |buffer|
    ensures Stocked(buffer - {k}, rest, bytes - |buffer[k].payload|)
  {
    assert k in order;
    var at: nat :| at < |order| && order[at] == k;
    RemovalLists(order, buffer, at);
    RemovalSize(buffer, k);
    StockLess(buffer, order, bytes, k, Removal(order, at));
    Removal(order, at)
  }

  lemma EmptyStock(buffer: Buffer, order: seq<nat>, bytes: nat)
    requires Stocked(buffer, order, bytes) && buffer == map[]
    ensures bytes == 0 && Stocked(buffer, [], 0)
  {}

  lemma AbandonKeeps(c: Contents, c': Contents)
    requires Kept(c) && c'.buffer == map[] && c'.order == [] && c'.bytes == 0
    requires c'.next == c.next && c'.finalAt == c.finalAt && c'.delivered == c.delivered && c'.fins == c.fins
    requires forall p: nat :: c'.accepted(p) == if p < c.next then c.accepted(p) else None
    ensures Kept(c')
  {
    EmptyStock(map[], [], 0);
  }

  lemma KeptStock(c: Contents)
    requires Kept(c)
    ensures Stocked(c.buffer, c.order, c.bytes) && Lists(c.order, c.buffer) && Filed(c.buffer) && Apart(c.buffer)
  {}

  lemma SizeOf(buffer: Buffer, order: seq<nat>, bytes: nat)
    requires Stocked(buffer, order, bytes)
    ensures |buffer| == |order|
  {}

  lemma ClearFits(next: nat, buffer: Buffer, s: Segment)
    requires Filed(buffer) && (Judge(next, buffer, s).Store? || Judge(next, buffer, s).Consume?)
    ensures Fits(next, buffer, s) && (s.final <==> s.payload == []) && End(s) <= MAX_UINT64
  {}

  lemma FitsCharged(next: nat, buffer: Buffer, s: Segment)
    requires Fits(next, buffer, s)
    ensures Fits(next, buffer, s.(charged := true)) && End(s) == End(s.(charged := true))
  {
    hide Filed;
  }

  /** What an insertion does to the contents, by the verdict on the segment. */
  ghost predicate Inserted(c: Contents, s: Segment, c': Contents, out: Outcome) {
    match Judge(c.next, c.buffer, s)
    case Refuse(error) => c' == c && out.error == Some(error) && out.output == []
    case Ignore => c' == c && out.error == None && out.output == []
    case Store =>
      out.output == [] &&
      if out.error == None then c' == Filing(c, s.(charged := true), c'.order)
      else c' == c && (out.error == Some(WindowExceeded) || out.error == Some(NoMemory))
    case Consume =>
      out.error == None && c'.delivered == c.delivered + out.output && Part(c'.buffer, c.buffer)
      && c'.accepted == Enter(c.accepted, s.sequence, s.payload) && c'.fins == Fins(c.fins, s)
  }

  /** Everything held was already held. */
  ghost predicate Part(buffer: Buffer, whole: Buffer) {
    forall k :: k in buffer ==> k in whole && buffer[k] == whole[k]
  }

  lemma PartWhole(buffer: Buffer)
    ensures Part(buffer, buffer)
  {}

  lemma PartLess(buffer: Buffer, whole: Buffer, k: nat)
    requires Part(buffer, whole)
    ensures Part(buffer - {k}, whole)
  {}

  lemma FitsFresh(next: nat, buffer: Buffer, s: Segment)
    requires Fits(next, buffer, s)
    ensures s.sequence !in buffer
  {}

  lemma ListedIn(order: seq<nat>, buffer: Buffer)
    requires Lists(order, buffer)
    ensures forall i :: 0 <= i < |order| ==> order[i] in buffer
  {
    forall i | 0 <= i < |order| ensures order[i] in buffer { assert order[i] in order; }
  }

  lemma RankBounds(order: seq<nat>, s: nat, at: nat)
    requires IsRank(order, s, at)
    ensures at <= |order| && (at > 0 ==> order[at - 1] < s) && (at < |order| ==> s <= order[at])
  {}
}
