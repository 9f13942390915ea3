/** The hand-off from lane readers to the application (inbound_queue.go): a channel, and behind it a
    bounded backlog that one pump empties into the channel. Each method is one stretch of code run
    under the backlog's lock or one channel operation, so a sequence of calls is one interleaving of
    any number of readers, the pump and the application. */
module InboundQueue {
  import Bits8
  import opened Memlimit

  datatype Event = Event(lane: nat, payload: seq<Bits8.byte>)

  /** Where the pump stands: about to take an event, or about to hand one over. */
  datatype Pump = Turning | Holding(event: Event)

  function Payload(events: seq<Event>): nat {
    if events == [] then 0 else |events[0].payload| + Payload(events[1..])
  }

  lemma {:induction false} PayloadAppend(events: seq<Event>, e: Event)
    ensures Payload(events + [e]) == Payload(events) + |e.payload|
  {
    if events != [] {
      assert (events + [e])[1..] == events[1..] + [e];
      PayloadAppend(events[1..], e);
    } else {
      assert [e][1..] == [];
    }
  }

  function InHand(pumps: seq<Pump>): seq<Event> {
    if pumps != [] && pumps[0].Holding? then [pumps[0].event] else []
  }

  class Backlog {
    const memory: Budget?
    const maxReceiveBytes: nat
    const maxReceiveFrames: nat
    const channelCapacity: nat
    var events: seq<Event>
    var queue: seq<Event>
    var bytes: nat
    var pumping: bool
    var pumps: seq<Pump>
    var done: bool
    // Every event accepted, every event ever put into the channel, and whether a pump has cleaned up.
    ghost var accepted: seq<Event>
    ghost var published: seq<Event>
    ghost var received: seq<Event>
    ghost var cleaned: bool

    ghost predicate Valid()
      reads this, memory
    {
      && |pumps| <= 1 && (pumping <==> |pumps| == 1) && (!pumping ==> queue == [])
      && bytes == Payload(queue) && bytes <= maxReceiveBytes && |queue| <= maxReceiveFrames
      && (memory != null ==> memory.Valid() && bytes <= memory.used)
      && published == received + events && |events| <= channelCapacity
      && (!cleaned ==> accepted == published + InHand(pumps) + queue)
      && (cleaned ==> done && pumps == [] && published <= accepted)
    }

    /** What others charged to the shared budget. */
    ghost function Others(): int
      reads this, memory
    {
      if memory == null then 0 else memory.used - bytes
    }

    constructor (memory: Budget?, maxReceiveBytes: nat, maxReceiveFrames: nat, channelCapacity: nat)
      requires memory != null ==> memory.Valid()
      ensures Valid() && accepted == [] && this.memory == memory && !done && !cleaned
    {
      this.memory, this.maxReceiveBytes, this.maxReceiveFrames := memory, maxReceiveBytes, maxReceiveFrames;
      this.channelCapacity := channelCapacity;
      events, queue, bytes, pumping, pumps, done := [], [], 0, false, [], false;
      accepted, published, received, cleaned := [], [], [], false;
    }

    /** A reader hands an event over; without room it is refused. */
    method EnqueueInbound(event: Event) returns (ok: bool)
      requires Valid()
      modifies this
      modifies if memory == null then {} else {memory}
      ensures Valid() && Others() == old(Others())
      ensures accepted == if ok then old(accepted) + [event] else old(accepted)
      ensures ok <==> !old(done) && ((!old(pumping) && old(|events|) < channelCapacity) || old(Room(|event.payload|)))
      ensures done == old(done) && cleaned == old(cleaned) && received == old(received)
    {
      hide Budget.Valid, Room;
      if done {
        return false;
      }
      if !pumping {
        if |events| < channelCapacity {
          events := events + [event];
          published := published + [event];
          accepted := accepted + [event];
          assert accepted == published + InHand(pumps) + queue;
          return true;
        }
      }
      ok := Keep(event);
    }

    /** There is room in the backlog for n more bytes. */
    predicate Room(n: nat)
      reads this, memory
    {
      && bytes + n <= maxReceiveBytes && |queue| < maxReceiveFrames
      && (memory == null || n == 0 || n <= memory.capacity - memory.used)
    }

    /** Queues an event behind the channel, and starts a pump if none runs. */
    method Keep(event: Event) returns (ok: bool)
      requires Valid() && !done
      modifies this`queue, this`bytes, this`pumping, this`pumps, this`accepted
      modifies if memory == null then {} else {memory}
      ensures Valid() && Others() == old(Others()) && (ok <==> old(Room(|event.payload|)))
      ensures accepted == if ok then old(accepted) + [event] else old(accepted)
    {
      hide Total, Highest, Sound;
      var n := |event.payload|;
      if bytes + n > maxReceiveBytes || |queue| >= maxReceiveFrames {
        return false;
      }
      if memory != null {
        var room := memory.TryAcquire(n);
        if !room {
          return false;
        }
      }
      hide Budget.Valid;
      PayloadAppend(queue, event);
      assert accepted + [event] == published + InHand(pumps) + (queue + [event]);
      queue := queue + [event];
      bytes := bytes + n;
      accepted := accepted + [event];
      if !pumping {
        pumping := true;
        pumps := pumps + [Turning];
      }
      return true;
    }

    /** The pump takes the next event, or retires when there is none. */
    method PumpTurn()
      requires Valid() && pumps == [Turning]
      modifies this`queue, this`bytes, this`pumping, this`pumps
      modifies if memory == null then {} else {memory}
      ensures Valid() && Others() == old(Others())
      ensures if old(queue) == [] then !pumping && pumps == []
              else pumps == [Holding(old(queue)[0])] && queue == old(queue)[1..]
    {
      if |queue| == 0 {
        queue := [];
        pumping := false;
        pumps := [];
        return;
      }
      hide Budget.Valid;
      var event := queue[0];
      assert published + [] + queue == published + [event] + queue[1..];
      queue := queue[1..];
      bytes := bytes - |event.payload|;
      if memory != null { memory.Release(|event.payload|); }
      pumps := [Holding(event)];
    }

    /** The pump hands its event to the channel. */
    method PumpPublish()
      requires Valid() && |pumps| == 1 && pumps[0].Holding? && |events| < channelCapacity
      modifies this`events, this`pumps, this`published
      ensures Valid() && pumps == [Turning] && published == old(published) + [old(pumps)[0].event]
    {
      var event := pumps[0].event;
      events := events + [event];
      published := published + [event];
      pumps := [Turning];
    }

    /** The flow ended while the pump held an event: what is queued is given up, and its charge with it. */
    method PumpCleanup()
      requires Valid() && |pumps| == 1 && pumps[0].Holding? && done
      modifies this`queue, this`bytes, this`pumping, this`pumps, this`cleaned
      modifies if memory == null then {} else {memory}
      ensures Valid() && cleaned && bytes == 0 && queue == [] && !pumping
      ensures Others() == old(Others())
    {
      hide Budget.Valid;
      ReleaseQueue();
      queue := [];
      bytes := 0;
      pumping := false;
      pumps := [];
      cleaned := true;
    }

    method ReleaseQueue()
      requires memory != null ==> memory.Valid() && Payload(queue) <= memory.used
      modifies if memory == null then {} else {memory}
      ensures memory != null ==> memory.Valid() && memory.used == old(memory.used) - Payload(queue)
    {
      hide Budget.Valid;
      var left := queue;
      while left != []
        invariant memory != null ==>
          && memory.Valid() && memory.used - Payload(left) == old(memory.used) - Payload(queue)
          && memory.used >= Payload(left)
      {
        if memory != null { memory.Release(|left[0].payload|); }
        left := left[1..];
      }
    }

    /** The application takes an event. */
    method Receive() returns (event: Event)
      requires Valid() && events != []
      modifies this`events, this`received
      ensures Valid() && event == old(events)[0] && received == old(received) + [event]
    {
      event := events[0];
      events := events[1..];
      received := received + [event];
    }

    method Shutdown()
      requires Valid()
      modifies this`done
      ensures Valid() && done
    {
      done := true;
    }

    /** What the application has received is what was accepted, in the order it was. */
    lemma FirstInFirstOut()
      requires Valid()
      ensures received <= published <= accepted
      ensures !cleaned && pumps == [] && events == [] ==> received == accepted
    {}

    /** Once the pump is gone nothing is queued and nothing is charged. */
    lemma NothingLeft()
      requires Valid() && pumps == []
      ensures queue == [] && bytes == 0
    {}
  }
}
