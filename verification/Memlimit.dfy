/** The shared byte budget (budget.go): a fixed capacity, bytes acquired and bytes returned, and the
    wake-up of those who wait. Each method is one stretch of code run under the budget's lock, so a
    sequence of calls is one interleaving of any number of callers. */
module Memlimit {
  /** A caller waiting for bytes: its request, and the generation whose closing wakes it. */
  datatype Waiter = Waiter(request: int, generation: nat)

  datatype Attempt = Granted | TooLarge | Cancelled | Parked

  /** What is outstanding after a record of bytes granted and, with a minus sign, given back. */
  function Total(ledger: seq<int>): int {
    if ledger == [] then 0 else Total(ledger[..|ledger| - 1]) + ledger[|ledger| - 1]
  }

  /** The most that was ever outstanding. */
  function Highest(ledger: seq<int>): int {
    if ledger == [] then 0
    else
      var before := Highest(ledger[..|ledger| - 1]);
      if Total(ledger) > before then Total(ledger) else before
  }

  lemma OneMoreEntry(ledger: seq<int>, x: int)
    ensures Total(ledger + [x]) == Total(ledger) + x
    ensures Highest(ledger + [x]) == if Total(ledger) + x > Highest(ledger) then Total(ledger) + x else Highest(ledger)
  {
    assert (ledger + [x])[..|ledger|] == ledger;
  }

  /** Whatever was outstanding at any time is no more than the most that ever was, and that much once was. */
  lemma {:induction false} HighestIs(ledger: seq<int>)
    ensures forall n: nat :: n <= |ledger| ==> Total(ledger[..n]) <= Highest(ledger)
    ensures exists n: nat :: n <= |ledger| && Total(ledger[..n]) == Highest(ledger)
  {
    var before := if ledger == [] then [] else ledger[..|ledger| - 1];
    assert ledger[..|ledger|] == ledger;
    if ledger != [] {
      HighestIs(before);
      var m: nat :| m <= |before| && Total(before[..m]) == Highest(before);
      assert ledger[..m] == before[..m];
      forall n: nat | n <= |ledger| ensures Total(ledger[..n]) <= Highest(ledger) {
        if n <= |before| { assert ledger[..n] == before[..n]; }
      }
    } else {
      assert Total(ledger[..0]) == Highest(ledger);
    }
  }

  class Budget {
    const capacity: int
    var used: int
    var peak: int
    var waiters: int
    // The generation now open; every earlier one is closed.
    var generation: nat
    ghost var parked: map<nat, Waiter>
    // Every grant and, with a minus sign, every return, in order.
    ghost var ledger: seq<int>

    /** What is in use is what was granted and not given back, and the peak is the most that ever was.
        No wake-up is ever lost: whoever waits on the open generation asks for more than is free. */
    ghost predicate Valid()
      reads this
    {
      && used == Total(ledger) && peak == Highest(ledger)
      && 0 <= used <= peak <= capacity && waiters == |parked|
      && forall id :: id in parked ==> Sound(parked[id], capacity, used, generation)
    }

    constructor (capacity: int)
      requires capacity > 0
      ensures Valid() && this.capacity == capacity && ledger == [] && parked == map[]
    {
      this.capacity, used, peak, waiters, generation, parked, ledger := capacity, 0, 0, 0, 0, map[], [];
    }

    /** Reserves n bytes without waiting. */
    method TryAcquire(n: int) returns (ok: bool)
      requires Valid()
      modifies this`used, this`peak, this`ledger
      ensures Valid()
      ensures ok <==> n <= 0 || n <= capacity - old(used)
      ensures ledger == if ok && n > 0 then old(ledger) + [n] else old(ledger)
      ensures used == if ok && n > 0 then old(used) + n else old(used)
      ensures peak == if used > old(peak) then used else old(peak)
    {
      if n <= 0 {
        return true;
      }
      if n > capacity - used {
        return false;
      }
      OneMoreEntry(ledger, n);
      ledger := ledger + [n];
      used := used + n;
      if used > peak {
        peak := used;
      }
      return true;
    }

    /** A caller asks for n bytes: it is refused, cancelled, served, or parked on the open generation. */
    method Acquire(id: nat, n: int, cancelled: bool) returns (r: Attempt)
      requires Valid() && id !in parked
      modifies this`used, this`peak, this`waiters, this`parked, this`ledger
      ensures Valid()
      ensures r == (if n <= 0 then Granted else if n > capacity then TooLarge else if cancelled then Cancelled
                    else if n <= capacity - old(used) then Granted else Parked)
      ensures ledger == if r == Granted && n > 0 then old(ledger) + [n] else old(ledger)
      ensures used == if r == Granted && n > 0 then old(used) + n else old(used)
      ensures peak == if used > old(peak) then used else old(peak)
      ensures parked == if r == Parked then old(parked)[id := Waiter(n, generation)] else old(parked)
    {
      if n <= 0 {
        return Granted;
      }
      if n > capacity {
        return TooLarge;
      }
      r := Round(id, n, cancelled);
    }

    /** Once around the loop of a caller that is not parked. */
    method Round(id: nat, request: int, cancelled: bool) returns (r: Attempt)
      requires Valid() && id !in parked && 0 < request <= capacity
      modifies this`used, this`peak, this`waiters, this`parked, this`ledger
      ensures Valid()
      ensures r == if cancelled then Cancelled else if request <= capacity - old(used) then Granted else Parked
      ensures ledger == if r == Granted then old(ledger) + [request] else old(ledger)
      ensures used == if r == Granted then old(used) + request else old(used)
      ensures peak == if used > old(peak) then used else old(peak)
      ensures parked == if r == Parked then old(parked)[id := Waiter(request, generation)] else old(parked)
    {
      if cancelled {
        return Cancelled;
      }
      if request <= capacity - used {
        OneMoreEntry(ledger, request);
        ledger := ledger + [request];
        used := used + request;
        if used > peak {
          peak := used;
        }
        return Granted;
      }
      waiters := waiters + 1;
      parked := parked[id := Waiter(request, generation)];
      return Parked;
    }

    /** A parked caller whose generation has closed goes around the loop again. */
    method Wake(id: nat, request: int, cancelled: bool) returns (r: Attempt)
      requires Valid() && id in parked && parked[id].generation < generation && parked[id].request == request
      modifies this`used, this`peak, this`waiters, this`parked, this`ledger
      ensures Valid()
      ensures r == if cancelled then Cancelled else if request <= capacity - old(used) then Granted else Parked
      ensures ledger == if r == Granted then old(ledger) + [request] else old(ledger)
      ensures used == if r == Granted then old(used) + request else old(used)
      ensures peak == if used > old(peak) then used else old(peak)
      ensures parked == if r == Parked then old(parked)[id := Waiter(request, generation)] else old(parked) - {id}
    {
      Unpark(id);
      r := Round(id, request, cancelled);
      assert (old(parked) - {id})[id := Waiter(request, generation)] == old(parked)[id := Waiter(request, generation)];
    }

    /** A parked caller whose context ended gives up, whether or not it was woken. */
    method Abandon(id: nat)
      requires Valid() && id in parked
      modifies this`waiters, this`parked
      ensures Valid() && parked == old(parked) - {id}
    {
      Unpark(id);
    }

    method Unpark(id: nat)
      requires Valid() && id in parked
      modifies this`waiters, this`parked
      ensures Valid() && parked == old(parked) - {id}
    {
      assert parked == (parked - {id})[id := parked[id]];
      waiters := waiters - 1;
      parked := parked - {id};
    }

    /** Returns n bytes and wakes everyone; returning more than were acquired is a programming error. */
    method Release(n: int)
      requires Valid() && n <= used
      modifies this`used, this`generation, this`ledger
      ensures Valid() && used == if n > 0 then old(used) - n else old(used)
      ensures ledger == if n > 0 then old(ledger) + [-n] else old(ledger)
      ensures n > 0 ==> forall id :: id in parked ==> parked[id].generation < generation
    {
      if n <= 0 {
        return;
      }
      OneMoreEntry(ledger, -n);
      ledger := ledger + [-n];
      used := used - n;
      generation := generation + 1;
    }

    /** Whoever could be served now has been woken. */
    lemma NoLostWakeUp(id: nat)
      requires Valid() && id in parked && parked[id].request <= capacity - used
      ensures parked[id].generation < generation
    {
      assert Sound(parked[id], capacity, used, generation);
    }
  }

  ghost predicate Sound(w: Waiter, capacity: int, used: int, generation: nat) {
    && 0 < w.request <= capacity && w.generation <= generation
    && (w.generation == generation ==> w.request > capacity - used)
  }
}
