/** A queue of mostly continuous packet numbers over a growing ring (packet_number_indexed_queue.go). */
module PacketQueue {
  import opened Wrappers
  import opened RingBuffer

  const INVALID := -1

  /** How many slots hold an entry. */
  function Present<T>(slots: seq<Option<T>>): nat {
    if slots == [] then 0 else (if slots[0].Some? then 1 else 0) + Present(slots[1..])
  }

  /** The slot a packet number has, if it has one. */
  function SlotOf<T>(first: int, slots: seq<Option<T>>, p: int): Option<T> {
    if first <= p < first + |slots| then slots[p - first] else None
  }

  /** The entries, each at its packet number. */
  ghost function Entries<T>(first: int, slots: seq<Option<T>>): map<int, T> {
    map p | first <= p < first + |slots| && SlotOf(first, slots, p).Some? :: SlotOf(first, slots, p).value
  }

  lemma SlotOfAppend<T>(first: int, slots: seq<Option<T>>, slot: Option<T>, p: int)
    ensures SlotOf(first, slots + [slot], p) == if p == first + |slots| then slot else SlotOf(first, slots, p)
  {}

  lemma EntriesAppend<T>(first: int, slots: seq<Option<T>>, slot: Option<T>)
    ensures Present(slots + [slot]) == Present(slots) + (if slot.Some? then 1 else 0)
    ensures Entries(first, slots + [slot]) == if slot.Some? then Entries(first, slots)[first + |slots| := slot.value]
                                              else Entries(first, slots)
  {
    hide Present, SlotOf;
    PresentAppend(slots, slot);
    forall p
      ensures SlotOf(first, slots + [slot], p) == if p == first + |slots| then slot else SlotOf(first, slots, p)
    {
      SlotOfAppend(first, slots, slot, p);
    }
  }

  lemma {:induction false} PresentAppend<T>(slots: seq<Option<T>>, slot: Option<T>)
    ensures Present(slots + [slot]) == Present(slots) + (if slot.Some? then 1 else 0)
  {
    if slots != [] {
      assert (slots + [slot])[1..] == slots[1..] + [slot];
      PresentAppend(slots[1..], slot);
    }
  }

  lemma {:induction false} PresentUpdate<T>(slots: seq<Option<T>>, i: nat)
    requires i < |slots| && slots[i].Some?
    ensures Present(slots[i := None]) == Present(slots) - 1
  {
    if i == 0 {
      assert slots[0 := None][1..] == slots[1..];
    } else {
      assert slots[i := None][1..] == slots[1..][i - 1 := None];
      PresentUpdate(slots[1..], i - 1);
    }
  }

  lemma EntriesWithout<T>(first: int, slots: seq<Option<T>>, i: nat)
    requires i < |slots|
    ensures Entries(first, slots[i := None]) == Entries(first, slots) - {first + i}
  {
    hide SlotOf;
    forall p ensures SlotOf(first, slots[i := None], p) == if p == first + i then None else SlotOf(first, slots, p) {
      SlotOfWithout(first, slots, i, p);
    }
    var a, b := Entries(first, slots[i := None]), Entries(first, slots) - {first + i};
    assert forall p :: p in a <==> p in b;
    assert forall p :: p in a ==> a[p] == b[p];
  }

  lemma SlotOfWithout<T>(first: int, slots: seq<Option<T>>, i: nat, p: int)
    requires i < |slots|
    ensures SlotOf(first, slots[i := None], p) == if p == first + i then None else SlotOf(first, slots, p)
  {}

  lemma {:induction false} PresentSize<T>(first: int, slots: seq<Option<T>>)
    ensures |Entries(first, slots)| == Present(slots)
    decreases slots
  {
    var entries := Entries(first, slots);
    if slots == [] {
      assert entries == map[];
    } else {
      var rest := Entries(first + 1, slots[1..]);
      PresentSize(first + 1, slots[1..]);
      assert forall p :: p in rest ==> p in entries && rest[p] == entries[p];
      if slots[0].Some? {
        assert entries == rest[first := slots[0].value];
      } else {
        assert entries == rest;
      }
    }
  }

  class Queue<T> {
    const entries: Ring<Option<T>>
    var numberOfPresentEntries: int
    var firstPacket: int

    ghost predicate Valid()
      reads this, entries, entries.ring
    {
      && entries.Valid() && numberOfPresentEntries == Present(entries.contents)
      && (entries.contents == [] <==> firstPacket == INVALID) && firstPacket >= INVALID
      && (entries.contents != [] ==> entries.contents[0].Some?)
    }

    /** The map this queue stands for. */
    ghost function View(): map<int, T>
      reads this, entries
    {
      Entries(firstPacket, entries.contents)
    }

    constructor (size: nat)
      ensures Valid() && View() == map[] && fresh(entries) && fresh(entries.ring)
    {
      entries := new Ring(size, None);
      firstPacket, numberOfPresentEntries := INVALID, 0;
    }

    predicate IsEmpty()
      reads this
    {
      numberOfPresentEntries == 0
    }

    /** Nothing is present exactly when no slot is used, and the first slot used is the lowest entry. */
    lemma FrontIsFirst()
      requires Valid()
      ensures IsEmpty() <==> View() == map[]
      ensures View() == map[] <==> entries.contents == []
      ensures |View()| == numberOfPresentEntries
      ensures View() != map[] ==> firstPacket in View() && forall p :: p in View() ==> firstPacket <= p
    {
      PresentSize(firstPacket, entries.contents);
      if entries.contents != [] { assert firstPacket in View(); }
    }

    function LastPacket(): int
      requires Valid()
      reads this, entries, entries.ring
    {
      if IsEmpty() then INVALID else firstPacket + entries.Len() - 1
    }

    /** Puts an entry at the end of the queue or past it. */
    method Emplace(packetNumber: int, entry: Option<T>) returns (ok: bool)
      requires Valid() && packetNumber >= INVALID
      modifies this, entries, entries.ring
      ensures Valid() && (entries.ring == old(entries.ring) || fresh(entries.ring))
      ensures ok <==>
        packetNumber != INVALID && entry.Some? && (old(View()) == map[] || packetNumber > old(LastPacket()))
      ensures View() == if ok then old(View())[packetNumber := entry.value] else old(View())
      ensures ok ==> LastPacket() == packetNumber
    {
      hide Entries, Present;
      FrontIsFirst();
      if packetNumber == INVALID || entry == None {
        return false;
      }
      if IsEmpty() {
        EntriesAppend(packetNumber, [], entry);
        NoEntries<T>(packetNumber);
        assert entries.contents + [entry] == [] + [entry];
        entries.PushBack(entry);
        numberOfPresentEntries := 1;
        firstPacket := packetNumber;
        return true;
      }
      if packetNumber <= LastPacket() {
        return false;
      }
      var offset := packetNumber - firstPacket;
      Pad(offset);
      EntriesAppend(firstPacket, entries.contents, entry);
      entries.PushBack(entry);
      numberOfPresentEntries := numberOfPresentEntries + 1;
      FrontIsFirst();
      return true;
    }

    /** Fills the slots missing before an offset. */
    method Pad(offset: int)
      requires Valid() && entries.contents != [] && offset >= |entries.contents|
      modifies entries, entries.ring
      ensures Valid() && |entries.contents| == offset && (entries.ring == old(entries.ring) || fresh(entries.ring))
      ensures entries.contents != [] && View() == old(View())
    {
      hide Entries, Present;
      var gap := offset - entries.Len();
      var i := 0;
      while i < gap
        invariant 0 <= i <= gap && Valid() && |entries.contents| == old(|entries.contents|) + i
        invariant entries.contents != [] && entries.contents[0].Some?
        invariant entries.ring == old(entries.ring) || fresh(entries.ring)
        invariant View() == old(View())
      {
        EntriesAppend(firstPacket, entries.contents, None);
        entries.PushBack(None);
        i := i + 1;
      }
    }

    /** The entry at a packet number, if there is one. */
    method GetEntry(packetNumber: int) returns (entry: Option<T>)
      requires Valid()
      ensures entry == if packetNumber in View() then Some(View()[packetNumber]) else None
    {
      FrontIsFirst();
      if packetNumber == INVALID || IsEmpty() || packetNumber < firstPacket {
        return None;
      }
      var offset := packetNumber - firstPacket;
      if offset >= entries.Len() {
        return None;
      }
      entry := entries.Offset(offset);
    }

    /** Takes out the entry at a packet number. */
    method Remove(packetNumber: int) returns (entry: Option<T>)
      requires Valid()
      modifies this, entries, entries.ring
      ensures Valid() && entries.ring == old(entries.ring)
      ensures entry == if packetNumber in old(View()) then Some(old(View())[packetNumber]) else None
      ensures View() == old(View()) - {packetNumber}
    {
      entry := GetEntry(packetNumber);
      if entry == None {
        return;
      }
      var offset := packetNumber - firstPacket;
      PresentUpdate(entries.contents, offset);
      ghost var before := entries.contents;
      entries.SetOffset(offset, None);
      numberOfPresentEntries := numberOfPresentEntries - 1;
      EntriesWithout(firstPacket, before, offset);
      if packetNumber == firstPacket {
        ClearUp();
      }
    }

    /** Takes out every entry below a packet number. */
    method RemoveUpTo(packetNumber: int)
      requires Valid()
      modifies this, entries, entries.ring
      ensures Valid() && entries.ring == old(entries.ring)
      ensures View() == map p | p in old(View()) && p >= packetNumber :: old(View())[p]
    {
      while !entries.Empty() && firstPacket != INVALID && firstPacket < packetNumber
        invariant Loose() && entries.ring == old(entries.ring)
        invariant Trimmed(old(View()), View(), packetNumber)
        decreases |entries.contents|
      {
        var front := entries.Front();
        if front.Some? {
          numberOfPresentEntries := numberOfPresentEntries - 1;
        }
        DropFront();
      }
      LooseAbove(packetNumber);
      ClearUp();
    }

    /** As Valid, while the front may stand for no entry. */
    ghost predicate Loose()
      reads this, entries, entries.ring
    {
      && entries.Valid() && numberOfPresentEntries == Present(entries.contents)
      && (entries.contents != [] ==> firstPacket >= 0) && firstPacket >= INVALID
    }

    /** Takes the front slot out. */
    method DropFront()
      requires entries.Valid() && entries.contents != [] && firstPacket >= 0
      requires numberOfPresentEntries == Present(entries.contents[1..])
      modifies this`firstPacket, entries, entries.ring
      ensures Loose() && entries.ring == old(entries.ring) && firstPacket == old(firstPacket) + 1
      ensures entries.contents == old(entries.contents)[1..]
      ensures View() == old(View()) - {old(firstPacket)}
    {
      ghost var before := entries.contents;
      var _ := entries.PopFront();
      firstPacket := firstPacket + 1;
      FrontDropped(firstPacket - 1, before);
    }

    lemma LooseAbove(packetNumber: int)
      requires Loose() && !(entries.contents != [] && firstPacket != INVALID && firstPacket < packetNumber)
      ensures forall p :: p in View() ==> p >= packetNumber
    {}

    /** Drops empty slots from the front. */
    method ClearUp()
      requires Loose()
      modifies this`firstPacket, entries, entries.ring
      ensures Valid() && entries.ring == old(entries.ring) && View() == old(View())
    {
      while !entries.Empty()
        invariant Loose() && entries.ring == old(entries.ring) && View() == old(View())
        invariant entries.contents == [] ==> View() == map[]
        decreases |entries.contents|
      {
        var front := entries.Front();
        if front.Some? {
          return;
        }
        assert firstPacket !in View();
        DropFront();
      }
      firstPacket := INVALID;
    }
  }

  ghost predicate Trimmed<T>(all: map<int, T>, left: map<int, T>, packetNumber: int) {
    && (forall p :: p in left ==> p in all && left[p] == all[p])
    && (forall p :: p in all && p >= packetNumber ==> p in left)
  }

  lemma NoEntries<T>(first: int)
    ensures Entries<T>(first, []) == map[] && Present<T>([]) == 0
  {}

  lemma FrontDropped<T>(first: int, slots: seq<Option<T>>)
    requires slots != []
    ensures Entries(first + 1, slots[1..]) == Entries(first, slots) - {first}
  {
    forall p | first < p ensures SlotOf(first + 1, slots[1..], p) == SlotOf(first, slots, p) {}
  }
}
