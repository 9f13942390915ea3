/** A ring buffer that doubles when it is full (ringbuffer.go). */
module RingBuffer {
  /** Where the i-th element from the head stands. */
  function Slot(head: nat, i: nat, size: nat): (s: nat)
    requires head < size && i < size
    ensures s < size
  {
    if head + i < size then head + i else head + i - size
  }

  /** The ring shows these elements from its head on. */
  ghost predicate Shows<T>(ring: seq<T>, head: nat, contents: seq<T>) {
    |contents| <= |ring| && (contents != [] ==> head < |ring|) && forall i ::
      0 <= i < |contents| ==> contents[i] == ring[Slot(head, i, |ring|)]
  }

  class Ring<T> {
    var ring: array<T>
    var headPos: nat
    var tailPos: nat
    var full: bool
    const zero: T
    ghost var contents: seq<T>

    ghost predicate Valid()
      reads this, ring
    {
      var n := ring.Length;
      && Shows(ring[..], headPos, contents)
      && (n == 0 ==> headPos == 0 && tailPos == 0 && !full)
      && (n > 0 ==>
            && headPos < n
            && tailPos == (if headPos + |contents| < n then headPos + |contents| else headPos + |contents| - n))
      && (full <==> n > 0 && |contents| == n)
    }

    constructor (size: nat, zero: T)
      ensures Valid() && contents == [] && fresh(ring) && ring.Length == size
    {
      this.zero := zero;
      ring := new T[size](_ => zero);
      headPos, tailPos, full, contents := 0, 0, false, [];
    }

    function Len(): nat
      requires Valid()
      reads this, ring
      ensures Len() == |contents|
    {
      if full then ring.Length
      else if tailPos >= headPos then tailPos - headPos
      else tailPos + ring.Length - headPos
    }

    predicate Empty()
      requires Valid()
      reads this, ring
      ensures Empty() <==> contents == []
    {
      !full && headPos == tailPos
    }

    /** Adds an element behind the others. */
    method PushBack(t: T)
      requires Valid()
      modifies this, ring
      ensures Valid() && contents == old(contents) + [t] && (ring == old(ring) || fresh(ring))
    {
      if full || ring.Length == 0 {
        Grow();
      }
      ring[tailPos] := t;
      tailPos := tailPos + 1;
      if tailPos == ring.Length {
        tailPos := 0;
      }
      if tailPos == headPos {
        full := true;
      }
      contents := contents + [t];
    }

    /** Takes the front element out. */
    method PopFront() returns (t: T)
      requires Valid() && contents != []
      modifies this, ring
      ensures Valid() && t == old(contents)[0] && contents == old(contents)[1..] && ring == old(ring)
    {
      full := false;
      t := ring[headPos];
      ring[headPos] := zero;
      headPos := headPos + 1;
      if headPos == ring.Length {
        headPos := 0;
      }
      contents := contents[1..];
    }

    /** The element index places behind the front. */
    method Offset(index: nat) returns (t: T)
      requires Valid() && index < |contents|
      ensures t == contents[index]
    {
      var offset := (headPos + index) % ring.Length;
      Wrapped(headPos + index, ring.Length);
      t := ring[offset];
    }

    /** Writes the element index places behind the front, in place. */
    method SetOffset(index: nat, t: T)
      requires Valid() && index < |contents|
      modifies this`contents, ring
      ensures Valid() && contents == old(contents)[index := t]
    {
      var offset := (headPos + index) % ring.Length;
      Wrapped(headPos + index, ring.Length);
      ring[offset] := t;
      contents := contents[index := t];
    }

    method Front() returns (t: T)
      requires Valid() && contents != []
      ensures t == contents[0]
    {
      t := ring[headPos];
    }

    method Back() returns (t: T)
      requires Valid() && contents != []
      ensures t == contents[|contents| - 1]
    {
      t := Offset(Len() - 1);
    }

    /** Doubles a full ring; what it holds stays as it was. */
    method Grow()
      requires Valid() && (full || ring.Length == 0)
      modifies this
      ensures Valid() && contents == old(contents) && fresh(ring) && ring.Length > |contents|
      ensures headPos == 0 && tailPos == |contents| && !full
    {
      var oldRing := ring;
      var n := oldRing.Length;
      var newSize := n * 2;
      if newSize == 0 {
        newSize := 1;
      }
      ring := new T[newSize](_ => zero);
      var headLen := n - headPos;
      forall i | 0 <= i < headLen { ring[i] := oldRing[headPos + i]; }
      forall i | 0 <= i < headPos { ring[headLen + i] := oldRing[i]; }
      headPos, tailPos, full := 0, n, false;
    }

    method Clear()
      requires Valid()
      modifies this, ring
      ensures Valid() && contents == []
    {
      forall i | 0 <= i < ring.Length { ring[i] := zero; }
      headPos, tailPos, full, contents := 0, 0, false, [];
    }
  }

  lemma Wrapped(k: nat, n: nat)
    requires n > 0 && k < n + n
    ensures k % n == if k < n then k else k - n
  {
    if k >= n {
      assert k == n * 1 + (k - n);
      assert (k - n) % n == k - n;
      assert k % n == (k - n) % n;
    }
  }
}
