/** The table of packets in flight (bbr_tuic_bw.go): a watermark under its keys turns the removal of
    obsolete packets from a scan of the table into a walk of what is dropped. */
module PacketStates {
  const MAX_STATES: nat := 8192

  /** A packet number, or the one before every other. */
  type PacketNumber = n: int | n >= -1

  ghost predicate Sorted(s: seq<PacketNumber>) {
    forall i, j :: 0 <= i < j < |s| ==> s[i] < s[j]
  }

  /** The keys in ascending order. */
  method SortedKeys(keys: set<PacketNumber>) returns (s: seq<PacketNumber>)
    ensures Sorted(s) && |s| == |keys| && forall k :: k in s <==> k in keys
  {
    s := [];
    var left: set<PacketNumber> := keys;
    while left != {}
      invariant left <= keys && Sorted(s) && |s| + |left| == |keys| && forall k :: k in s <==> k in keys - left
    {
      var k :| k in left;
      left := left - {k};
      s := Insert(s, k);
    }
  }

  method Insert(s: seq<PacketNumber>, k: PacketNumber) returns (r: seq<PacketNumber>)
    requires Sorted(s) && k !in s
    ensures Sorted(r) && |r| == |s| + 1 && forall m :: m in r <==> m in s || m == k
  {
    var i := 0;
    while i < |s| && s[i] < k
      invariant 0 <= i <= |s| && forall j :: 0 <= j < i ==> s[j] < k
    {
      i := i + 1;
    }
    r := s[..i] + [k] + s[i..];
    InsertedSorted(s, i, k);
    assert s == s[..i] + s[i..];
    hide Sorted;
  }

  lemma InsertedSorted(s: seq<PacketNumber>, i: nat, k: PacketNumber)
    requires Sorted(s) && i <= |s| && (forall j :: 0 <= j < i ==> s[j] < k) && (i < |s| ==> k < s[i])
    ensures Sorted(s[..i] + [k] + s[i..])
  {
    var r := s[..i] + [k] + s[i..];
    forall a, b | 0 <= a < b < |r| ensures r[a] < r[b] {
      assert r[a] == (if a < i then s[a] else if a == i then k else s[a - 1]);
      assert r[b] == (if b < i then s[b] else if b == i then k else s[b - 1]);
      assert i < b ==> s[i] <= s[b - 1];
    }
  }

  function FirstFew(numbers: seq<PacketNumber>, n: nat): set<PacketNumber>
    requires n <= |numbers|
  {
    set i | 0 <= i < n :: numbers[i]
  }

  /** Of numbers in ascending order the first few are the lowest. */
  lemma FirstLowest(numbers: seq<PacketNumber>, n: nat)
    requires Sorted(numbers) && n <= |numbers|
    ensures forall a :: a in FirstFew(numbers, n) ==> a in numbers
    ensures forall a, b :: a in FirstFew(numbers, n) && b in numbers && b !in FirstFew(numbers, n) ==> a < b
  {
    forall a, b | a in FirstFew(numbers, n) && b in numbers && b !in FirstFew(numbers, n) ensures a < b {
      var i :| 0 <= i < n && numbers[i] == a;
      var j :| 0 <= j < |numbers| && numbers[j] == b;
      assert j >= n;
    }
  }

  class Table<T> {
    var states: map<PacketNumber, T>
    var lowestState: PacketNumber
    var lowestKnown: bool
    // The newest number sent, the last oldest-outstanding number reported if any was, where the
    // watermark first stood, and how many numbers have been walked.
    ghost var newest: PacketNumber
    ghost var reported: bool
    ghost var leastUnacked: PacketNumber
    ghost var origin: PacketNumber
    ghost var walked: nat

    /** The watermark never stands above a key, the table is bounded, and no more numbers have been
        walked than the watermark has moved. */
    ghost predicate Valid()
      reads this
    {
      && |states| <= MAX_STATES
      && (states != map[] ==> lowestKnown)
      && (forall n :: n in states ==> lowestState <= n <= newest)
      && (reported ==> lowestKnown && lowestState == leastUnacked && walked <= leastUnacked - origin)
      && (!reported ==> walked == 0 && (lowestKnown ==> origin == lowestState <= newest))
    }

    constructor ()
      ensures Valid() && states == map[] && !reported && walked == 0 && newest == -1
    {
      states, lowestState, lowestKnown := map[], 0, false;
      newest, reported, leastUnacked, origin, walked := -1, false, 0, 0, 0;
    }

    /** Records a packet; a full table first loses its oldest quarter. */
    method OnSentPacket(number: PacketNumber, state: T)
      requires Valid() && number > newest && (reported ==> number >= leastUnacked)
      modifies this
      ensures Valid() && newest == number && number in states && states[number] == state
      ensures forall n :: n in states && n != number ==> n in old(states) && states[n] == old(states)[n]
      ensures old(|states|) < MAX_STATES ==> states == old(states)[number := state]
      ensures old(|states|) == MAX_STATES ==> |states| == MAX_STATES - MAX_STATES / 4 + 1
      ensures forall k, n :: k in old(states) && k !in states && n in states ==> k < n
      ensures reported == old(reported) && leastUnacked == old(leastUnacked) && walked == old(walked)
    {
      if |states| >= MAX_STATES {
        PruneStates();
      }
      if !lowestKnown {
        lowestState, lowestKnown := number, true;
        origin := number;
      }
      assert number !in states;
      states := states[number := state];
      newest := number;
    }

    /** Forgets an acknowledged packet. */
    method Forget(number: PacketNumber)
      requires Valid()
      modifies this`states
      ensures Valid() && states == old(states) - {number}
    {
      Fewer(states, {number});
      states := states - {number};
    }

    /** Drops the lowest quarter of a full table. */
    method PruneStates()
      requires Valid() && |states| == MAX_STATES
      modifies this`states
      ensures Valid() && |states| == MAX_STATES - MAX_STATES / 4
      ensures forall n :: n in states ==> n in old(states) && states[n] == old(states)[n]
      ensures forall k, n :: k in old(states) && k !in states && n in states ==> k < n
    {
      hide FirstFew, Sorted;
      var remove := MAX_STATES / 4;
      var numbers := SortedKeys(states.Keys);
      var dropped := FirstFew(numbers, remove);
      FirstOf(numbers, remove);
      FirstLowest(numbers, remove);
      Exactly(states, dropped);
      states := states - dropped;
    }

    /** Drops the packets below the oldest one outstanding: exactly those, whichever way it goes. */
    method RemoveObsolete(oldest: PacketNumber)
      requires Valid() && (reported ==> oldest >= leastUnacked)
      modifies this
      ensures Valid() && reported && leastUnacked == oldest && newest == old(newest)
      ensures states == From(old(states), oldest)
      ensures walked - old(walked) <= if old(lowestKnown) && oldest > old(lowestState) then oldest - old(lowestState)
                                      else 0
      ensures origin == if old(reported) || (old(lowestKnown) && old(lowestState) <= oldest && old(states) != map[])
        then old(origin) else oldest
    {
      ghost var first := !reported;
      reported, leastUnacked := true, oldest;
      if |states| == 0 {
        if first { origin := oldest; }
        lowestState, lowestKnown := oldest, true;
        return;
      }
      var gap := oldest - lowestState;
      if lowestKnown && gap >= 0 && gap <= 2 * |states| {
        Walk(oldest);
        lowestState := oldest;
        return;
      }
      Scan(oldest);
      if first && gap < 0 { origin := oldest; }
      lowestState, lowestKnown := oldest, true;
    }

    /** Walks the numbers from the watermark up to the oldest outstanding. */
    method Walk(oldest: PacketNumber)
      requires lowestState <= oldest && forall n :: n in states ==> lowestState <= n
      modifies this`states, this`walked
      ensures states == From(old(states), oldest)
      ensures walked == old(walked) + (oldest - lowestState) && |states| <= old(|states|)
    {
      hide From;
      var number := lowestState;
      FromLowest(states, number);
      while number < oldest
        invariant lowestState <= number <= oldest && walked == old(walked) + (number - lowestState)
        invariant states == From(old(states), number)
        invariant |states| <= old(|states|)
      {
        Fewer(states, {number});
        FromNext(old(states), number);
        states := states - {number};
        number := number + 1;
        walked := walked + 1;
      }
    }

    /** Looks at every packet in the table, in any order. */
    method Scan(oldest: PacketNumber)
      modifies this`states
      ensures states == From(old(states), oldest)
      ensures |states| <= old(|states|)
    {
      var todo: set<PacketNumber> := states.Keys;
      while todo != {}
        invariant todo <= states.Keys && |states| <= old(|states|)
        invariant forall n :: n in states <==> n in old(states) && (n in todo || n >= oldest)
        invariant forall n :: n in states ==> states[n] == old(states)[n]
      {
        var number :| number in todo;
        todo := todo - {number};
        if number < oldest {
          Fewer(states, {number});
          states := states - {number};
        }
      }
    }
  }

  /** The entries from a number on. */
  ghost function From<T>(m: map<PacketNumber, T>, oldest: PacketNumber): map<PacketNumber, T> {
    map n | n in m && n >= oldest :: m[n]
  }

  lemma FromLowest<T>(m: map<PacketNumber, T>, lowest: PacketNumber)
    requires forall n :: n in m ==> lowest <= n
    ensures From(m, lowest) == m
  {}

  lemma FromNext<T>(m: map<PacketNumber, T>, number: PacketNumber)
    ensures From(m, number) - {number} == From(m, number + 1)
  {}

  lemma Fewer<T>(m: map<PacketNumber, T>, s: set<PacketNumber>)
    ensures |m - s| <= |m|
  {
    assert (m - s).Keys == m.Keys - s;
    assert |m.Keys - s| <= |m.Keys|;
  }

  lemma Exactly<T>(m: map<PacketNumber, T>, s: set<PacketNumber>)
    requires s <= m.Keys
    ensures |m - s| == |m| - |s|
  {
    assert (m - s).Keys == m.Keys - s;
  }

  lemma {:induction false} FirstOf(s: seq<PacketNumber>, n: nat)
    requires Sorted(s) && n <= |s|
    ensures |FirstFew(s, n)| == n
  {
    if n > 0 {
      FirstOf(s, n - 1);
      assert FirstFew(s, n) == FirstFew(s, n - 1) + {s[n - 1]};
    }
  }
}
