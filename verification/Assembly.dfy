/** The receiving side's framing (coded.go): symbols back into frames. */
module Assembly {
  import opened Wrappers
  import opened Ids
  import opened Framing

  const ASSEMBLER_SLACK := 512
  const MAX_GROUPS := 512

  /** The fragments of a frame that have arrived, by index. */
  datatype Group = Group(parts: seq<Option<seq<Byte>>>, count: nat, held: nat)

  type Groups = map<uint32, Group>

  /** A group whose whole span lies too far behind the newest symbol. */
  predicate Stale(high: uint32, first: uint32, count: nat) {
    Diff(high, Plus(first, count)) > ASSEMBLER_SLACK
  }

  /** A symbol lies in a group's span. */
  predicate Spans(first: uint32, count: nat, esi: uint32) {
    0 <= Diff(esi, first) < count
  }

  ghost function Pruned(groups: Groups, high: uint32): Groups {
    map f | f in groups && !Stale(high, f, groups[f].count) :: groups[f]
  }

  ghost function Dropped(groups: Groups, esi: uint32): Groups {
    map f | f in groups && !Spans(f, groups[f].count, esi) :: groups[f]
  }

  datatype Table = Table(groups: Groups, high: uint32, seen: bool)

  /** The newest symbol is kept up to date, and with it the groups worth keeping. */
  ghost function Noted(t: Table, esi: uint32): Table {
    if !t.seen then Table(t.groups, esi, true)
    else if Diff(esi, t.high) > 0 then Table(Pruned(t.groups, esi), esi, true)
    else t
  }

  /** A fragment as it is kept: one without bytes leaves its place unfilled. */
  function Kept(payload: seq<Byte>): Option<seq<Byte>> {
    if payload == [] then None else Some(payload)
  }

  function Grown(parts: seq<Option<seq<Byte>>>, n: nat): (r: seq<Option<seq<Byte>>>)
    ensures |r| == if n < |parts| then |parts| else n
    ensures forall i :: 0 <= i < |r| ==> r[i] == if i < |parts| then parts[i] else None
  {
    if n < |parts| then parts else parts + seq(n - |parts|, _ => None)
  }

  predicate Takes(g: Group, index: nat) {
    index < g.count && (index >= |g.parts| || g.parts[index].None?)
  }

  function Put(g: Group, index: nat, payload: seq<Byte>): Group {
    Group(Grown(g.parts, index + 1)[index := Kept(payload)], g.count, g.held + 1)
  }

  function JoinedParts(parts: seq<Option<seq<Byte>>>): seq<Byte> {
    if parts == [] then []
    else JoinedParts(parts[..|parts| - 1]) + (match parts[|parts| - 1] case None => [] case Some(part) => part)
  }

  /** The group a fragment goes to. */
  function GroupAt(groups: Groups, first: uint32, count: nat): Group {
    if first in groups then groups[first] else Group([], count, 0)
  }

  /** The groups and the frames out after a fragment is placed. */
  function Placed(groups: Groups, first: uint32, s: Symbol): (Groups, seq<Frame>) {
    var g := GroupAt(groups, first, s.count);
    var g' := Put(g, s.index, s.payload);
    if !Takes(g, s.index) then (groups[first := g], [])
    else if g'.held < g'.count then (groups[first := g'], [])
    else (groups - {first}, [JoinedParts(g'.parts)])
  }

  ghost predicate Farthest(groups: Groups, high: uint32, oldest: uint32) {
    oldest in groups && forall f :: f in groups ==> Diff(high, f) <= Diff(high, oldest)
  }

  /** A new group finds room: at the cap the group farthest behind makes way. */
  ghost predicate Room(groups: Groups, high: uint32, first: uint32, groups': Groups) {
    if first in groups || |groups| < MAX_GROUPS then groups' == groups
    else exists oldest :: Farthest(groups, high, oldest) && groups' == groups - {oldest}
  }

  /** What an arrival does. */
  ghost predicate Arrival(t: Table, esi: uint32, vector: seq<Byte>, t': Table, frames: seq<Frame>) {
    var n := Noted(t, esi);
    match ParseSymbol(vector)
    case None => t' == n && frames == []
    case Some(s) =>
      var first := Plus(esi, -(s.index as int));
      if s.count == 1 then t' == n && frames == Frames(s.payload)
      else if Stale(n.high, first, s.count) then t' == n && frames == []
      else
        t'.high == n.high && t'.seen
        && exists room: Groups :: Room(n.groups, n.high, first, room) && (t'.groups, frames) == Placed(room, first, s)
  }

  class Assembler {
    var groups: Groups
    var high: uint32
    var seen: bool
    var lostN: nat
    var droppedStale: nat

    ghost function View(): Table
      reads this
    {
      Table(groups, high, seen)
    }

    constructor ()
      ensures View() == Table(map[], 0, false)
    {
      groups, high, seen, lostN, droppedStale := map[], 0, false, 0, 0;
    }

    method Note(esi: uint32)
      modifies this`groups, this`high, this`seen
      ensures View() == Noted(old(View()), esi)
    {
      if !seen {
        seen, high := true, esi;
        return;
      }
      if Diff(esi, high) > 0 {
        high := esi;
        Prune();
      }
    }

    /** Drops the groups left too far behind, in any order. */
    method Prune()
      modifies this`groups
      ensures groups == Pruned(old(groups), high)
    {
      var todo, all := groups.Keys, groups;
      while todo != {}
        invariant todo <= groups.Keys
        invariant forall f :: f in groups <==> f in all && (f in todo || !Stale(high, f, all[f].count))
        invariant forall f :: f in groups ==> groups[f] == all[f]
      {
        var first :| first in todo;
        todo := todo - {first};
        if Stale(high, first, groups[first].count) {
          groups := groups - {first};
        }
      }
    }

    /** Makes room by dropping the group farthest behind. */
    method DropOldestGroup()
      requires groups != map[]
      modifies this`groups
      ensures exists oldest :: Farthest(old(groups), high, oldest) && groups == old(groups) - {oldest}
    {
      var todo := groups.Keys;
      var oldest, oldestDist, found := 0, 0, false;
      while todo != {}
        invariant todo <= groups.Keys && (!found ==> todo == groups.Keys)
        invariant found ==> oldest in groups && oldestDist == Diff(high, oldest)
        invariant found ==> forall f :: f in groups && f !in todo ==> Diff(high, f) <= oldestDist
      {
        var first :| first in todo;
        todo := todo - {first};
        var dist := Diff(high, first);
        if !found || dist > oldestDist {
          oldest, oldestDist, found := first, dist, true;
        }
      }
      if found {
        groups := groups - {oldest};
      }
    }

    /** Takes in a symbol; the frames it completes are put out behind those already out. */
    method Arrived(esi: uint32, vector: seq<Byte>, before: seq<Frame>) returns (out: seq<Frame>)
      modifies this`groups, this`high, this`seen, this`droppedStale
      ensures exists frames :: Arrival(old(View()), esi, vector, View(), frames) && out == before + frames
    {
      hide Noted, ParseSymbol, Frames, Stale, Room, Takes, Put;
      Note(esi);
      var parsed := ParseSymbol(vector);
      if parsed == None {
        assert Arrival(old(View()), esi, vector, View(), []);
        return before;
      }
      var s := parsed.value;
      if s.count == 1 {
        assert Arrival(old(View()), esi, vector, View(), Frames(s.payload));
        out := ParseFrames(s.payload, before);
        return;
      }
      var first := Plus(esi, -(s.index as int));
      NotedSeen(old(View()), esi);
      if seen && Stale(high, first, s.count) {
        droppedStale := droppedStale + 1;
        assert Arrival(old(View()), esi, vector, View(), []);
        return before;
      }
      ghost var n := View();
      MakeRoom(first);
      ghost var room := groups;
      var frames := Place(first, s);
      assert Arrival(old(View()), esi, vector, View(), frames);
      return before + frames;
    }

    method MakeRoom(first: uint32)
      modifies this`groups
      ensures Room(old(groups), high, first, groups)
    {
      if first !in groups && |groups| >= MAX_GROUPS {
        DropOldestGroup();
      }
    }

    /** Places a fragment in its group, and joins the fragments when it was the last. */
    method Place(first: uint32, s: Symbol) returns (frames: seq<Frame>)
      modifies this`groups
      ensures (groups, frames) == Placed(old(groups), first, s)
    {
      if first !in groups {
        groups := groups[first := Group([], s.count, 0)];
      }
      var group := groups[first];
      if s.index >= group.count || (s.index < |group.parts| && group.parts[s.index].Some?) {
        assert old(groups)[first := group] == groups;
        return [];
      }
      var parts := group.parts;
      if s.index >= |parts| {
        parts := parts + seq(s.index + 1 - |parts|, _ => None);
      }
      assert parts == Grown(group.parts, s.index + 1);
      group := Group(parts[s.index := Kept(s.payload)], group.count, group.held + 1);
      assert old(groups)[first := group] == groups[first := group];
      groups := groups[first := group];
      if group.held < group.count {
        return [];
      }
      assert groups - {first} == old(groups) - {first};
      groups := groups - {first};
      var frame := Join(group.parts);
      return [frame];
    }

    static method Join(parts: seq<Option<seq<Byte>>>) returns (frame: seq<Byte>)
      ensures frame == JoinedParts(parts)
    {
      frame := [];
      var i := 0;
      while i < |parts|
        invariant 0 <= i <= |parts| && frame == JoinedParts(parts[..i])
      {
        assert parts[..i + 1][..i] == parts[..i];
        frame := frame + (match parts[i] case None => [] case Some(part) => part);
        i := i + 1;
      }
      assert parts[..i] == parts;
    }

    /** Drops the frames that depended on a symbol nothing can still repair. */
    method Lost(esi: uint32)
      modifies this`groups, this`high, this`seen, this`lostN
      ensures lostN == old(lostN) + 1
      ensures View() == (var n := Noted(old(View()), esi); n.(groups := Dropped(n.groups, esi)))
    {
      Note(esi);
      lostN := lostN + 1;
      hide Noted;
      var todo, all := groups.Keys, groups;
      while todo != {}
        modifies this`groups
        invariant todo <= groups.Keys
        invariant forall f :: f in groups <==> f in all && (f in todo || !Spans(f, all[f].count, esi))
        invariant forall f :: f in groups ==> groups[f] == all[f]
      {
        var first :| first in todo;
        todo := todo - {first};
        if Diff(esi, first) >= 0 && Diff(esi, first) < groups[first].count {
          groups := groups - {first};
        }
      }
      assert groups == Dropped(all, esi);
    }
  }

  lemma NotedSeen(t: Table, esi: uint32)
    ensures Noted(t, esi).seen
  {}
}
