/** What a receiver can put out at all (coded.go): whatever arrives of what was sent, however often
    and however late, and whatever is given up. */
module CarriageSafety {
  import opened Wrappers
  import opened Ids
  import opened Framing
  import opened Packing
  import opened Assembly
  import opened Carriage
  import R = CarriageRuns

  ghost function HoldsIn(parcels: seq<Parcel>, base: int, holds: map<nat, set<nat>>, groups: Groups): map<nat, set<nat>>
    requires AllLegal(parcels)
  {
    map u | u in holds && u < |parcels| && Key(parcels, base, u) in groups :: holds[u]
  }

  /** Forgetting groups leaves the others what they were. */
  lemma MirroredLess(parcels: seq<Parcel>, base: int, groups: Groups, holds: map<nat, set<nat>>, less: Groups)
    requires AllLegal(parcels) && Mirrored(parcels, base, groups, holds)
    requires forall f :: f in less ==> f in groups && less[f] == groups[f]
    ensures Mirrored(parcels, base, less, HoldsIn(parcels, base, holds, less))
  {
    hide Key, Holding, Legal, Width, Start;
    var few := HoldsIn(parcels, base, holds, less);
    forall f | f in less ensures exists u :: u in few && f == Key(parcels, base, u) {
      var u :| u in holds && f == Key(parcels, base, u);
      assert u in few;
    }
  }

  lemma NotedLess(t: Table, esi: uint32)
    ensures forall f :: f in Noted(t, esi).groups ==> f in t.groups && Noted(t, esi).groups[f] == t.groups[f]
  {
    hide Stale;
  }

  lemma RoomLess(groups: Groups, high: uint32, first: uint32, room: Groups)
    requires Room(groups, high, first, room)
    ensures forall f :: f in room ==> f in groups && room[f] == groups[f]
  {
    hide Farthest;
  }

  /** A fragment placed where its parcel's fragments are: a repeat changes nothing, a new one joins
      them, and the last one yields the parcel's frame. */
  lemma PlacedSafe(parcels: seq<Parcel>, base: int, groups: Groups, holds: map<nat, set<nat>>, u: nat, i: nat)
      returns (holds': map<nat, set<nat>>)
    requires Short(parcels) && Mirrored(parcels, base, groups, holds) && u < |parcels|
    requires Legal(parcels[u]) && Width(parcels[u]) > 1 && i < Width(parcels[u])
    ensures var (groups', frames) := Placed(groups, Key(parcels, base, u),
                                            Symbol(Share(parcels[u], i), i, Width(parcels[u])));
            Mirrored(parcels, base, groups', holds') && (frames == [] || frames == [parcels[u].frame])
  {
    hide Start, Mirrored, Holding, Legal, Width, Takes, Put, Share, GroupAt, Key, JoinedParts;
    var p, key := parcels[u], Key(parcels, base, u);
    var have := if u in holds then holds[u] else {};
    var g := GroupAt(groups, key, Width(p));
    GroupHolds(parcels, base, groups, holds, u);
    if i in have {
      HoldingRepeat(g, p, have, i);
      MirroredPut(parcels, base, groups, holds, u, g, have);
      return holds[u := have];
    }
    HoldingPut(g, p, have, i);
    var g' := Put(g, i, Share(p, i));
    HoldingCount(g', p, have + {i});
    if g'.held < g'.count {
      MirroredPut(parcels, base, groups, holds, u, g', have + {i});
      return holds[u := have + {i}];
    }
    MirroredRemove(parcels, base, groups, holds, u);
    HoldingAll(g', p, have + {i});
    return holds - {u};
  }

  lemma HoldingRepeat(g: Group, p: Parcel, have: set<nat>, i: nat)
    requires Legal(p) && Holding(g, p, have) && i in have
    ensures !Takes(g, i)
  {
    hide Legal, Width, Share;
  }

  /** The frames a parcel can yield. */
  ghost predicate FromParcel(parcels: seq<Parcel>, frames: seq<Frame>)
    requires AllLegal(parcels)
  {
    forall f :: f in frames ==> exists u :: 0 <= u < |parcels| && Legal(parcels[u]) && f in Yield(parcels[u])
  }

  /** An arrival of anything sent, however often and however late, puts out only what its parcel
      yields. */
  lemma ArrivalSafe(parcels: seq<Parcel>, base: int, t: Table, holds: map<nat, set<nat>>, j: nat, vector: seq<Byte>,
                    t': Table, frames: seq<Frame>)
      returns (holds': map<nat, set<nat>>)
    requires Short(parcels) && Mirrored(parcels, base, t.groups, holds)
    requires j < Total(parcels) && Wire(parcels, |parcels|)[j] <= vector
    requires Arrival(t, Wrap(base + j), vector, t', frames)
    ensures Mirrored(parcels, base, t'.groups, holds') && FromParcel(parcels, frames)
  {
    hide Start, Mirrored, Legal, Width, Share, Key, Noted, Wire, ParseSymbol, Frames, Stale, Placed, Yield, Wrap, Plus;
    hide At, Room, HoldsIn;
    var u := ParcelAt(parcels, |parcels|, j);
    AtIndex(parcels, u, j);
    SymbolRead(parcels, base, u, j, vector);
    var i: nat, p, n := j - Start(parcels, u), parcels[u], Noted(t, Wrap(base + j));
    NotedLess(t, Wrap(base + j));
    MirroredLess(parcels, base, t.groups, holds, n.groups);
    holds' := HoldsIn(parcels, base, holds, n.groups);
    if Width(p) == 1 {
      WholeYield(parcels, u);
    } else if Stale(n.high, Key(parcels, base, u), Width(p)) {
    } else {
      var room: Groups :| Room(n.groups, n.high, Key(parcels, base, u), room)
        && (t'.groups, frames) == Placed(room, Key(parcels, base, u), Symbol(Share(p, i), i, Width(p)));
      RoomLess(n.groups, n.high, Key(parcels, base, u), room);
      MirroredLess(parcels, base, n.groups, holds', room);
      SplitYield(parcels, u);
      holds' := PlacedSafe(parcels, base, room, HoldsIn(parcels, base, holds', room), u, i);
    }
  }

  lemma WholeYield(parcels: seq<Parcel>, u: nat)
    requires AllLegal(parcels) && u < |parcels| && Legal(parcels[u]) && Width(parcels[u]) == 1
    ensures FromParcel(parcels, Frames(Share(parcels[u], 0)))
  {
    hide Legal, Width, Frames, Share;
    assert Yield(parcels[u]) == Frames(Share(parcels[u], 0));
  }

  lemma SplitYield(parcels: seq<Parcel>, u: nat)
    requires AllLegal(parcels) && u < |parcels| && Legal(parcels[u]) && Width(parcels[u]) > 1
    ensures parcels[u].Split? && FromParcel(parcels, [parcels[u].frame]) && FromParcel(parcels, [])
  {
    assert Yield(parcels[u]) == [parcels[u].frame];
  }

  lemma LossSafe(parcels: seq<Parcel>, base: int, t: Table, holds: map<nat, set<nat>>, esi: uint32)
      returns (holds': map<nat, set<nat>>)
    requires Short(parcels) && Mirrored(parcels, base, t.groups, holds)
    ensures Mirrored(parcels, base, Dropped(Noted(t, esi).groups, esi), holds')
  {
    hide Mirrored, Noted, Spans;
    NotedLess(t, esi);
    MirroredLess(parcels, base, t.groups, holds, Dropped(Noted(t, esi).groups, esi));
    return HoldsIn(parcels, base, holds, Dropped(Noted(t, esi).groups, esi));
  }

  lemma {:induction false} ContentsHold(parcels: seq<Parcel>, u: nat)
    requires u < |parcels|
    ensures forall f :: f in Content(parcels[u]) ==> f in Contents(parcels)
  {
    var n := |parcels| - 1;
    if u < n { ContentsHold(parcels[..n], u); }
  }

  /** What parcels none of which is a stranded frame yield are the frames put into them. */
  lemma YieldsSent(parcels: seq<Parcel>, frames: seq<Frame>)
    requires AllLegal(parcels) && Clean(parcels) && FromParcel(parcels, frames)
    ensures forall f :: f in frames ==> f in Contents(parcels)
  {
    hide Yield, Content, Contents, Legal, Stranded;
    forall f | f in frames ensures f in Contents(parcels) {
      var u :| 0 <= u < |parcels| && Legal(parcels[u]) && f in Yield(parcels[u]);
      assert parcels[u] in parcels;
      YieldExact(parcels[u]);
      ContentsHold(parcels, u);
    }
  }

  /** Every arrival is of something sent; any number of them may be of the same symbol. */
  ghost predicate OfSent(wire: seq<seq<Byte>>, base: int, events: seq<R.Event>, at: seq<nat>) {
    |at| == |events| && forall n :: 0 <= n < |events| && events[n].Arrive? ==>
      at[n] < |wire| && events[n].esi == Wrap(base + at[n]) && wire[at[n]] <= events[n].vector
  }

  ghost predicate Genuine(parcels: seq<Parcel>, base: int, groups: Groups)
    requires AllLegal(parcels)
  {
    exists holds: map<nat, set<nat>> :: Mirrored(parcels, base, groups, holds)
  }

  /** Feeds an assembler whatever arrives and whatever is given up, with repeats, in any order and at
      any distance: every frame that comes out was sent. */
  method Overhear(a: Assembler, ghost parcels: seq<Parcel>, ghost base: int, events: seq<R.Event>, ghost at: seq<nat>)
    returns (out: seq<Frame>)
    requires a.View() == Table(map[], 0, false) && Short(parcels) && Clean(parcels)
    requires OfSent(Wire(parcels, |parcels|), base, events, at)
    modifies a
    ensures forall f :: f in out ==> f in Contents(parcels)
  {
    hide Mirrored, Arrival, Wire, Start, AllLegal, Clean, FromParcel, Contents, Noted, Dropped, Yield;
    out := [];
    StartGenuine(parcels, base);
    var n := 0;
    while n < |events|
      invariant 0 <= n <= |events| && Genuine(parcels, base, a.groups) && FromParcel(parcels, out)
    {
      ghost var t, before := a.View(), out;
      ghost var holds: map<nat, set<nat>> :| Mirrored(parcels, base, t.groups, holds);
      match events[n] {
        case Arrive(esi, vector) =>
          out := a.Arrived(esi, vector, out);
          ghost var frames :| Arrival(t, esi, vector, a.View(), frames) && out == before + frames;
          WireTotal(parcels);
          ghost var holds' := ArrivalSafe(parcels, base, t, holds, at[n], vector, a.View(), frames);
          FromBoth(parcels, before, frames);
        case Lose(esi) =>
          ghost var holds' := LossSafe(parcels, base, t, holds, esi);
          a.Lost(esi);
      }
      n := n + 1;
    }
    YieldsSent(parcels, out);
  }

  lemma WireTotal(parcels: seq<Parcel>)
    requires AllLegal(parcels)
    ensures |Wire(parcels, |parcels|)| == Total(parcels)
  {}

  lemma FromBoth(parcels: seq<Parcel>, a: seq<Frame>, b: seq<Frame>)
    requires AllLegal(parcels) && FromParcel(parcels, a) && FromParcel(parcels, b)
    ensures FromParcel(parcels, a + b)
  {
    hide Legal, Yield;
  }

  lemma StartGenuine(parcels: seq<Parcel>, base: int)
    requires AllLegal(parcels)
    ensures Genuine(parcels, base, map[]) && FromParcel(parcels, [])
  {
    assert Mirrored(parcels, base, map[], map[]);
  }
}
