/** From frames to symbols and back (coded.go): which frames a receiver gets, whatever order the
    symbols come in and whichever of them are lost. */
module Carriage {
  import opened Wrappers
  import opened Ids
  import opened Framing
  import opened Packing
  import opened Assembly

  // ---------------------------------------------------------------- positions on the wire

  ghost function Total(parcels: seq<Parcel>): nat
    requires AllLegal(parcels)
  {
    Start(parcels, |parcels|)
  }

  /** The parcel a position belongs to. */
  ghost predicate At(parcels: seq<Parcel>, u: nat, j: nat): (at: bool)
    requires AllLegal(parcels)
    ensures at ==> u < |parcels|
  {
    u < |parcels| && Start(parcels, u) <= j < Start(parcels, u + 1)
  }

  lemma StartNext(parcels: seq<Parcel>, u: nat)
    requires AllLegal(parcels) && u < |parcels|
    ensures Legal(parcels[u]) && Start(parcels, u + 1) == Start(parcels, u) + Width(parcels[u]) && Width(parcels[u]) > 0
  {
    assert parcels[u] in parcels;
  }

  lemma {:induction false} StartOrder(parcels: seq<Parcel>, u: nat, v: nat)
    requires AllLegal(parcels) && u <= v <= |parcels|
    ensures Start(parcels, u) <= Start(parcels, v)
  {
    if u < v {
      StartOrder(parcels, u, v - 1);
      StartNext(parcels, v - 1);
    }
  }

  ghost function ParcelAt(parcels: seq<Parcel>, n: nat, j: nat): (u: nat)
    requires AllLegal(parcels) && n <= |parcels| && j < Start(parcels, n)
    ensures u < n && At(parcels, u, j)
  {
    if Start(parcels, n - 1) <= j then n - 1 else ParcelAt(parcels, n - 1, j)
  }

  lemma AtOne(parcels: seq<Parcel>, u: nat, v: nat, j: nat)
    requires AllLegal(parcels) && At(parcels, u, j) && At(parcels, v, j)
    ensures u == v
  {
    if u < v { StartOrder(parcels, u + 1, v); } else if v < u { StartOrder(parcels, v + 1, u); }
  }

  // ---------------------------------------------------------------- one group

  /** The group has exactly these fragments of the parcel. */
  ghost predicate Holding(g: Group, p: Parcel, have: set<nat>)
    requires Legal(p)
  {
    && g.count == Width(p) && g.held == |have| && |g.parts| <= Width(p)
    && (forall i: nat :: i in have <==> i < |g.parts| && g.parts[i].Some?)
    && (forall i: nat :: i < |g.parts| && g.parts[i].Some? ==> g.parts[i] == Some(Share(p, i)))
  }

  lemma HoldingPut(g: Group, p: Parcel, have: set<nat>, i: nat)
    requires Legal(p) && Width(p) > 1 && Holding(g, p, have) && i < Width(p) && i !in have
    ensures Takes(g, i) && Holding(Put(g, i, Share(p, i)), p, have + {i})
  {
    PartsReach(p.frame, p.limit, i);
    Scaled(i, p.limit);
    assert Share(p, i) != [];
    hide Share, Fragment, Width;
  }

  lemma HoldingNone(p: Parcel)
    requires Legal(p)
    ensures Holding(Group([], Width(p), 0), p, {})
  {}

  /** A group with all its fragments joins into the frame. */
  lemma HoldingAll(g: Group, p: Parcel, have: set<nat>)
    requires Legal(p) && Width(p) > 1 && Holding(g, p, have) && |have| >= Width(p)
    ensures JoinedParts(g.parts) == p.frame && forall i: nat :: i < Width(p) ==> i in have
  {
    WithinRange(have, |g.parts|);
    assert |g.parts| == Width(p);
    JoinedSoFar(g.parts, p, |g.parts|);
    FragmentsJoin(p.frame, p.limit);
    assert g.parts[..|g.parts|] == g.parts;
  }

  lemma {:induction false} WithinRange(s: set<nat>, n: nat)
    requires forall i :: i in s ==> i < n
    ensures |s| <= n && (|s| == n ==> forall i: nat :: i < n ==> i in s)
  {
    if n > 0 {
      var rest := s - {n - 1};
      WithinRange(rest, n - 1);
      assert n - 1 in s ==> s == rest + {n - 1};
      assert n - 1 !in s ==> s == rest;
    } else {
      assert s == {};
    }
  }

  lemma {:induction false} JoinedSoFar(parts: seq<Option<seq<Byte>>>, p: Parcel, n: nat)
    requires Legal(p) && Width(p) > 1 && |parts| == Width(p) && n <= |parts|
    requires forall i: nat :: i < n ==> parts[i] == Some(Share(p, i))
    ensures JoinedParts(parts[..n]) == Joined(p.frame, p.limit, n)
  {
    if n > 0 {
      JoinedSoFar(parts, p, n - 1);
      assert parts[..n][..n - 1] == parts[..n - 1];
      PartsReach(p.frame, p.limit, n - 1);
    }
  }

  // ---------------------------------------------------------------- the whole table

  /** What has happened so far: the positions that arrived and those given up, the newest of them,
      the fragments held of each parcel not yet complete, and the parcels complete in the order they
      became so. */
  datatype Progress = Progress(arrived: set<nat>, lost: set<nat>, high: nat, holds: map<nat, set<nat>>, done: seq<nat>)

  ghost function Key(parcels: seq<Parcel>, base: int, u: nat): uint32
    requires AllLegal(parcels) && u <= |parcels|
  {
    Wrap(base + Start(parcels, u))
  }

  /** The fragments of a parcel among the positions that arrived. */
  ghost function Here(parcels: seq<Parcel>, u: nat, arrived: set<nat>): set<nat>
    requires AllLegal(parcels) && u < |parcels|
  {
    set i: nat | 0 <= i < Start(parcels, u + 1) - Start(parcels, u) && Came(arrived, Start(parcels, u), i)
  }

  predicate Came(arrived: set<nat>, start: nat, i: nat) { start + i in arrived }

  ghost predicate Complete(parcels: seq<Parcel>, u: nat, arrived: set<nat>)
    requires AllLegal(parcels)
  {
    u < |parcels| && forall j: nat :: At(parcels, u, j) ==> j in arrived
  }

  /** Still close enough to the newest symbol to be kept. */
  ghost predicate Close(parcels: seq<Parcel>, u: nat, high: nat): (close: bool)
    requires AllLegal(parcels)
    ensures close ==> u < |parcels|
  {
    u < |parcels| && high - Start(parcels, u + 1) <= ASSEMBLER_SLACK
  }

  ghost predicate Unhurt(parcels: seq<Parcel>, u: nat, lost: set<nat>)
    requires AllLegal(parcels)
  {
    forall j: nat :: At(parcels, u, j) ==> j !in lost
  }

  /** The newest position is the greatest that arrived or was given up. */
  ghost predicate Newest(parcels: seq<Parcel>, base: int, t: Table, pr: Progress)
    requires AllLegal(parcels)
  {
    && (t.seen <==> pr.arrived + pr.lost != {}) && pr.arrived !! pr.lost
    && (t.seen ==> t.high == Wrap(base + pr.high) && pr.high in pr.arrived + pr.lost)
    && (forall j :: j in pr.arrived + pr.lost ==> j <= pr.high && j < Total(parcels))
  }

  /** The groups are those of the parcels partly held. */
  ghost predicate Mirrored(parcels: seq<Parcel>, base: int, groups: Groups, holds: map<nat, set<nat>>)
    requires AllLegal(parcels)
  {
    && (forall u :: u in holds ==> u < |parcels| && Legal(parcels[u]) && Width(parcels[u]) > 1)
    && (forall u :: u in holds ==>
          Key(parcels, base, u) in groups && Holding(groups[Key(parcels, base, u)], parcels[u], holds[u]))
    && (forall f :: f in groups ==> exists u :: u in holds && f == Key(parcels, base, u))
  }

  /** What is held arrived, is not stale, and is not yet whole. */
  ghost predicate Fair(parcels: seq<Parcel>, pr: Progress)
    requires AllLegal(parcels)
  {
    forall u :: u in pr.holds ==>
      Close(parcels, u, pr.high) && pr.holds[u] != {} && pr.holds[u] <= Here(parcels, u, pr.arrived)
  }

  /** Nothing is forgotten of a parcel that can still be completed. */
  ghost predicate Remembered(parcels: seq<Parcel>, pr: Progress)
    requires AllLegal(parcels)
  {
    forall u: nat ::
      && Close(parcels, u, pr.high) && Unhurt(parcels, u, pr.lost) && !Complete(parcels, u, pr.arrived)
      && Here(parcels, u, pr.arrived) != {}
      ==> u in pr.holds && pr.holds[u] == Here(parcels, u, pr.arrived)
  }

  /** The parcels done are those complete, each once. */
  ghost predicate Done(parcels: seq<Parcel>, pr: Progress)
    requires AllLegal(parcels)
  {
    && (forall u :: u in pr.done <==> Complete(parcels, u, pr.arrived))
    && (forall m, n :: 0 <= m < n < |pr.done| ==> pr.done[m] != pr.done[n])
  }

  ghost predicate Tracks(parcels: seq<Parcel>, base: int, t: Table, pr: Progress)
    requires AllLegal(parcels)
  {
    && Newest(parcels, base, t, pr) && Mirrored(parcels, base, t.groups, pr.holds) && Fair(parcels, pr)
    && Remembered(parcels, pr) && Done(parcels, pr)
  }

  /** Few enough symbols for identifiers to be told apart. */
  ghost predicate Short(parcels: seq<Parcel>) {
    AllLegal(parcels) && Start(parcels, |parcels|) < HALF
  }

  // ---------------------------------------------------------------- noting a symbol

  lemma KeyEnd(parcels: seq<Parcel>, base: int, u: nat, high: nat)
    requires Short(parcels) && u < |parcels| && high < Total(parcels)
    ensures Legal(parcels[u])
    ensures Stale(Wrap(base + high), Key(parcels, base, u), Width(parcels[u])) <==> !Close(parcels, u, high)
    ensures Spans(Key(parcels, base, u), Width(parcels[u]), Wrap(base + high)) <==> At(parcels, u, high)
  {
    StartNext(parcels, u);
    StartOrder(parcels, u + 1, |parcels|);
    PlusOfWrap(base + Start(parcels, u), Width(parcels[u]));
    DiffOfWraps(base + high, base + Start(parcels, u + 1));
    DiffOfWraps(base + high, base + Start(parcels, u));
  }

  lemma KeyInjective(parcels: seq<Parcel>, base: int, u: nat, v: nat)
    requires Short(parcels) && u < |parcels| && v < |parcels| && Key(parcels, base, u) == Key(parcels, base, v)
    ensures u == v
  {
    StartNext(parcels, u); StartNext(parcels, v);
    StartOrder(parcels, u, |parcels|); StartOrder(parcels, v, |parcels|);
    WrapInjective(base + Start(parcels, u), base + Start(parcels, v));
    if u < v { StartOrder(parcels, u + 1, v); } else if v < u { StartOrder(parcels, v + 1, u); }
  }

  /** What is held once the newest position is high. */
  ghost function Recent(parcels: seq<Parcel>, holds: map<nat, set<nat>>, high: nat): map<nat, set<nat>>
    requires AllLegal(parcels)
  {
    map u | u in holds && Close(parcels, u, high) :: holds[u]
  }

  lemma PrunedMirrors(parcels: seq<Parcel>, base: int, groups: Groups, holds: map<nat, set<nat>>, high: nat)
    requires Short(parcels) && Mirrored(parcels, base, groups, holds) && high < Total(parcels)
    ensures Mirrored(parcels, base, Pruned(groups, Wrap(base + high)), Recent(parcels, holds, high))
  {
    hide Holding, Close, Stale, Key, Wrap, Width, Legal, Start;
    forall u | u in holds
      ensures Stale(Wrap(base + high), Key(parcels, base, u), groups[Key(parcels, base, u)].count) <==>
        !Close(parcels, u, high)
    {
      KeyEnd(parcels, base, u, high);
      HoldingCount(groups[Key(parcels, base, u)], parcels[u], holds[u]);
    }
  }

  lemma HoldingCount(g: Group, p: Parcel, have: set<nat>)
    requires Legal(p) && Holding(g, p, have)
    ensures g.count == Width(p) && g.held == |have|
  {}

  /** The state once a position has been noted, before anything is done about it. */
  ghost function Now(parcels: seq<Parcel>, pr: Progress, seen: bool, j: nat): Progress
    requires AllLegal(parcels)
  {
    if !seen then pr.(high := j)
    else if j > pr.high then pr.(high := j, holds := Recent(parcels, pr.holds, j))
    else pr
  }

  lemma NotedTracks(parcels: seq<Parcel>, base: int, t: Table, pr: Progress, j: nat)
    requires Short(parcels) && Tracks(parcels, base, t, pr) && j < Total(parcels)
    ensures var pr' := Now(parcels, pr, t.seen, j); var t' := Noted(t, Wrap(base + j));
            t'.seen && t'.high == Wrap(base + pr'.high) && pr'.high < Total(parcels) && j <= pr'.high
            && (pr'.high == j || (pr'.high == pr.high && t.seen))
            && (forall k :: k in pr.arrived + pr.lost ==> k <= pr'.high)
            && Mirrored(parcels, base, t'.groups, pr'.holds) && Fair(parcels, pr') && Remembered(parcels, pr')
            && Done(parcels, pr')
  {
    hide Mirrored, Here, Complete, Unhurt, Start, Pruned;
    if t.seen {
      DiffOfWraps(base + j, base + pr.high);
      if j > pr.high { PrunedMirrors(parcels, base, t.groups, pr.holds, j); }
    } else {
      NothingHeld(parcels, pr);
    }
  }

  lemma NothingHeld(parcels: seq<Parcel>, pr: Progress)
    requires AllLegal(parcels) && Fair(parcels, pr) && pr.arrived == {}
    ensures pr.holds == map[] && forall u: nat :: u < |parcels| ==> Here(parcels, u, pr.arrived) == {}
  {
    hide Start, Close;
    forall u: nat | u < |parcels| ensures Here(parcels, u, pr.arrived) == {} {}
  }

  // ---------------------------------------------------------------- room for a new group

  /** The parcels below m among those held. */
  ghost function Below(s: set<nat>, m: nat): set<nat> { set u | u in s && u < m }

  /** Parcels of two or more symbols that end no more than the slack behind the newest symbol stand
      at least two apart, so few of them fit. */
  lemma {:induction false} FewFit(parcels: seq<Parcel>, s: set<nat>, high: nat, m: nat)
    requires AllLegal(parcels) && m <= |parcels|
    requires forall u ::
      u in s ==> u < |parcels| && Start(parcels, u) + 2 <= Start(parcels, u + 1) && Close(parcels, u, high)
    ensures |Below(s, m)| >= 1 ==> 2 * (|Below(s, m)| - 1) <= Start(parcels, m) - high + ASSEMBLER_SLACK
  {
    if m > 0 {
      hide Start, Width, Legal, Below;
      FewFit(parcels, s, high, m - 1);
      StartNext(parcels, m - 1);
      BelowStep(s, m - 1);
    } else {
      assert Below(s, 0) == {};
    }
  }

  lemma BelowStep(s: set<nat>, m: nat)
    ensures |Below(s, m + 1)| == |Below(s, m)| + (if m in s then 1 else 0)
  {
    assert m in s ==> Below(s, m + 1) == Below(s, m) + {m};
    assert m !in s ==> Below(s, m + 1) == Below(s, m);
  }

  lemma {:induction false} AllBelow(s: set<nat>, top: nat)
    requires forall u :: u in s ==> u <= top
    ensures s == Below(s, top) || s == Below(s, top) + {top}
  {}

  ghost function Greatest(s: set<nat>): (top: nat)
    requires s != {}
    ensures top in s && forall u :: u in s ==> u <= top
  {
    GreatestExists(s);
    var top: nat :| top in s && forall u :: u in s ==> u <= top;
    top
  }

  lemma {:induction false} GreatestExists(s: set<nat>)
    requires s != {}
    ensures exists top: nat :: top in s && forall u :: u in s ==> u <= top
    decreases |s|
  {
    var a :| a in s;
    var rest := s - {a};
    if rest != {} {
      GreatestExists(rest);
      var b: nat :| b in rest && forall u :: u in rest ==> u <= b;
      var top := if a < b then b else a;
      assert top in s && forall u :: u in s ==> u in rest || u == a;
    } else {
      assert s == {a};
    }
  }

  lemma {:induction false} ImageSize(parcels: seq<Parcel>, base: int, groups: set<uint32>, s: set<nat>)
    requires AllLegal(parcels) && forall u :: u in s ==> u <= |parcels|
    requires forall f :: f in groups ==> exists u :: u in s && f == Key(parcels, base, u)
    ensures |groups| <= |s|
    decreases |s|
  {
    hide Key, AllLegal;
    if groups != {} {
      var f :| f in groups;
      var u :| u in s && f == Key(parcels, base, u);
      forall g | g in groups - {f} ensures exists v :: v in s - {u} && g == Key(parcels, base, v) {
        var v :| v in s && g == Key(parcels, base, v);
      }
      ImageSize(parcels, base, groups - {f}, s - {u});
    }
  }

  lemma FewHeld(parcels: seq<Parcel>, pr: Progress)
    requires AllLegal(parcels) && Fair(parcels, pr) && (forall j :: j in pr.arrived ==> j <= pr.high)
    requires forall u :: u in pr.holds ==> u < |parcels| && Legal(parcels[u]) && Width(parcels[u]) > 1
    ensures |pr.holds.Keys| < MAX_GROUPS
  {
    hide Start, Legal, Width;
    var s := pr.holds.Keys;
    if s != {} {
      forall u | u in s ensures Start(parcels, u) + 2 <= Start(parcels, u + 1) { StartNext(parcels, u); }
      var top := Greatest(s);
      FewFit(parcels, s, pr.high, top);
      AllBelow(s, top);
      var i: nat :| i in pr.holds[top];
      assert i in Here(parcels, top, pr.arrived) && Came(pr.arrived, Start(parcels, top), i);
    }
  }

  /** The cap on groups is never met. */
  lemma RoomLeft(parcels: seq<Parcel>, base: int, t: Table, pr: Progress)
    requires AllLegal(parcels) && Mirrored(parcels, base, t.groups, pr.holds) && Fair(parcels, pr)
    requires forall j :: j in pr.arrived ==> j <= pr.high
    ensures |t.groups| < MAX_GROUPS
  {
    hide Holding, Legal, Fair, Width, Start, Key;
    FewHeld(parcels, pr);
    forall f | f in t.groups.Keys ensures exists u :: u in pr.holds.Keys && f == Key(parcels, base, u) {
      var u :| u in pr.holds && f == Key(parcels, base, u);
      assert u in pr.holds.Keys;
    }
    ImageSize(parcels, base, t.groups.Keys, pr.holds.Keys);
  }

  // ---------------------------------------------------------------- an arrival

  lemma HereGrows(parcels: seq<Parcel>, v: nat, arrived: set<nat>, j: nat)
    requires AllLegal(parcels) && v < |parcels|
    ensures Here(parcels, v, arrived + {j}) == Here(parcels, v, arrived)
      + (if At(parcels, v, j) then {j - Start(parcels, v)} else {})
    ensures !At(parcels, v, j) ==> (Complete(parcels, v, arrived + {j}) <==> Complete(parcels, v, arrived))
    ensures Complete(parcels, v, arrived) ==> Complete(parcels, v, arrived + {j})
  {
    hide Start;
  }

  lemma HereFull(parcels: seq<Parcel>, v: nat, arrived: set<nat>)
    requires AllLegal(parcels) && v < |parcels|
    ensures Legal(parcels[v]) && (forall i :: i in Here(parcels, v, arrived) ==> i < Width(parcels[v]))
    ensures Complete(parcels, v, arrived) <==> forall i: nat :: i < Width(parcels[v]) ==> i in Here(parcels, v, arrived)
    ensures Complete(parcels, v, arrived) <==> |Here(parcels, v, arrived)| >= Width(parcels[v])
  {
    hide Start, Legal, Width;
    StartNext(parcels, v);
    var here, start := Here(parcels, v, arrived), Start(parcels, v);
    WithinRange(here, Width(parcels[v]));
    if forall i: nat :: i < Width(parcels[v]) ==> i in here {
      forall j: nat | At(parcels, v, j) ensures j in arrived {
        assert j - start in here && Came(arrived, start, j - start);
      }
      FullRange(here, Width(parcels[v]));
    }
    if Complete(parcels, v, arrived) {
      forall i: nat | i < Width(parcels[v]) ensures i in here {
        assert At(parcels, v, start + i) && Came(arrived, start, i);
      }
    }
  }

  lemma {:induction false} FullRange(s: set<nat>, n: nat)
    requires forall i: nat :: i < n ==> i in s
    ensures |s| >= n
  {
    if n > 0 {
      FullRange(s - {n - 1}, n - 1);
    }
  }

  lemma DoneGrows(parcels: seq<Parcel>, pr: Progress, u: nat, j: nat, pr': Progress)
    requires AllLegal(parcels) && Done(parcels, pr) && At(parcels, u, j) && j !in pr.arrived
    requires pr'.arrived == pr.arrived + {j}
    requires pr'.done == if Complete(parcels, u, pr'.arrived) then pr.done + [u] else pr.done
    ensures Done(parcels, pr')
  {
    hide Start;
    forall v: nat
      ensures Complete(parcels, v, pr'.arrived) <==>
        Complete(parcels, v, pr.arrived) || (v == u && Complete(parcels, u, pr'.arrived))
    {
      if v < |parcels| {
        HereGrows(parcels, v, pr.arrived, j);
        if At(parcels, v, j) { AtOne(parcels, u, v, j); }
      }
    }
    hide At, Complete;
    assert !Complete(parcels, u, pr.arrived);
  }

  lemma RememberedGrows(parcels: seq<Parcel>, pr: Progress, u: nat, j: nat, pr': Progress)
    requires AllLegal(parcels) && Remembered(parcels, pr) && At(parcels, u, j)
    requires pr'.arrived == pr.arrived + {j} && pr'.lost == pr.lost && pr'.high == pr.high
    requires forall v :: v in pr.holds && v != u ==> v in pr'.holds && pr'.holds[v] == pr.holds[v]
    requires !Complete(parcels, u, pr'.arrived) && Unhurt(parcels, u, pr.lost) ==>
      u in pr'.holds && pr'.holds[u] == Here(parcels, u, pr'.arrived)
    ensures Remembered(parcels, pr')
  {
    hide Start, Close, Unhurt, Here, Complete;
    forall v: nat
      | Close(parcels, v, pr'.high) && Unhurt(parcels, v, pr'.lost)
        && !Complete(parcels, v, pr'.arrived) && Here(parcels, v, pr'.arrived) != {}
      ensures v in pr'.holds && pr'.holds[v] == Here(parcels, v, pr'.arrived)
    {
      HereGrows(parcels, v, pr.arrived, j);
      if At(parcels, v, j) { AtOne(parcels, u, v, j); }
      if v == u { } else { assert !At(parcels, v, j); }
    }
  }

  lemma FairGrows(parcels: seq<Parcel>, pr: Progress, u: nat, j: nat, pr': Progress)
    requires AllLegal(parcels) && Fair(parcels, pr) && At(parcels, u, j)
    requires pr'.arrived == pr.arrived + {j} && pr'.high == pr.high
    requires forall v :: v in pr'.holds && v != u ==> v in pr.holds && pr'.holds[v] == pr.holds[v]
    requires u in pr'.holds ==>
      Close(parcels, u, pr.high) && pr'.holds[u] != {} && pr'.holds[u] <= Here(parcels, u, pr'.arrived)
    ensures Fair(parcels, pr')
  {
    hide Start, Close, At, Here;
    forall v | v in pr'.holds && v != u
      ensures Close(parcels, v, pr.high) && pr'.holds[v] <= Here(parcels, v, pr'.arrived)
    {
      HereGrows(parcels, v, pr.arrived, j);
    }
  }

  lemma MirroredPut(parcels: seq<Parcel>, base: int, groups: Groups, holds: map<nat, set<nat>>, u: nat, g: Group,
                    have: set<nat>)
    requires Short(parcels) && Mirrored(parcels, base, groups, holds) && u < |parcels|
    requires Legal(parcels[u]) && Width(parcels[u]) > 1 && Holding(g, parcels[u], have)
    ensures Mirrored(parcels, base, groups[Key(parcels, base, u) := g], holds[u := have])
  {
    hide Key, Holding, Legal, Width, AllLegal, Start;
    OneKey(parcels, base, groups, holds, u);
    var key := Key(parcels, base, u);
    var put, with := groups[key := g], holds[u := have];
    forall f | f in put ensures exists v :: v in with && f == Key(parcels, base, v) {
      if f != key {
        var v :| v in holds && f == Key(parcels, base, v);
        assert v in with;
      } else {
        assert u in with;
      }
    }
  }

  lemma MirroredRemove(parcels: seq<Parcel>, base: int, groups: Groups, holds: map<nat, set<nat>>, u: nat)
    requires Short(parcels) && Mirrored(parcels, base, groups, holds) && u < |parcels|
    ensures Mirrored(parcels, base, groups - {Key(parcels, base, u)}, holds - {u})
  {
    hide Key, Holding, Legal, Width, AllLegal, Start;
    OneKey(parcels, base, groups, holds, u);
    var less, without := groups - {Key(parcels, base, u)}, holds - {u};
    forall f | f in less ensures exists v :: v in without && f == Key(parcels, base, v) {
      var v :| v in holds && f == Key(parcels, base, v);
      assert v in without;
    }
  }

  lemma OneKey(parcels: seq<Parcel>, base: int, groups: Groups, holds: map<nat, set<nat>>, u: nat)
    requires Short(parcels) && Mirrored(parcels, base, groups, holds) && u < |parcels|
    ensures forall v :: v in holds ==> v < |parcels| && (Key(parcels, base, v) == Key(parcels, base, u) ==> v == u)
  {
    hide Key, Holding, Legal, Width, AllLegal, Start;
    forall v | v in holds && Key(parcels, base, v) == Key(parcels, base, u) ensures v == u {
      KeyInjective(parcels, base, u, v);
    }
  }

  /** The group a parcel's fragments go to holds what was remembered of the parcel. */
  lemma GroupHolds(parcels: seq<Parcel>, base: int, groups: Groups, holds: map<nat, set<nat>>, u: nat)
    requires Short(parcels) && Mirrored(parcels, base, groups, holds) && u < |parcels| && Legal(parcels[u])
    ensures Holding(GroupAt(groups, Key(parcels, base, u), Width(parcels[u])), parcels[u],
                    if u in holds then holds[u] else {})
  {
    hide Holding, Width, Legal, Start, Key;
    if u !in holds {
      if Key(parcels, base, u) in groups {
        var v :| v in holds && Key(parcels, base, u) == Key(parcels, base, v);
        KeyInjective(parcels, base, u, v);
      }
      HoldingNone(parcels[u]);
    }
  }

  /** The symbol at a position, read from a vector that begins with what was sent there. */
  lemma SymbolRead(parcels: seq<Parcel>, base: int, u: nat, j: nat, vector: seq<Byte>)
    requires AllLegal(parcels) && At(parcels, u, j) && j < Total(parcels) && Wire(parcels, |parcels|)[j] <= vector
    ensures Legal(parcels[u]) && j - Start(parcels, u) < Width(parcels[u]) <= MAX_SYMBOL_PARTS
    ensures ParseSymbol(vector) == Some(Symbol(Share(parcels[u], j - Start(parcels, u)), j - Start(parcels, u),
                                               Width(parcels[u])))
    ensures Plus(Wrap(base + j), -((j - Start(parcels, u)) as int)) == Key(parcels, base, u)
  {
    hide Start, Wire, Legal, Width, ParseSymbol, Vector, Share, Plus, Wrap;
    StartNext(parcels, u);
    var i: nat := j - Start(parcels, u);
    WireAt(parcels, |parcels|, u, i);
    WidthBound(parcels[u]);
    var padding := vector[|Wire(parcels, |parcels|)[j]|..];
    assert vector == Vector(Share(parcels[u], i), i, Width(parcels[u])) + padding;
    SymbolOfVector(Share(parcels[u], i), i, Width(parcels[u]), padding);
    PlusOfWrap(base + j, -(i as int));
  }

  lemma WidthBound(p: Parcel)
    requires Legal(p)
    ensures 0 < Width(p) <= MAX_SYMBOL_PARTS
  {}

  /** What an arrival at position j makes of the progress. */
  ghost function Reached(parcels: seq<Parcel>, now: Progress, u: nat, j: nat): Progress
    requires AllLegal(parcels) && At(parcels, u, j)
  {
    var have := if u in now.holds then now.holds[u] else {};
    var i: nat := j - Start(parcels, u);
    var arrived := now.arrived + {j};
    var whole := Complete(parcels, u, arrived);
    assert parcels[u] in parcels;
    Progress(arrived, now.lost, now.high,
             if Width(parcels[u]) == 1 then now.holds
             else if whole then now.holds - {u} else now.holds[u := have + {i}],
             if whole then now.done + [u] else now.done)
  }

  /** A parcel of one symbol is complete at once. */
  lemma WholeReached(parcels: seq<Parcel>, base: int, groups: Groups, now: Progress, u: nat, j: nat)
    requires Short(parcels) && At(parcels, u, j) && j !in now.arrived
    requires Mirrored(parcels, base, groups, now.holds) && Fair(parcels, now) && Remembered(parcels, now)
    requires Done(parcels, now)
    requires Legal(parcels[u]) && Width(parcels[u]) == 1
    ensures var pr := Reached(parcels, now, u, j);
            && Mirrored(parcels, base, groups, pr.holds) && Fair(parcels, pr) && Remembered(parcels, pr)
            && Done(parcels, pr)
            && pr.done == now.done + [u] && Complete(parcels, u, pr.arrived)
  {
    hide Start, Mirrored, Fair, Remembered, Done, Holding, Legal, Width, Here, Complete, At;
    var pr := Reached(parcels, now, u, j);
    HereGrows(parcels, u, now.arrived, j);
    HereFull(parcels, u, pr.arrived);
    MirroredWide(parcels, base, groups, now.holds);
    AtIndex(parcels, u, j);
    DoneGrows(parcels, now, u, j, pr);
    RememberedGrows(parcels, now, u, j, pr);
    FairGrows(parcels, now, u, j, pr);
  }

  lemma AtIndex(parcels: seq<Parcel>, u: nat, j: nat)
    requires AllLegal(parcels) && At(parcels, u, j)
    ensures u < |parcels| && Legal(parcels[u]) && 0 <= j - Start(parcels, u) < Width(parcels[u])
  {
    StartNext(parcels, u);
  }

  lemma MirroredWide(parcels: seq<Parcel>, base: int, groups: Groups, holds: map<nat, set<nat>>)
    requires AllLegal(parcels) && Mirrored(parcels, base, groups, holds)
    ensures forall u :: u in holds ==> u < |parcels| && Legal(parcels[u]) && Width(parcels[u]) > 1
  {}

  /** What is remembered of a parcel is all that arrived of it, unless some of it was given up. */
  lemma HaveAll(parcels: seq<Parcel>, now: Progress, u: nat, j: nat)
    requires AllLegal(parcels) && Fair(parcels, now) && Remembered(parcels, now) && Close(parcels, u, now.high)
    requires At(parcels, u, j) && j !in now.arrived
    ensures var have := if u in now.holds then now.holds[u] else {};
            have <= Here(parcels, u, now.arrived) && j - Start(parcels, u) !in have
            && (Unhurt(parcels, u, now.lost) ==> have == Here(parcels, u, now.arrived))
  {
    hide Start, Close, Unhurt;
    assert !Complete(parcels, u, now.arrived);
    assert !Came(now.arrived, Start(parcels, u), j - Start(parcels, u));
  }

  /** A fragment joins its group; the last one completes the frame. */
  lemma PartReached(parcels: seq<Parcel>, base: int, groups: Groups, now: Progress, u: nat, j: nat)
    requires Short(parcels) && At(parcels, u, j) && j !in now.arrived && j !in now.lost && now.arrived !! now.lost
    requires Mirrored(parcels, base, groups, now.holds) && Fair(parcels, now) && Remembered(parcels, now)
    requires Done(parcels, now)
    requires Legal(parcels[u]) && Width(parcels[u]) > 1 && Close(parcels, u, now.high)
    ensures j - Start(parcels, u) < Width(parcels[u])
    ensures var pr := Reached(parcels, now, u, j);
            var i: nat := j - Start(parcels, u);
            var (groups', frames) := Placed(groups, Key(parcels, base, u),
                                            Symbol(Share(parcels[u], i), i, Width(parcels[u])));
            && Mirrored(parcels, base, groups', pr.holds) && Fair(parcels, pr) && Remembered(parcels, pr)
            && Done(parcels, pr)
            && frames == if Complete(parcels, u, pr.arrived) then [parcels[u].frame] else []
  {
    hide Start, Mirrored, Fair, Remembered, Done, Holding, Legal, Width, Here, Complete, At, Close, Unhurt, Takes, Put;
    hide Share, GroupAt, Key, JoinedParts;
    var pr, p := Reached(parcels, now, u, j), parcels[u];
    AtIndex(parcels, u, j);
    var i: nat := j - Start(parcels, u);
    var have := if u in now.holds then now.holds[u] else {};
    var g := GroupAt(groups, Key(parcels, base, u), Width(p));
    HaveAll(parcels, now, u, j);
    GroupHolds(parcels, base, groups, now.holds, u);
    HoldingPut(g, p, have, i);
    var g' := Put(g, i, Share(p, i));
    HoldingCount(g', p, have + {i});
    MirroredPut(parcels, base, groups, now.holds, u, g', have + {i});
    MirroredRemove(parcels, base, groups, now.holds, u);
    HereGrows(parcels, u, now.arrived, j);
    HereFull(parcels, u, pr.arrived);
    if g'.held >= g'.count {
      HoldingAll(g', p, have + {i});
    } else if Unhurt(parcels, u, now.lost) {
    } else {
      HurtIncomplete(parcels, u, now, j);
    }
    assert Complete(parcels, u, pr.arrived) <==> g'.held >= g'.count;
    DoneGrows(parcels, now, u, j, pr);
    RememberedGrows(parcels, now, u, j, pr);
    FairGrows(parcels, now, u, j, pr);
  }

  lemma HurtIncomplete(parcels: seq<Parcel>, u: nat, now: Progress, j: nat)
    requires AllLegal(parcels) && !Unhurt(parcels, u, now.lost) && now.arrived !! now.lost && j !in now.lost
    ensures !Complete(parcels, u, now.arrived + {j})
  {
    var k: nat :| At(parcels, u, k) && k in now.lost;
    assert k !in now.arrived + {j};
  }
}
