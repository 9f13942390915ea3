/** The sending side's framing (coded.go): small frames share a symbol, a large one is split. */
module Packing {
  import opened Framing
  import opened Numbers

  /** What was sealed together: whole frames sharing one symbol, or one frame over symbols of its own. */
  datatype Parcel = Whole(frames: seq<Frame>) | Split(frame: Frame, limit: nat)

  ghost predicate Legal(p: Parcel) {
    match p
    case Whole(frames) => frames != [] && |Packed(frames)| < 0x1_0000 && Sized(frames)
    case Split(frame, limit) =>
      0 < limit < 0x1_0000 && limit < FRAME_HEADER + |frame| && 0 < Parts(frame, limit) <= MAX_SYMBOL_PARTS
  }

  ghost predicate AllLegal(parcels: seq<Parcel>) {
    forall p :: p in parcels ==> Legal(p)
  }

  /** How many symbols a parcel takes. */
  ghost function Width(p: Parcel): nat
    requires Legal(p)
  {
    match p case Whole(_) => 1 case Split(frame, limit) => Parts(frame, limit)
  }

  /** The payload of its i-th symbol. */
  ghost function Share(p: Parcel, i: nat): (s: seq<Byte>)
    requires Legal(p) && i < Width(p)
    ensures |s| < 0x1_0000
  {
    match p
    case Whole(frames) => Packed(frames)
    case Split(frame, limit) => PartsReach(frame, limit, i); Fragment(frame, limit, i)
  }

  /** The first n of its symbols. */
  ghost function Symbols(p: Parcel, n: nat): (s: seq<seq<Byte>>)
    requires Legal(p) && n <= Width(p)
    ensures |s| == n
  {
    if n == 0 then [] else Symbols(p, n - 1) + [Vector(Share(p, n - 1), n - 1, Width(p))]
  }

  lemma {:induction false} SymbolsAt(p: Parcel, n: nat, i: nat)
    requires Legal(p) && i < n <= Width(p)
    ensures Symbols(p, n)[i] == Vector(Share(p, i), i, Width(p))
  {
    if i < n - 1 { SymbolsAt(p, n - 1, i); }
  }

  /** The frames in it. */
  function Content(p: Parcel): seq<Frame> {
    match p case Whole(frames) => frames case Split(frame, _) => [frame]
  }

  ghost function Contents(parcels: seq<Parcel>): seq<Frame> {
    if parcels == [] then [] else Contents(parcels[..|parcels| - 1]) + Content(parcels[|parcels| - 1])
  }

  lemma ContentsAppend(parcels: seq<Parcel>, p: Parcel)
    ensures Contents(parcels + [p]) == Contents(parcels) + Content(p)
  {
    assert (parcels + [p])[..|parcels|] == parcels;
  }

  /** Where the first symbol of the u-th parcel stands. */
  ghost function Start(parcels: seq<Parcel>, u: nat): nat
    requires AllLegal(parcels) && u <= |parcels|
  {
    if u == 0 then 0 else assert parcels[u - 1] in parcels; Start(parcels, u - 1) + Width(parcels[u - 1])
  }

  /** Everything on the wire. */
  ghost function Wire(parcels: seq<Parcel>, u: nat): (s: seq<seq<Byte>>)
    requires AllLegal(parcels) && u <= |parcels|
    ensures |s| == Start(parcels, u)
  {
    if u == 0 then []
    else assert parcels[u - 1] in parcels; Wire(parcels, u - 1) + Symbols(parcels[u - 1], Width(parcels[u - 1]))
  }

  lemma {:induction false} WireAt(parcels: seq<Parcel>, n: nat, u: nat, i: nat)
    requires AllLegal(parcels) && u < n <= |parcels|
    ensures Legal(parcels[u])
    ensures i < Width(parcels[u]) ==>
      Start(parcels, u) + i < Start(parcels, n)
      && Wire(parcels, n)[Start(parcels, u) + i] == Vector(Share(parcels[u], i), i, Width(parcels[u]))
  {
    hide Legal, Width, Vector, Share, Symbols;
    assert parcels[u] in parcels && parcels[n - 1] in parcels;
    if i < Width(parcels[u]) {
      if u == n - 1 {
        SymbolsAt(parcels[u], Width(parcels[u]), i);
      } else {
        WireAt(parcels, n - 1, u, i);
      }
    }
  }

  /** More parcels leave the earlier ones where they are. */
  lemma {:induction false} Further(parcels: seq<Parcel>, p: Parcel, u: nat)
    requires AllLegal(parcels) && Legal(p) && u <= |parcels|
    ensures AllLegal(parcels + [p])
    ensures Start(parcels + [p], u) == Start(parcels, u) && Wire(parcels + [p], u) == Wire(parcels, u)
  {
    hide Width, Symbols, Legal;
    assert AllLegal(parcels + [p]);
    if u > 0 { Further(parcels, p, u - 1); }
  }

  lemma WireAppend(parcels: seq<Parcel>, p: Parcel)
    requires AllLegal(parcels) && Legal(p)
    ensures AllLegal(parcels + [p])
    ensures Wire(parcels + [p], |parcels| + 1) == Wire(parcels, |parcels|) + Symbols(p, Width(p))
  {
    Further(parcels, p, |parcels|);
  }

  // ---------------------------------------------------------------- what a parcel yields

  /** The frames a receiver makes of a parcel once all its symbols are there: a count of one is read
      as whole frames. */
  ghost function Yield(p: Parcel): seq<Frame>
    requires Legal(p)
  {
    if Width(p) == 1 then Frames(Share(p, 0)) else Content(p)
  }

  /** A frame too long to be packed and too short to need two symbols. */
  predicate Stranded(frame: Frame, limit: nat) {
    |frame| <= limit < FRAME_HEADER + |frame|
  }

  /** A parcel yields its frames exactly when it is not a single fragment; a single fragment never
      yields its frame. */
  lemma YieldExact(p: Parcel)
    requires Legal(p)
    ensures Yield(p) == Content(p) <==> !(p.Split? && Stranded(p.frame, p.limit))
    ensures p.Split? && Stranded(p.frame, p.limit) ==> p.frame !in Yield(p)
    ensures p.Split? ==> (Width(p) == 1 <==> Stranded(p.frame, p.limit))
  {
    match p {
      case Whole(frames) => FramesOfPacked(frames);
      case Split(frame, limit) =>
        PartsReach(frame, limit, 0);
        PartsReach(frame, limit, 1);
        FramesShorter(frame);
        assert Width(p) == 1 ==> Share(p, 0) == frame;
        assert Yield(p) == Content(p) ==> frame in Yield(p);
    }
  }

  ghost predicate Clean(parcels: seq<Parcel>) {
    forall p :: p in parcels ==> !(p.Split? && Stranded(p.frame, p.limit))
  }

  lemma SplitParts(frame: Frame, limit: nat)
    requires 0 < limit < 0x1_0000 && limit < FRAME_HEADER + |frame| && |frame| > 0
    ensures (|frame| + limit - 1) / limit == Parts(frame, limit) > 0
    ensures Parts(frame, limit) <= MAX_SYMBOL_PARTS <==> |frame| <= MAX_SYMBOL_PARTS * limit
    ensures Parts(frame, limit) <= MAX_SYMBOL_PARTS ==>
      Legal(Split(frame, limit)) && Width(Split(frame, limit)) == Parts(frame, limit)
  {
    PartsReach(frame, limit, 0);
    PartsReach(frame, limit, MAX_SYMBOL_PARTS);
  }

  lemma SplitStep(p: Parcel, i: nat)
    requires Legal(p) && p.Split? && i < Width(p)
    ensures 0 <= i * p.limit <= Min((i + 1) * p.limit, |p.frame|) <= |p.frame|
    ensures Symbols(p, i + 1) ==
      Symbols(p, i) + [Vector(p.frame[i * p.limit..Min((i + 1) * p.limit, |p.frame|)], i, Width(p))]
  {
    PartsReach(p.frame, p.limit, i);
    Scaled(i, p.limit);
  }

  class Packer {
    var packed: seq<Byte>
    var sent: seq<seq<Byte>>
    // What was sealed so far, and the frames waiting in packed.
    ghost var parcels: seq<Parcel>
    ghost var waiting: seq<Frame>

    ghost predicate Valid()
      reads this
    {
      && AllLegal(parcels) && sent == Wire(parcels, |parcels|)
      && packed == Packed(waiting) && |packed| < 0x1_0000 && Sized(waiting)
    }

    /** The frames taken so far, in order. */
    ghost function Carried(): seq<Frame>
      reads this
    {
      Contents(parcels) + waiting
    }

    constructor ()
      ensures Valid() && Carried() == [] && parcels == [] && waiting == []
    {
      packed, sent, parcels, waiting := [], [], [], [];
    }

    method Emit(payload: seq<Byte>, index: nat, count: nat)
      modifies this`sent
      ensures sent == old(sent) + [Vector(payload, index, count)]
    {
      sent := sent + [Big16(|payload|) + Big16(index) + Big16(count) + payload];
    }

    /** Seals the frames waiting as one symbol. */
    method FlushPacked()
      requires Valid()
      modifies this
      ensures Valid() && Carried() == old(Carried()) && waiting == [] && packed == []
      ensures parcels == if old(waiting) == [] then old(parcels) else old(parcels) + [Whole(old(waiting))]
    {
      assert waiting == [] <==> |packed| == 0;
      if |packed| == 0 {
        return;
      }
      ghost var p := Whole(waiting);
      Emit(packed, 0, 1);
      assert Symbols(p, 1) == Symbols(p, 0) + [Vector(Share(p, 0), 0, 1)];
      WireAppend(parcels, p);
      ContentsAppend(parcels, p);
      packed := [];
      parcels, waiting := parcels + [p], [];
    }

    method EmitFragments(frame: Frame, limit: nat, count: nat)
      requires Legal(Split(frame, limit)) && count == Width(Split(frame, limit))
      modifies this`sent
      ensures sent == old(sent) + Symbols(Split(frame, limit), count)
    {
      hide Legal, Parts;
      ghost var p := Split(frame, limit);
      var i := 0;
      while i < count
        invariant 0 <= i <= count && sent == old(sent) + Symbols(p, i)
      {
        SplitStep(p, i);
        var end := Min((i + 1) * limit, |frame|);
        Emit(frame[i * limit..end], i, count);
        i := i + 1;
      }
    }

    /** Spreads one frame over symbols of its own. */
    method SendFragments(frame: Frame, limit: nat) returns (ok: bool)
      requires Valid() && waiting == [] && 5 <= limit < 0x1_0000 && limit < FRAME_HEADER + |frame|
      modifies this
      ensures Valid() && waiting == []
      ensures ok <==> |frame| <= MAX_SYMBOL_PARTS * limit
      ensures parcels == if ok then old(parcels) + [Split(frame, limit)] else old(parcels)
      ensures Carried() == if ok then old(Carried()) + [frame] else old(Carried())
    {
      hide Wire, Contents, Packed, Start, Legal, Parts;
      var count := (|frame| + limit - 1) / limit;
      SplitParts(frame, limit);
      if count > MAX_SYMBOL_PARTS {
        return false;
      }
      ghost var p := Split(frame, limit);
      EmitFragments(frame, limit, count);
      WireAppend(parcels, p);
      ContentsAppend(parcels, p);
      parcels := parcels + [p];
      return true;
    }

    /** Puts one frame on the wire, whole where it fits and in fragments where it does not. */
    method AppendFrame(frame: Frame, limit: nat) returns (ok: bool)
      requires Valid() && 5 <= limit < 0x1_0000 && |frame| <= MAX_FRAME_BYTES
      modifies this
      ensures Valid() && (ok <==> |frame| <= MAX_SYMBOL_PARTS * limit)
      ensures Carried() == if ok then old(Carried()) + [frame] else old(Carried())
      ensures Clean(parcels) <==> old(Clean(parcels)) && !Stranded(frame, limit)
      ensures var sealed := if old(waiting) == [] then old(parcels) else old(parcels) + [Whole(old(waiting))];
              if FRAME_HEADER + |frame| > limit
              then waiting == [] && parcels == (if ok then sealed + [Split(frame, limit)] else sealed)
              else if old(|packed|) + FRAME_HEADER + |frame| > limit then waiting == [frame] && parcels == sealed
              else waiting == old(waiting) + [frame] && parcels == old(parcels)
    {
      hide Contents, Wire, Packed, Parts, Content;
      if FRAME_HEADER + |frame| > limit {
        FlushPacked();
        ok := SendFragments(frame, limit);
        return;
      }
      if |packed| + FRAME_HEADER + |frame| > limit {
        FlushPacked();
      }
      PackedAppend(waiting, frame);
      assert packed + Big32(|frame|) + frame == packed + Packet(frame);
      packed := packed + Big32(|frame|) + frame;
      waiting := waiting + [frame];
      return true;
    }

    /** Sends everything waiting to be sent, then seals what is packed; a frame that takes too many
        symbols stops the sending. */
    method Drain(frames: seq<Frame>, limits: seq<nat>) returns (taken: nat)
      requires Valid() && |limits| == |frames|
      requires forall n :: 0 <= n < |frames| ==> 5 <= limits[n] < 0x1_0000 && |frames[n]| <= MAX_FRAME_BYTES
      modifies this
      ensures Valid() && taken <= |frames|
      ensures forall n :: 0 <= n < taken ==> |frames[n]| <= MAX_SYMBOL_PARTS * limits[n]
      ensures taken < |frames| ==> |frames[taken]| > MAX_SYMBOL_PARTS * limits[taken]
      ensures Carried() == old(Carried()) + frames[..taken]
      ensures Clean(parcels) <==> old(Clean(parcels)) && forall n :: 0 <= n < taken ==> !Stranded(frames[n], limits[n])
      ensures taken == |frames| ==> waiting == [] && Contents(parcels) == old(Carried()) + frames
    {
      hide Contents, Wire, Packed, Clean, Stranded, AllLegal, Sized, Start;
      taken := 0;
      assert frames[..0] == [];
      while taken < |frames|
        invariant Valid() && taken <= |frames|
        invariant forall n :: 0 <= n < taken ==> |frames[n]| <= MAX_SYMBOL_PARTS * limits[n]
        invariant Carried() == old(Carried()) + frames[..taken]
        invariant Clean(parcels) <==>
          old(Clean(parcels)) && forall n :: 0 <= n < taken ==> !Stranded(frames[n], limits[n])
      {
        var ok := AppendFrame(frames[taken], limits[taken]);
        if !ok {
          StrandedFits(frames[taken], limits[taken]);
          return;
        }
        assert frames[..taken + 1] == frames[..taken] + [frames[taken]];
        taken := taken + 1;
      }
      assert frames[..taken] == frames;
      ghost var held := waiting;
      CleanWhole(parcels, held);
      FlushPacked();
      assert Carried() == Contents(parcels);
    }
  }

  lemma StrandedFits(frame: Frame, limit: nat)
    requires |frame| > MAX_SYMBOL_PARTS * limit
    ensures !Stranded(frame, limit)
  {}

  lemma CleanWhole(parcels: seq<Parcel>, frames: seq<Frame>)
    ensures Clean(parcels + [Whole(frames)]) <==> Clean(parcels)
  {
    assert forall p :: p in parcels ==> p in parcels + [Whole(frames)];
  }
}
