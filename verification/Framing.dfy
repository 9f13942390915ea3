/** Frames inside symbols: what is written and how it is read back (coded.go). */
module Framing {
  import opened Wrappers
  import opened Numbers
  import Bits8

  type Byte = Bits8.byte
  type Frame = seq<Byte>

  const SYMBOL_HEADER := 6
  const FRAME_HEADER := 4
  const MAX_FRAME_BYTES := 0x10_0000
  const MAX_SYMBOL_PARTS := 256

  // ---------------------------------------------------------------- big-endian numbers

  function Big16(x: nat): (s: seq<Byte>)
    ensures |s| == 2
  {
    [x / 0x100 % 0x100, x % 0x100]
  }

  function Big32(x: nat): (s: seq<Byte>)
    ensures |s| == 4
  {
    Big16(x / 0x1_0000) + Big16(x)
  }

  function Read16(s: seq<Byte>): (x: nat)
    requires |s| >= 2
    ensures x < 0x1_0000
  {
    s[0] as int * 0x100 + s[1]
  }

  function Read32(s: seq<Byte>): (x: nat)
    requires |s| >= 4
    ensures x < 0x1_0000_0000
  {
    Read16(s) * 0x1_0000 + Read16(s[2..])
  }

  /** Numbers go on the wire with their high byte first. */
  lemma HighByteFirst(x: nat)
    ensures x < 0x1_0000 ==> Big16(x)[0] as int * 0x100 + Big16(x)[1] as int == x
    ensures x < 0x1_0000_0000 ==>
      var b := Big32(x);
      b[0] as int * 0x100_0000 + b[1] as int * 0x1_0000 + b[2] as int * 0x100 + b[3] as int == x
  {}

  /** A number is read back as it was written, up to the width written. */
  lemma ReadBig16(x: nat, rest: seq<Byte>)
    ensures Read16(Big16(x) + rest) == x % 0x1_0000
  {
    var s := Big16(x) + rest;
    assert s[0] == Big16(x)[0] && s[1] == Big16(x)[1];
    assert x % 0x1_0000 == x / 0x100 % 0x100 * 0x100 + x % 0x100;
  }

  lemma ReadBig32(x: nat, rest: seq<Byte>)
    ensures Read32(Big32(x) + rest) == x % 0x1_0000_0000
  {
    var s := Big32(x) + rest;
    assert s == Big16(x / 0x1_0000) + (Big16(x) + rest);
    assert s[2..] == Big16(x) + rest;
    ReadBig16(x / 0x1_0000, Big16(x) + rest);
    ReadBig16(x, rest);
    assert x % 0x1_0000_0000 == x / 0x1_0000 % 0x1_0000 * 0x1_0000 + x % 0x1_0000;
  }

  lemma BigOfRead16(s: seq<Byte>)
    requires |s| >= 2
    ensures Big16(Read16(s)) == s[..2]
  {}

  lemma BigOfRead32(s: seq<Byte>)
    requires |s| >= 4
    ensures Big32(Read32(s)) == s[..4]
  {
    var high, low := Read16(s), Read16(s[2..]);
    BigOfRead16(s); BigOfRead16(s[2..]);
    assert Read32(s) / 0x1_0000 == high;
    Big16Wraps(low, high);
    assert s[..4] == s[..2] + s[2..][..2];
  }

  lemma Big16Wraps(low: nat, high: nat)
    requires low < 0x1_0000
    ensures Big16(high * 0x1_0000 + low) == Big16(low)
  {
    var x := high * 0x1_0000 + low;
    assert x / 0x100 == high * 0x100 + low / 0x100;
  }

  // ---------------------------------------------------------------- whole frames in one symbol

  /** A frame behind its length. */
  function Packet(frame: Frame): seq<Byte> { Big32(|frame|) + frame }

  /** On the wire a packed frame is four bytes of length, high byte first, and the frame. */
  lemma PacketBytes(frame: Frame)
    requires |frame| < 0x1_0000_0000
    ensures var b := Packet(frame);
            && |b| == 4 + |frame| && b[4..] == frame
            && b[0] as int * 0x100_0000 + b[1] as int * 0x1_0000 + b[2] as int * 0x100 + b[3] as int == |frame|
  {
    HighByteFirst(|frame|);
    assert forall i :: 0 <= i < 4 ==> Packet(frame)[i] == Big32(|frame|)[i];
    hide Big32;
  }

  /** Frames one behind the other. */
  function Packed(frames: seq<Frame>): seq<Byte> {
    if frames == [] then [] else Packet(frames[0]) + Packed(frames[1..])
  }

  /** The frames a payload carries; what does not make a frame ends the reading. */
  function Frames(payload: seq<Byte>): seq<Frame>
    decreases |payload|
  {
    if |payload| < FRAME_HEADER then []
    else
      var size, rest := Read32(payload), payload[FRAME_HEADER..];
      if size > |rest| then [] else [rest[..size]] + Frames(rest[size..])
  }

  ghost predicate Sized(frames: seq<Frame>) {
    forall f :: f in frames ==> |f| < 0x1_0000_0000
  }

  lemma FramesStep(frame: Frame, rest: seq<Byte>)
    requires |frame| < 0x1_0000_0000
    ensures Frames(Packet(frame) + rest) == [frame] + Frames(rest)
  {
    hide Big32, Read32;
    var payload := Packet(frame) + rest;
    ReadBig32(|frame|, frame + rest);
    assert payload == Big32(|frame|) + (frame + rest);
    assert payload[FRAME_HEADER..] == frame + rest;
    assert (frame + rest)[..|frame|] == frame && (frame + rest)[|frame|..] == rest;
  }

  /** Reading packed frames gives them back, in order. */
  lemma {:induction false} FramesOfPacked(frames: seq<Frame>)
    requires Sized(frames)
    ensures Frames(Packed(frames)) == frames
  {
    if frames == [] {
    } else {
      hide Frames, Packet;
      assert frames[0] in frames && forall g :: g in frames[1..] ==> g in frames;
      FramesStep(frames[0], Packed(frames[1..]));
      FramesOfPacked(frames[1..]);
      assert frames == [frames[0]] + frames[1..];
    }
  }

  lemma {:induction false} PackedAppend(frames: seq<Frame>, frame: Frame)
    ensures Packed(frames + [frame]) == Packed(frames) + Packet(frame)
  {
    if frames == [] {
      assert frames + [frame] == [frame];
      assert [frame][1..] == [];
      assert Packed([frame]) == Packet(frame);
    } else {
      PackedAppend(frames[1..], frame);
      assert (frames + [frame])[1..] == frames[1..] + [frame];
    }
  }

  /** Whatever is read out of a payload is shorter than it: a payload is never one of its own frames. */
  lemma {:induction false} FramesShorter(payload: seq<Byte>)
    ensures forall f :: f in Frames(payload) ==> |f| + FRAME_HEADER <= |payload|
    decreases |payload|
  {
    if |payload| >= FRAME_HEADER {
      var size, rest := Read32(payload), payload[FRAME_HEADER..];
      if size <= |rest| { FramesShorter(rest[size..]); }
    }
  }

  /** What is read is exactly what is there: the payload is the frames, packed, and a rest that is no whole
      frame. */
  lemma {:induction false} FramesExact(payload: seq<Byte>) returns (rest: seq<Byte>)
    ensures payload == Packed(Frames(payload)) + rest && Frames(rest) == []
    ensures |rest| < FRAME_HEADER || Read32(rest) > |rest| - FRAME_HEADER
    decreases |payload|
  {
    hide Big32, Read32, Packed, Packet, Frames;
    rest := payload;
    if |payload| < FRAME_HEADER || Read32(payload) > |payload| - FRAME_HEADER {
      FramesEnd(payload);
    } else {
      var size, left := Read32(payload), payload[FRAME_HEADER..];
      FramesRead(payload); PacketRead(payload);
      rest := FramesExact(left[size..]);
      PackedFirst(left[..size], Frames(left[size..]));
      Regroup(Packet(left[..size]), Packed(Frames(left[size..])), rest);
    }
  }

  lemma Regroup(a: seq<Byte>, b: seq<Byte>, c: seq<Byte>)
    ensures a + (b + c) == (a + b) + c
  {}

  lemma FramesEnd(payload: seq<Byte>)
    requires |payload| < FRAME_HEADER || Read32(payload) > |payload| - FRAME_HEADER
    ensures Frames(payload) == [] && payload == Packed([]) + payload
  {}

  lemma PackedFirst(frame: Frame, frames: seq<Frame>)
    ensures Packed([frame] + frames) == Packet(frame) + Packed(frames)
  {
    assert ([frame] + frames)[1..] == frames;
  }

  lemma FramesRead(payload: seq<Byte>)
    requires |payload| >= FRAME_HEADER && Read32(payload) <= |payload| - FRAME_HEADER
    ensures var size, left := Read32(payload), payload[FRAME_HEADER..];
            Frames(payload) == [left[..size]] + Frames(left[size..])
  {}

  lemma PacketRead(payload: seq<Byte>)
    requires |payload| >= FRAME_HEADER && Read32(payload) <= |payload| - FRAME_HEADER
    ensures var size, left := Read32(payload), payload[FRAME_HEADER..];
            payload == Packet(left[..size]) + left[size..]
  {
    BigOfRead32(payload);
    hide Big32, Read32;
    var size, left := Read32(payload), payload[FRAME_HEADER..];
    assert payload == payload[..4] + (left[..size] + left[size..]);
  }

  /** Reads the whole frames out of a payload, behind those already out. */
  method ParseFrames(payload: seq<Byte>, before: seq<Frame>) returns (out: seq<Frame>)
    ensures out == before + Frames(payload)
  {
    out := before;
    var left := payload;
    while |left| >= FRAME_HEADER
      invariant out + Frames(left) == before + Frames(payload)
      decreases |left|
    {
      var size := Read32(left);
      var rest := left[FRAME_HEADER..];
      if size > |rest| { break; }
      assert Frames(left) == [rest[..size]] + Frames(rest[size..]);
      out := out + [rest[..size]];
      left := rest[size..];
    }
    assert Frames(left) == [];
  }

  // ---------------------------------------------------------------- symbols

  datatype Symbol = Symbol(payload: seq<Byte>, index: nat, count: nat)

  /** The vector that is coded: how much payload, which part, of how many, and the payload. */
  function Vector(payload: seq<Byte>, index: nat, count: nat): (v: seq<Byte>)
    ensures |v| == SYMBOL_HEADER + |payload|
  {
    Big16(|payload|) + Big16(index) + Big16(count) + payload
  }

  /** On the wire a symbol is the length of its payload, which part it is and of how many, two bytes
      each with the high byte first, and the payload. */
  lemma VectorBytes(payload: seq<Byte>, index: nat, count: nat)
    requires |payload| < 0x1_0000 && index < 0x1_0000 && count < 0x1_0000
    ensures var v := Vector(payload, index, count);
            && v[0] as int * 0x100 + v[1] as int == |payload| && v[2] as int * 0x100 + v[3] as int == index
            && v[4] as int * 0x100 + v[5] as int == count && v[6..] == payload
  {
    HighByteFirst(|payload|); HighByteFirst(index); HighByteFirst(count);
    hide Big16;
  }

  /** A vector read back; it may be longer than what was written. */
  function ParseSymbol(vector: seq<Byte>): Option<Symbol> {
    if |vector| < SYMBOL_HEADER then None
    else
      var length, index, count := Read16(vector), Read16(vector[2..]), Read16(vector[4..]);
      if count < 1 || count > MAX_SYMBOL_PARTS || index >= count || SYMBOL_HEADER + length > |vector| then None
      else Some(Symbol(vector[SYMBOL_HEADER..SYMBOL_HEADER + length], index, count))
  }

  /** A symbol is read back from its vector whatever follows it, as long as its payload's length fits
      the sixteen bits that carry it. */
  lemma SymbolOfVector(payload: seq<Byte>, index: nat, count: nat, padding: seq<Byte>)
    requires |payload| < 0x1_0000 && index < count <= MAX_SYMBOL_PARTS
    ensures ParseSymbol(Vector(payload, index, count) + padding) == Some(Symbol(payload, index, count))
  {
    var v := Vector(payload, index, count) + padding;
    var tail := payload + padding;
    assert v == Big16(|payload|) + (Big16(index) + Big16(count) + tail);
    assert v[2..] == Big16(index) + (Big16(count) + tail);
    assert v[4..] == Big16(count) + tail;
    assert v[6..6 + |payload|] == payload;
    ReadBig16(|payload|, Big16(index) + Big16(count) + tail);
    ReadBig16(index, Big16(count) + tail);
    ReadBig16(count, tail);
    hide Read16, Big16;
  }

  /** A vector is read as a symbol exactly when it begins with that symbol's own vector. */
  lemma ParsedIsVector(vector: seq<Byte>, s: Symbol)
    ensures ParseSymbol(vector) == Some(s) <==>
      && |s.payload| < 0x1_0000 && s.index < s.count <= MAX_SYMBOL_PARTS
      && Vector(s.payload, s.index, s.count) <= vector
  {
    var v := Vector(s.payload, s.index, s.count);
    if |s.payload| < 0x1_0000 && s.index < s.count <= MAX_SYMBOL_PARTS && v <= vector {
      assert vector == v + vector[|v|..];
      SymbolOfVector(s.payload, s.index, s.count, vector[|v|..]);
    }
    if ParseSymbol(vector) == Some(s) {
      BigOfRead16(vector); BigOfRead16(vector[2..]); BigOfRead16(vector[4..]);
      hide Big16, Read16;
      assert vector[..6] == vector[..2] + vector[2..][..2] + vector[4..][..2];
      assert vector[..|v|] == vector[..6] + s.payload;
    }
  }

  // ---------------------------------------------------------------- fragments

  /** How many symbols of limit bytes a frame takes. */
  function Parts(frame: Frame, limit: nat): nat
    requires limit > 0
  {
    (|frame| + limit - 1) / limit
  }

  /** The i-th fragment of a frame. */
  function Fragment(frame: Frame, limit: nat, i: nat): (f: seq<Byte>)
    requires i * limit <= |frame|
    ensures |f| <= limit
  {
    Scaled(i, limit);
    frame[i * limit..Min((i + 1) * limit, |frame|)]
  }

  lemma Scaled(i: nat, limit: nat)
    ensures (i + 1) * limit == i * limit + limit && i * limit >= 0
  {}

  /** A frame of parts fragments reaches past all of them but the last. */
  lemma PartsReach(frame: Frame, limit: nat, i: nat)
    requires limit > 0
    ensures i < Parts(frame, limit) <==> i * limit < |frame|
  {
    var n := Parts(frame, limit);
    if i < n { Product(i, n - 1, limit); Scaled(n - 1, limit); } else { Product(n, i, limit); }
    Divided(|frame| + limit - 1, limit);
  }

  lemma Product(i: nat, k: nat, limit: nat)
    requires i <= k
    ensures i * limit <= k * limit
  {}

  lemma Divided(a: nat, limit: nat)
    requires limit > 0
    ensures a / limit * limit <= a < a / limit * limit + limit
  {}

  /** The first n fragments, joined. */
  function Joined(frame: Frame, limit: nat, n: nat): seq<Byte>
    requires limit > 0 && n <= Parts(frame, limit)
  {
    if n == 0 then [] else PartsReach(frame, limit, n - 1); Joined(frame, limit, n - 1) + Fragment(frame, limit, n - 1)
  }

  lemma {:induction false} JoinedIsPrefix(frame: Frame, limit: nat, n: nat)
    requires limit > 0 && n <= Parts(frame, limit)
    ensures Joined(frame, limit, n) == frame[..Min(n * limit, |frame|)]
  {
    if n > 0 {
      PartsReach(frame, limit, n - 1);
      JoinedIsPrefix(frame, limit, n - 1);
      Scaled(n - 1, limit);
    }
  }

  /** The fragments of a frame, joined, are the frame. */
  lemma FragmentsJoin(frame: Frame, limit: nat)
    requires limit > 0
    ensures Joined(frame, limit, Parts(frame, limit)) == frame
  {
    var n := Parts(frame, limit);
    JoinedIsPrefix(frame, limit, n);
    PartsReach(frame, limit, n);
  }
}
