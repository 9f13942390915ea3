/** What a decoder has reported over several calls (window.go). */
module Reports {
  import opened Gf256
  import opened Vectors
  import opened Ids
  import opened LinearSystem
  import opened DecoderSteps

  /** One report behind another. */
  function Then(a: Delivery, b: Delivery): Delivery {
    Delivery(a.recovered + b.recovered, a.lost + b.lost)
  }

  function Joined(outs: seq<Delivery>): Delivery {
    if outs == [] then Nothing else Then(Joined(outs[..|outs| - 1]), outs[|outs| - 1])
  }

  lemma JoinedMore(outs: seq<Delivery>, out: Delivery)
    ensures Joined(outs + [out]) == Then(Joined(outs), out)
  {
    assert (outs + [out])[..|outs|] == outs;
  }

  /** The report names just what the fates gained, in order. */
  ghost predicate Told(all: Delivery, f: Fates, f': Fates) {
    && |f'.recovered| == |f.recovered| + |all.recovered| && |f'.lost| == |f.lost| + |all.lost|
    && (forall i :: 0 <= i < |all.recovered| ==> all.recovered[i].esi == Wrap(f'.recovered[|f.recovered| + i]))
    && (forall i :: 0 <= i < |all.lost| ==> all.lost[i] == Wrap(f'.lost[|f.lost| + i]))
  }

  lemma ToldNone(f: Fates)
    ensures Told(Nothing, f, f)
  {}

  lemma ToldMore(all: Delivery, f: Fates, f': Fates, at: int, slots: seq<Slot>, out: Delivery, f'': Fates)
    requires Told(all, f, f') && More(f', f'') && Logged(at, slots, f'', out, |f'.recovered|, |f'.lost|)
    ensures Told(Then(all, out), f, f'')
  {
    hide Wrap;
    var both, b, c := Then(all, out), |f.recovered|, |f.lost|;
    forall i | 0 <= i < |both.recovered| ensures both.recovered[i].esi == Wrap(f''.recovered[b + i]) {
      if i < |all.recovered| {
        assert f''.recovered[b + i] == f'.recovered[b + i];
      } else {
        assert Reported(at, slots, f''.recovered[|f'.recovered| + (i - |all.recovered|)],
                        out.recovered[i - |all.recovered|]);
      }
    }
    forall i | 0 <= i < |both.lost| ensures both.lost[i] == Wrap(f''.lost[c + i]) {
      if i < |all.lost| {
        assert f''.lost[c + i] == f'.lost[c + i];
      } else {
        assert out.lost[i - |all.lost|] == Wrap(f''.lost[|f'.lost| + (i - |all.lost|)]);
      }
    }
  }

  /** All of it is the stream's own exactly when each part is. */
  lemma OriginalThen(all: Delivery, base: nat, f: Fates, out: Delivery, f': Fates, stream: int -> seq<byte>)
    requires More(f, f') && |f.recovered| == base + |all.recovered| && |f'.recovered| == |f.recovered| + |out.recovered|
    ensures Original(f', Then(all, out), base, stream) <==>
      Original(f, all, base, stream) && Original(f', out, |f.recovered|, stream)
  {
    hide SameSymbol;
    var n, both := |all.recovered|, Then(all, out);
    forall i | 0 <= i < n
      ensures both.recovered[i] == all.recovered[i] && f'.recovered[base + i] == f.recovered[base + i]
    {}
    forall i | 0 <= i < |out.recovered|
      ensures both.recovered[n + i] == out.recovered[i]
      ensures f'.recovered[base + (n + i)] == f'.recovered[|f.recovered| + i] {}
  }
}
