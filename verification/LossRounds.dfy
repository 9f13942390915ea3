/** The loss rates of the last rounds, kept in a ring (lossmodel.go). */
module LossRounds {
  import Ids
  import opened Numbers

  /** Round r's place in the ring. */
  function Place(r: nat, size: nat): nat
    requires size > 0
  {
    r % size
  }

  /** The ring holds the last of the losses, each at its number modulo the size. */
  ghost predicate Ring(rounds: seq<real>, at: nat, losses: seq<real>, size: nat)
    requires size > 0
  {
    && |rounds| == Min(|losses|, size) && at == (if |losses| < size then 0 else Place(|losses|, size))
    && forall r: nat :: |losses| - size <= r < |losses| ==> Placed(rounds, losses, r, size)
  }

  ghost predicate Placed(rounds: seq<real>, losses: seq<real>, r: nat, size: nat)
    requires size > 0
  {
    r < |losses| && Place(r, size) < |rounds| && rounds[Place(r, size)] == losses[r]
  }

  /** The ring after one more round. */
  function Turned(rounds: seq<real>, at: nat, size: nat, loss: real): (seq<real>, nat)
    requires size > 0 && (|rounds| < size || at < |rounds|)
  {
    if |rounds| < size then (rounds + [loss], at) else (rounds[at := loss], Place(at + 1, size))
  }

  lemma RingTurns(rounds: seq<real>, at: nat, losses: seq<real>, size: nat, loss: real)
    requires size > 0 && Ring(rounds, at, losses, size)
    ensures |rounds| < size || at < |rounds|
    ensures var (rounds', at') := Turned(rounds, at, size, loss); Ring(rounds', at', losses + [loss], size)
  {
    hide Place;
    var c := |losses|;
    PlaceNext(c, size); PlaceSmall(c, size); PlaceSmall(c + 1, size);
    var (rounds', at') := Turned(rounds, at, size, loss);
    forall r: nat | c + 1 - size <= r < c + 1 ensures Placed(rounds', losses + [loss], r, size) {
      PlaceSmall(r, size);
      if r < c {
        assert Placed(rounds, losses, r, size);
        PlacesDiffer(r, c, size);
      }
    }
  }

  lemma PlaceSmall(r: nat, size: nat)
    requires size > 0
    ensures Place(r, size) < size && (r < size ==> Place(r, size) == r) && (r == size ==> Place(r, size) == 0)
  {}

  lemma PlaceNext(c: nat, size: nat)
    requires size > 0
    ensures Place(Place(c, size) + 1, size) == Place(c + 1, size)
    ensures c >= 1 ==> Place(Place(c, size) + size - 1, size) == Place(c - 1, size)
  {
    var q, r := c / size, c % size;
    assert c == size * q + r;
    Ids.ModuloShift(r + 1, size, q);
    if c >= 1 {
      Ids.ModuloShift(r - 1, size, q);
      Ids.ModuloShift(r - 1, size, 1);
    }
  }

  lemma PlacesDiffer(r: nat, c: nat, size: nat)
    requires size > 0 && c - size < r < c
    ensures Place(r, size) != Place(c, size)
  {
    if r % size == c % size {
      var q, k := r / size, c / size;
      assert r == size * q + r % size && c == size * k + c % size;
      assert size * (k - q) == size * k - size * q;
      SameMultiple(size, k - q, c - r);
    }
  }

  lemma SameMultiple(size: int, k: int, d: int)
    requires size > 0 && d == size * k && -size < d < size
    ensures d == 0
  {
    assert k >= 1 ==> size * k >= size;
    assert k <= -1 ==> size * k <= -size;
  }

  /** The least and the latest loss in the ring. */
  method Extremes(rounds: seq<real>, at: nat, size: nat, ghost losses: seq<real>) returns (minimum: real, recent: real)
    requires size > 0 && losses != [] && Ring(rounds, at, losses, size)
    ensures forall r: nat :: |losses| - size <= r < |losses| ==> minimum <= losses[r]
    ensures exists r: nat :: |losses| - size <= r < |losses| && minimum == losses[r]
    ensures recent == losses[|losses| - 1]
  {
    hide Place;
    var i := Lowest(rounds);
    minimum, recent := rounds[i], rounds[|rounds| - 1];
    LatestPlace(rounds, at, losses, size);
    if |rounds| == size {
      recent := rounds[Place(at + size - 1, size)];
    }
    forall r: nat | |losses| - size <= r < |losses| ensures minimum <= losses[r] {
      assert Placed(rounds, losses, r, size);
    }
    ghost var r := Holder(|losses|, size, i);
    assert Placed(rounds, losses, r, size);
  }

  method Lowest(rounds: seq<real>) returns (at: nat)
    requires rounds != []
    ensures at < |rounds| && forall j :: 0 <= j < |rounds| ==> rounds[at] <= rounds[j]
  {
    at := 0;
    var i := 1;
    while i < |rounds|
      invariant at < i <= |rounds| && forall j :: 0 <= j < i ==> rounds[at] <= rounds[j]
    {
      if rounds[i] < rounds[at] { at := i; }
      i := i + 1;
    }
  }

  lemma LatestPlace(rounds: seq<real>, at: nat, losses: seq<real>, size: nat)
    requires size > 0 && losses != [] && Ring(rounds, at, losses, size)
    ensures |rounds| > 0
    ensures |rounds| < size ==> rounds[|rounds| - 1] == losses[|losses| - 1]
    ensures |rounds| == size ==>
      Place(at + size - 1, size) < |rounds| && rounds[Place(at + size - 1, size)] == losses[|losses| - 1]
  {
    hide Place;
    var c := |losses|;
    PlaceNext(c, size); PlaceSmall(c, size); PlaceSmall(c - 1, size);
    assert Placed(rounds, losses, c - 1, size);
  }

  /** Every place in use holds one of the last rounds. */
  ghost function Holder(c: nat, size: nat, k: nat): (r: nat)
    requires size > 0 && k < Min(c, size)
    ensures c - size <= r < c && Place(r, size) == k
  {
    PlaceSmall(k, size);
    if c <= size then k
    else HolderBeyond(c, size, k); if k < c % size then c - c % size + k else c - c % size - size + k
  }

  lemma HolderBeyond(c: nat, size: nat, k: nat)
    requires size > 0 && c > size && k < size
    ensures k < c % size ==> Place(c - c % size + k, size) == k
    ensures c - c % size - size + k >= 0 && Place(c - c % size - size + k, size) == k
  {
    var q, m := c / size, c % size;
    assert c == size * q + m;
    assert q <= 0 ==> size * q <= 0;
    assert size * (q - 1) == size * q - size;
    Ids.ModuloShift(k, size, q); Ids.ModuloShift(k, size, q - 1); PlaceSmall(k, size);
    assert q >= 1 ==> size * (q - 1) >= 0;
  }
}
