/** When two repairs of one span recover two missing symbols (window.go): exactly when the determinant of
    their four coefficients is not zero. */
module TwoRepairs {
  import opened Gf256
  import opened Vectors
  import opened Ids
  import opened LinearSystem
  import opened Knowledge
  import opened Determinacy
  import opened Coefficients
  import opened Mixing
  import opened Encoder
  import opened Link
  import opened Conversation

  // ---------------------------------------------------------------- two equations in two unknowns

  lemma MulNothing(a: byte)
    ensures Mul(a, ZERO) == ZERO && Mul(ZERO, a) == ZERO
  {
    hide Exp, Log;
  }

  lemma MulOnlyZero(w: byte, y: byte)
    requires w != ZERO && Mul(w, y) == ZERO
    ensures y == ZERO
  {
    hide Mul;
    MulNothing(w);
    MulCancels(w, y, ZERO);
  }

  /** The determinant of the coefficients of two repairs at two places of their span. */
  function Determinant(rid: uint32, rid': uint32, i: nat, j: nat): byte {
    Xor(Mul(WindowCoefficient(rid, i), WindowCoefficient(rid', j)),
        Mul(WindowCoefficient(rid', i), WindowCoefficient(rid, j)))
  }

  /** Two proportions between x and y agree exactly when both are zero or the determinant is. */
  lemma Proportions(u: byte, v: byte, u': byte, v': byte, x: byte, y: byte)
    requires u != ZERO && v != ZERO && u' != ZERO && v' != ZERO && Mul(u, x) == Mul(v, y)
    ensures Mul(u', x) == Mul(v', y) <==> (x == ZERO && y == ZERO) || Xor(Mul(u, v'), Mul(u', v)) == ZERO
  {
    hide Mul, Xor;
    var det := Xor(Mul(u, v'), Mul(u', v));
    // The determinant times x is v times what the second proportion lacks.
    MulCommutes(u, v'); MulAssociates(v', u, x); MulAssociates(v', v, y); MulCommutes(v', v); MulAssociates(v, v', y);
    MulCommutes(u', v); MulAssociates(v, u', x);
    MulDistributes(x, Mul(u, v'), Mul(u', v));
    MulDistributes(v, Mul(v', y), Mul(u', x));
    assert Mul(det, x) == Mul(v, Xor(Mul(v', y), Mul(u', x)));
    XorZero(Mul(v', y), Mul(u', x)); MulNothing(v); MulNothing(x); MulNothing(det); MulNothing(u); MulNothing(u');
    MulNothing(v');
    if Mul(u', x) == Mul(v', y) && det != ZERO {
      MulOnlyZero(det, x);
      MulOnlyZero(v, y);
    }
    if det == ZERO { MulOnlyZero(v, Xor(Mul(v', y), Mul(u', x))); }
  }

  // ---------------------------------------------------------------- combinations

  /** Where two assignments differ, and by how much. */
  ghost function Difference(a: Assignment, b: Assignment): Assignment { p => Xor(a(p), b(p)) }

  lemma {:induction false} CombinationDiffers(a: Assignment, b: Assignment, rid: uint32, p: int, m: nat)
    ensures Combination(Difference(a, b), rid, p, m) == Xor(Combination(a, rid, p, m), Combination(b, rid, p, m))
  {
    hide Xor, Mul, WindowCoefficient;
    if m == 0 {
      XorUnit(ZERO);
    } else {
      var w, q := WindowCoefficient(rid, m - 1), p + m - 1;
      CombinationDiffers(a, b, rid, p, m - 1);
      MulDistributes(w, a(q), b(q));
      XorRegroup(Combination(a, rid, p, m - 1), Combination(b, rid, p, m - 1), Mul(w, a(q)), Mul(w, b(q)));
    }
  }

  /** A combination of what is zero but at two places. */
  lemma {:induction false} CombinationOfTwo(c: Assignment, rid: uint32, p: int, m: nat, q: int, r: int)
    requires p <= q < r && forall x :: p <= x < p + m && x != q && x != r ==> c(x) == ZERO
    ensures var (s, t) := (Mul(WindowCoefficient(rid, q - p), c(q)), Mul(WindowCoefficient(rid, r - p), c(r)));
            Combination(c, rid, p, m) == if r < p + m then Xor(s, t) else if q < p + m then s else ZERO
  {
    hide Xor, Mul, WindowCoefficient;
    if m > 0 {
      var w, x := WindowCoefficient(rid, m - 1), p + m - 1;
      CombinationOfTwo(c, rid, p, m - 1, q, r);
      MulNothing(w); XorUnit(Combination(c, rid, p, m - 1)); XorUnit(Mul(w, c(x)));
    }
  }

  /** Two assignments that agree but at two places of a span, and on one repair of it, agree on another
      repair exactly when they agree there too or the determinant is zero. */
  lemma TwoCombinations(a: Assignment, b: Assignment, rid: uint32, rid': uint32, p: int, m: nat, q: int, r: int)
    requires p <= q < r < p + m && forall x :: p <= x < p + m && x != q && x != r ==> a(x) == b(x)
    requires Combination(a, rid, p, m) == Combination(b, rid, p, m)
    ensures Combination(a, rid', p, m) == Combination(b, rid', p, m) <==>
      (a(q) == b(q) && a(r) == b(r)) || Determinant(rid, rid', q - p, r - p) == ZERO
  {
    hide Xor, Mul, WindowCoefficient, Combination;
    var c := Difference(a, b);
    forall x | p <= x < p + m && x != q && x != r ensures c(x) == ZERO { XorZero(a(x), b(x)); }
    CombinationDiffers(a, b, rid, p, m); CombinationDiffers(a, b, rid', p, m);
    CombinationOfTwo(c, rid, p, m, q, r); CombinationOfTwo(c, rid', p, m, q, r);
    XorZero(Combination(a, rid, p, m), Combination(b, rid, p, m));
    XorZero(Combination(a, rid', p, m), Combination(b, rid', p, m));
    XorZero(a(q), b(q)); XorZero(a(r), b(r));
    var u, v := WindowCoefficient(rid, q - p), WindowCoefficient(rid, r - p);
    var u', v' := WindowCoefficient(rid', q - p), WindowCoefficient(rid', r - p);
    XorZero(Mul(u, c(q)), Mul(v, c(r))); XorZero(Mul(u', c(q)), Mul(v', c(r)));
    Proportions(u, v, u', v', c(q), c(r));
  }

  // ---------------------------------------------------------------- in a conversation

  /** Two repairs that arrived make up for any two symbols of the span they share, when all the others are
      determined and the determinant is not zero. */
  lemma TwoRepairsDetermine(capacity: int, actions: seq<Action>, i: nat, k: nat, n: nat, q: int, r: int)
    requires i < n <= |actions| && k < n && actions[i].Protect? && actions[k].Protect?
    requires Brings(capacity, actions, i) && Brings(capacity, actions, k)
    requires SentBy(actions, i) == SentBy(actions, k)
    requires var m := Span(HeldAt(capacity, actions, i), actions[i].count); var p := |SentBy(actions, i)| - m;
             && m == Span(HeldAt(capacity, actions, k), actions[k].count) && p <= q < r < p + m
             && (forall x :: p <= x < p + m && x != q && x != r ==> Determined(Accepted(capacity, actions, n), x))
             && Determinant(actions[i].rid, actions[k].rid, q - p, r - p) != ZERO
    ensures Determined(Accepted(capacity, actions, n), q) && Determined(Accepted(capacity, actions, n), r)
  {
    hide Accepted, HeldAt, SentBy, RepairEquation, Determined, Longest, Determinant;
    var m := Span(HeldAt(capacity, actions, i), actions[i].count);
    AcceptedMore(capacity, actions, i, n); AcceptedMore(capacity, actions, k, n);
    TwoRepairsFill(Accepted(capacity, actions, n), SentBy(actions, i), actions[i].rid, actions[k].rid, m, q, r);
  }

  lemma TwoRepairsFill(
      told: seq<Equation>, sent: seq<seq<byte>>, rid: uint32, rid': uint32, m: nat, q: int, r: int)
    requires m <= |sent| && m <= WIDTH && |sent| - m <= q < r < |sent|
    requires RepairEquation(sent, rid, m) in told && RepairEquation(sent, rid', m) in told
    requires forall x :: |sent| - m <= x < |sent| && x != q && x != r ==> Determined(told, x)
    requires Determinant(rid, rid', q - (|sent| - m), r - (|sent| - m)) != ZERO
    ensures Determined(told, q) && Determined(told, r)
  {
    hide Satisfies, Combined, Combination, RepairEquation, At, Determinant;
    var p := |sent| - m;
    forall a: Assignment, b: Assignment, j: nat | Satisfies(a, told, j) && Satisfies(b, told, j)
      ensures a(q) == b(q) && a(r) == b(r)
    {
      RepairSays(a, told, sent, rid, m, j); RepairSays(b, told, sent, rid, m, j);
      RepairSays(a, told, sent, rid', m, j); RepairSays(b, told, sent, rid', m, j);
      forall x | p <= x < p + m && x != q && x != r ensures a(x) == b(x) { assert Determined(told, x); }
      TwoCombinations(a, b, rid, rid', p, m, q, r);
    }
  }

  /** Repairs 0 and 1 make up for both symbols of a span of two. */
  lemma FirstDeterminant()
    ensures Determinant(0, 1, 0, 1) != ZERO
  {
    hide Mul, Xor, WindowCoefficient;
    RowOfZero(); RowOfOne();
    XorZero(Mul(0x01, 0x28), Mul(0xd4, 0x28));
    MulCommutes(0x01, 0x28); MulCommutes(0xd4, 0x28);
    if Mul(0x28, 0x01) == Mul(0x28, 0xd4) { MulCancels(0x28, 0x01, 0xd4); }
  }

  /** Two symbols erased, then repairs 0 and 1 over both. */
  function TwoErased(v: seq<byte>, v': seq<byte>): seq<Action> {
    [Send(v, false), Send(v', false), Protect(0, 2, true), Protect(1, 2, true)]
  }

  lemma TwoErasedSent(v: seq<byte>, v': seq<byte>)
    ensures var actions := TwoErased(v, v');
            SentBy(actions, 2) == SentBy(actions, 3) == SentBy(actions, 4) == [v, v']
  {
    var actions := TwoErased(v, v');
    assert SentBy(actions, 0) == [] && SentBy(actions, 1) == [v] && SentBy(actions, 2) == [v, v'];
  }

  lemma RingStays(capacity: int, v: seq<byte>, v': seq<byte>, n: nat)
    requires capacity >= 2 && n <= 4
    ensures RingAt(capacity, TwoErased(v, v'), n) == RingFor(capacity) >= 2
  {
    if n > 0 { RingStays(capacity, v, v', n - 1); }
  }

  lemma TwoErasedHeld(capacity: int, v: seq<byte>, v': seq<byte>)
    requires capacity >= 2
    ensures HeldAt(capacity, TwoErased(v, v'), 2) == HeldAt(capacity, TwoErased(v, v'), 3) == 2
  {
    hide RingAt, RingFor, SentBy;
    var actions := TwoErased(v, v');
    RingStays(capacity, v, v', 1); RingStays(capacity, v, v', 2); RingStays(capacity, v, v', 3);
    assert HeldAt(capacity, actions, 0) == 0 && HeldAt(capacity, actions, 1) == 1;
  }

  lemma LongestOfTwo(v: seq<byte>, v': seq<byte>)
    requires v != [] || v' != []
    ensures Longest([v, v'], 2) > 0
  {
    assert Longest([v, v'], 1) == |v'|;
  }

  lemma TwoErasedBrings(capacity: int, v: seq<byte>, v': seq<byte>)
    requires capacity >= 2 && (v != [] || v' != [])
    ensures var actions := TwoErased(v, v');
            Brings(capacity, actions, 2) && Brings(capacity, actions, 3) && Top(capacity, actions, 4) == 2
  {
    hide HeldAt, SentBy, Longest;
    TwoErasedSent(v, v'); TwoErasedHeld(capacity, v, v'); LongestOfTwo(v, v');
    assert Span(2, 2) == 2;
  }

  lemma TwoErasedDetermined(capacity: int, actions: seq<Action>, v: seq<byte>, v': seq<byte>)
    requires |actions| == 4 && actions[2] == Protect(0, 2, true) && actions[3] == Protect(1, 2, true)
    requires Brings(capacity, actions, 2) && Brings(capacity, actions, 3)
    requires SentBy(actions, 2) == SentBy(actions, 3) == [v, v']
    requires HeldAt(capacity, actions, 2) == HeldAt(capacity, actions, 3) == 2
    ensures Determined(Accepted(capacity, actions, 4), 0) && Determined(Accepted(capacity, actions, 4), 1)
  {
    hide Determinant, Accepted, Determined, Brings, SentBy, HeldAt;
    FirstDeterminant();
    assert Span(2, 2) == 2 && |SentBy(actions, 2)| - 2 == 0;
    TwoRepairsDetermine(capacity, actions, 2, 3, 4, 0, 1);
  }

  lemma AtKnowable(capacity: int, actions: seq<Action>, n: nat, p: int)
    requires n <= |actions| && KnowableAt(capacity, actions, n, p)
    ensures Knowable(capacity, actions, n, p)
  {
    hide KnowableAt;
  }

  /** Both erased symbols can be known once both repairs have arrived. */
  lemma TwoErasedKnowable(capacity: int, v: seq<byte>, v': seq<byte>)
    requires capacity >= 2 && (v != [] || v' != [])
    ensures Knowable(capacity, TwoErased(v, v'), 4, 0) && Knowable(capacity, TwoErased(v, v'), 4, 1)
  {
    hide Accepted, Determined, Brings, SentBy, HeldAt, Top, Knowable;
    var actions := TwoErased(v, v');
    TwoErasedSent(v, v'); TwoErasedHeld(capacity, v, v'); TwoErasedBrings(capacity, v, v');
    TwoErasedDetermined(capacity, actions, v, v');
    AtKnowable(capacity, actions, 4, 0); AtKnowable(capacity, actions, 4, 1);
  }
}
