/** Nothing decodable is missed: a symbol in the window is known exactly when everything the
    decoder was told determines it. */
module Determinacy {
  import opened Gf256
  import opened Vectors
  import opened Ids
  import opened LinearSystem
  import opened Echelon
  import opened Knowledge

  /** Everything told leaves only one value for the symbol at position p. */
  ghost predicate Determined(told: seq<Equation>, p: int) {
    forall a: Assignment, b: Assignment, j: nat :: Satisfies(a, told, j) && Satisfies(b, told, j) ==> a(p) == b(p)
  }

  /** A known symbol has the one value that everything told leaves for it. */
  lemma KnownIsDetermined(at: int, slots: seq<Slot>, rows: seq<Row>, told: seq<Equation>, p: int, a: Assignment, j: nat)
    requires |slots| == WIDTH && Exact(at, slots, rows, told)
    requires at <= p < at + WIDTH && Known(slots[p % WIDTH]) && Satisfies(a, told, j)
    ensures a(p) == At(slots[p % WIDTH].vector, j)
  {
    hide RowsHold, Satisfies, Column;
    var x := Column(a, at);
    assert Extends(told, at, x, j);
    assert Holds(slots, rows, x, j);
    assert SlotHolds(slots[p % WIDTH], x[p % WIDTH], j);
    ColumnAt(a, at, p);
  }

  /** The second unknown of a held row; it is nobody's pivot. */
  lemma SecondUnknown(at: int, slots: seq<Slot>, rows: seq<Row>, i: nat) returns (f: nat)
    requires |slots| == WIDTH && Reduced(at, slots, rows) && Tight(rows) && i < |rows|
    ensures f < WIDTH && f != Index(rows[i].pivot) && rows[i].coef[f] != ZERO
    ensures !Known(slots[f]) && !IsPivot(rows, f)
  {
    hide Index, Leads, Place;
    assert Shaped(at, slots, rows[i]);
    assert !OnlyAt(rows[i].coef, Index(rows[i].pivot));
    f :| 0 <= f < WIDTH && f != Index(rows[i].pivot) && rows[i].coef[f] != ZERO;
  }

  /** The solution x moved by one in the free symbol f, the pivots following. */
  ghost function Moved(rows: seq<Row>, x: Line, f: nat): Line
    requires f < WIDTH
  {
    seq(WIDTH, s requires 0 <= s < WIDTH =>
      if s == f then Xor(x[s], ONE)
      else if i :| 0 <= i < |rows| && Index(rows[i].pivot) == s then Xor(x[s], rows[i].coef[f])
      else x[s])
  }

  lemma MovedAtPivot(at: int, slots: seq<Slot>, rows: seq<Row>, x: Line, f: nat, i: nat)
    requires |slots| == WIDTH && Reduced(at, slots, rows) && f < WIDTH && !IsPivot(rows, f) && i < |rows|
    ensures Moved(rows, x, f)[Index(rows[i].pivot)] == Xor(x[Index(rows[i].pivot)], rows[i].coef[f])
  {
    hide Index, Leads, Place, Xor;
    forall m | 0 <= m < |rows| && Index(rows[m].pivot) == Index(rows[i].pivot) ensures m == i {
      assert Shaped(at, slots, rows[i]);
    }
  }

  lemma MovedRow(at: int, slots: seq<Slot>, rows: seq<Row>, x: Line, f: nat, i: nat)
    requires |slots| == WIDTH && Reduced(at, slots, rows) && f < WIDTH && !IsPivot(rows, f) && i < |rows|
    ensures Dot(rows[i].coef, Moved(rows, x, f)) == Dot(rows[i].coef, x)
  {
    hide Index, Leads, Place, Xor, Mul, Dot;
    var p, c := Index(rows[i].pivot), rows[i].coef;
    var y: Line := x[f := Xor(x[f], ONE)];
    var z: Line := y[p := Xor(y[p], c[f])];
    assert Shaped(at, slots, rows[i]);
    MovedAtPivot(at, slots, rows, x, f, i);
    forall s | 0 <= s < WIDTH && c[s] != ZERO ensures Moved(rows, x, f)[s] == z[s] {
      if s != f && s != p {
        assert forall m :: 0 <= m < |rows| && m != i ==> Index(rows[m].pivot) != s;
      }
    }
    DotAgree(c, Moved(rows, x, f), z);
    DotReplace(c, x, f, Xor(x[f], ONE));
    DotReplace(c, y, p, Xor(y[p], c[f]));
    XorCancelTwice(x[f], ONE); XorCancelTwice(y[p], c[f]);
    MulCommutes(c[f], ONE); MulOne(c[f]);
    XorAssociates(Dot(c, x), c[f], c[f]); XorUnit(c[f]); XorUnit(Dot(c, x));
  }

  lemma MovedHolds(at: int, slots: seq<Slot>, rows: seq<Row>, x: Line, f: nat, j: nat)
    requires |slots| == WIDTH && Reduced(at, slots, rows) && f < WIDTH && !IsPivot(rows, f) && !Known(slots[f])
    requires Holds(slots, rows, x, j)
    ensures Holds(slots, rows, Moved(rows, x, f), j)
  {
    hide Index, Leads, Place, Xor, Dot, At;
    var y := Moved(rows, x, f);
    forall i | 0 <= i < |rows| ensures RowHolds(rows[i].coef, rows[i].data, y, j) {
      assert RowHolds(rows[i].coef, rows[i].data, x, j);
      MovedRow(at, slots, rows, x, f, i);
    }
    forall k | 0 <= k < WIDTH ensures SlotHolds(slots[k], y[k], j) {
      assert SlotHolds(slots[k], x[k], j);
      if Known(slots[k]) {
        forall i | 0 <= i < |rows| ensures Index(rows[i].pivot) != k { assert Shaped(at, slots, rows[i]); }
      }
    }
  }

  /** An unknown symbol in the window really is open: two assignments agree with everything told
      and differ there. */
  lemma UnknownIsOpen(at: int, slots: seq<Slot>, rows: seq<Row>, told: seq<Equation>, p: int, a: Assignment, j: nat)
    returns (b: Assignment)
    requires |slots| == WIDTH && Reduced(at, slots, rows) && Tight(rows) && Exact(at, slots, rows, told)
    requires at <= p < at + WIDTH && !Known(slots[p % WIDTH]) && Satisfies(a, told, j)
    ensures Satisfies(b, told, j) && a(p) != b(p)
  {
    hide Satisfies, Column, Index, Xor, Leads, Place, Holds;
    var k, x := p % WIDTH, Column(a, at);
    assert Extends(told, at, x, j);
    var f := k;
    if IsPivot(rows, k) {
      var i :| 0 <= i < |rows| && Index(rows[i].pivot) == k;
      f := SecondUnknown(at, slots, rows, i);
      MovedAtPivot(at, slots, rows, x, f, i);
      XorShifts(x[k], rows[i].coef[f]);
    } else {
      XorShifts(x[k], ONE);
    }
    MovedHolds(at, slots, rows, x, f, j);
    var y := Moved(rows, x, f);
    assert Extends(told, at, y, j);
    b :| Column(b, at) == y && Satisfies(b, told, j);
    ColumnAt(a, at, p); ColumnAt(b, at, p);
  }

  lemma XorShifts(a: byte, m: byte)
    requires m != ZERO
    ensures Xor(a, m) != a
  {
    hide Xor;
    if Xor(a, m) == a { XorCancelTwice(a, m); XorUnit(a); }
  }

  /** Completeness of the decoder: known exactly when determined. */
  lemma KnownIffDetermined(at: int, slots: seq<Slot>, rows: seq<Row>, told: seq<Equation>, truth: nat -> Assignment,
                           p: int)
    requires |slots| == WIDTH && Reduced(at, slots, rows) && Tight(rows) && Exact(at, slots, rows, told)
    requires forall j: nat :: Satisfies(truth(j), told, j)
    requires at <= p < at + WIDTH
    ensures Known(slots[p % WIDTH]) <==> Determined(told, p)
  {
    hide Satisfies, Exact, Reduced, Tight, At;
    if Known(slots[p % WIDTH]) {
      forall a: Assignment, b: Assignment, j: nat | Satisfies(a, told, j) && Satisfies(b, told, j)
        ensures a(p) == b(p)
      {
        KnownIsDetermined(at, slots, rows, told, p, a, j);
        KnownIsDetermined(at, slots, rows, told, p, b, j);
      }
    } else {
      assert Satisfies(truth(0), told, 0);
      var b := UnknownIsOpen(at, slots, rows, told, p, truth(0), 0);
    }
  }
}
