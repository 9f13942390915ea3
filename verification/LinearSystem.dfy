/** The decoder's linear system as a value: what it means for an assignment of symbol bytes to
    satisfy it, and how each elementary step changes the set of satisfying assignments. */
module LinearSystem {
  import opened Gf256
  import opened Vectors
  import opened Ids

  /** The receiver's window, twice the widest repair. */
  const WIDTH := 512

  /** One byte per window slot: a coefficient row, or one byte position of every symbol. */
  type Line = c: seq<byte> | |c| == WIDTH witness seq(WIDTH, _ => ZERO)

  datatype Slot = Slot(esi: uint32, vector: seq<byte>, live: bool, known: bool)

  /** One equation: coefficients over the window, and the constant term they sum to. */
  datatype Row = Row(pivot: uint32, coef: Line, data: seq<byte>)

  const EmptySlot := Slot(0, [], false, false)

  /** The slot an identifier falls into. */
  function Index(esi: uint32): (k: nat)
    ensures k < WIDTH
  {
    esi % WIDTH
  }

  predicate Known(s: Slot) { s.live && s.known }

  // ---------------------------------------------------------------- positions and ages

  /** How far slot k lies above the bottom of a window starting at position at. */
  function Age(at: int, k: nat): (a: nat)
    ensures a < WIDTH
  {
    (k - at) % WIDTH
  }

  /** The position slot k stands for. */
  function Place(at: int, k: nat): int { at + Age(at, k) }

  lemma PlaceOfSlot(at: int, k: nat)
    requires k < WIDTH
    ensures Place(at, k) % WIDTH == k && at <= Place(at, k) < at + WIDTH
  {}

  lemma SlotOfPlace(at: int, p: int)
    requires at <= p < at + WIDTH
    ensures Index(Wrap(p)) == p % WIDTH && Place(at, p % WIDTH) == p && Age(at, p % WIDTH) == p - at
  {
    SlotOfWrap(p, WIDTH);
    DivisionUnique(p % WIDTH - at, WIDTH, -(p / WIDTH), p - at);
  }

  /** Sliding the window by one moves the oldest slot to the newest place and no other. */
  lemma PlaceSlides(at: int, k: nat)
    requires k < WIDTH
    ensures k != at % WIDTH ==> Place(at + 1, k) == Place(at, k) && Age(at, k) > 0 && Age(at + 1, k) == Age(at, k) - 1
    ensures k == at % WIDTH ==> Place(at + 1, k) == at + WIDTH && Age(at, k) == 0
  {}

  // ---------------------------------------------------------------- satisfaction

  /** What the equation's two sides differ by. */
  ghost function Residual(coef: Line, data: seq<byte>, x: Line, j: nat): byte {
    Xor(Dot(coef, x), At(data, j))
  }

  /** The equation holds of x at byte position j. */
  ghost predicate RowHolds(coef: Line, data: seq<byte>, x: Line, j: nat) {
    Dot(coef, x) == At(data, j)
  }

  ghost predicate SlotHolds(s: Slot, b: byte, j: nat) {
    Known(s) ==> b == At(s.vector, j)
  }

  ghost predicate KnownHold(slots: seq<Slot>, x: Line, j: nat)
    requires |slots| == WIDTH
  {
    forall k :: 0 <= k < WIDTH ==> SlotHolds(slots[k], x[k], j)
  }

  ghost predicate RowsHold(rows: seq<Row>, x: Line, j: nat) {
    forall i :: 0 <= i < |rows| ==> RowHolds(rows[i].coef, rows[i].data, x, j)
  }

  /** x is a possible value of byte j of the window's symbols, by everything the decoder holds. */
  ghost predicate Holds(slots: seq<Slot>, rows: seq<Row>, x: Line, j: nat)
    requires |slots| == WIDTH
  {
    KnownHold(slots, x, j) && RowsHold(rows, x, j)
  }

  lemma ResidualZero(coef: Line, data: seq<byte>, x: Line, j: nat)
    ensures RowHolds(coef, data, x, j) <==> Residual(coef, data, x, j) == ZERO
  {
    hide Xor, Dot, At;
    XorZero(Dot(coef, x), At(data, j));
  }

  // ---------------------------------------------------------------- elementary steps

  /** Adding a multiple of one equation to another adds that multiple of its residual. */
  lemma ResidualCombine(f: byte, c: Line, d: seq<byte>, coef: Line, data: seq<byte>, x: Line, j: nat)
    ensures Residual(AddScaled(f, c, coef), Combine(f, d, data), x, j)
         == Xor(Residual(coef, data, x, j), Mul(f, Residual(c, d, x, j)))
  {
    hide Xor, Mul, Dot, At, AddScaled, Combine;
    DotAddScaled(f, c, coef, x);
    AtCombine(f, d, data, j);
    MulDistributes(f, Dot(c, x), At(d, j));
    XorRegroup(Dot(coef, x), Mul(f, Dot(c, x)), At(data, j), Mul(f, At(d, j)));
  }

  lemma ResidualScale(f: byte, coef: Line, data: seq<byte>, x: Line, j: nat)
    ensures Residual(Scale(f, coef), Scale(f, data), x, j) == Mul(f, Residual(coef, data, x, j))
  {
    hide Xor, Mul, Dot, At, Scale;
    DotScale(f, coef, x);
    AtScale(f, data, j);
    MulDistributes(f, Dot(coef, x), At(data, j));
  }

  /** Moving a symbol's term to the constant side keeps the residual where the symbol has that value. */
  lemma ResidualSubstitute(coef: Line, data: seq<byte>, k: nat, v: seq<byte>, x: Line, j: nat)
    requires k < WIDTH && x[k] == At(v, j)
    ensures Residual(coef[k := ZERO], Combine(coef[k], v, data), x, j) == Residual(coef, data, x, j)
  {
    hide Xor, Mul, Dot, At, Combine;
    DotSet(coef, x, k, ZERO);
    XorUnit(coef[k]);
    AtCombine(coef[k], v, data, j);
    XorCancel(Dot(coef, x), At(data, j), Mul(coef[k], x[k]));
  }

  /** One equation with a known symbol removed from it. */
  function SubstituteRow(r: Row, k: nat, v: seq<byte>): Row
    requires k < WIDTH
  {
    if r.coef[k] == ZERO then r
    else r.(coef := r.coef[k := ZERO], data := Combine(r.coef[k], v, r.data))
  }

  function SubstituteRows(rows: seq<Row>, k: nat, v: seq<byte>): (r: seq<Row>)
    requires k < WIDTH
    ensures |r| == |rows|
  {
    seq(|rows|, i requires 0 <= i < |rows| => SubstituteRow(rows[i], k, v))
  }

  lemma SubstituteHolds(r: Row, k: nat, v: seq<byte>, x: Line, j: nat)
    requires k < WIDTH && x[k] == At(v, j)
    ensures var s := SubstituteRow(r, k, v);
            RowHolds(s.coef, s.data, x, j) <==> RowHolds(r.coef, r.data, x, j)
  {
    hide RowHolds, Residual, Combine, At;
    if r.coef[k] != ZERO {
      var s := SubstituteRow(r, k, v);
      ResidualSubstitute(r.coef, r.data, k, v, x, j);
      ResidualZero(s.coef, s.data, x, j);
      ResidualZero(r.coef, r.data, x, j);
    }
  }

  /** Recording a symbol as known: the assignments that remain are those that give it that value. */
  lemma SubstitutionHolds(slots: seq<Slot>, rows: seq<Row>, k: nat, s: Slot, x: Line, j: nat)
    requires |slots| == WIDTH && k < WIDTH && Known(s) && !Known(slots[k])
    ensures Holds(slots[k := s], SubstituteRows(rows, k, s.vector), x, j)
       <==> Holds(slots, rows, x, j) && x[k] == At(s.vector, j)
  {
    hide At, RowHolds, SubstituteRow;
    var rows' := SubstituteRows(rows, k, s.vector);
    if x[k] == At(s.vector, j) {
      forall i | 0 <= i < |rows|
        ensures RowHolds(rows'[i].coef, rows'[i].data, x, j) <==> RowHolds(rows[i].coef, rows[i].data, x, j)
      {
        SubstituteHolds(rows[i], k, s.vector, x, j);
      }
      assert KnownHold(slots[k := s], x, j) <==> KnownHold(slots, x, j) by {
        forall i | 0 <= i < WIDTH ensures SlotHolds(slots[k := s][i], x[i], j) <==> SlotHolds(slots[i], x[i], j) {}
      }
      assert RowsHold(rows', x, j) <==> RowsHold(rows, x, j);
    } else {
      assert !SlotHolds(slots[k := s][k], x[k], j);
    }
  }

  /** One held equation with the new row's pivot cleared from it. */
  function ClearRow(r: Row, row: Row): Row {
    var c := r.coef[Index(row.pivot)];
    if c == ZERO then r
    else r.(coef := AddScaled(c, row.coef, r.coef), data := Combine(c, row.data, r.data))
  }

  function ClearRows(rows: seq<Row>, row: Row): (r: seq<Row>)
    ensures |r| == |rows|
  {
    seq(|rows|, i requires 0 <= i < |rows| => ClearRow(rows[i], row))
  }

  lemma ClearHolds(r: Row, row: Row, x: Line, j: nat)
    requires RowHolds(row.coef, row.data, x, j)
    ensures var s := ClearRow(r, row);
            RowHolds(s.coef, s.data, x, j) <==> RowHolds(r.coef, r.data, x, j)
  {
    hide RowHolds, Residual, Combine, AddScaled, Xor, Mul, Index;
    var c := r.coef[Index(row.pivot)];
    if c != ZERO {
      var s := ClearRow(r, row);
      ResidualZero(row.coef, row.data, x, j);
      ResidualCombine(c, row.coef, row.data, r.coef, r.data, x, j);
      MulZero(c); XorUnit(Residual(r.coef, r.data, x, j));
      ResidualZero(s.coef, s.data, x, j);
      ResidualZero(r.coef, r.data, x, j);
    }
  }

  /** Adding an equation and clearing its pivot from the others intersects with its solutions. */
  lemma InsertionHolds(slots: seq<Slot>, rows: seq<Row>, row: Row, x: Line, j: nat)
    requires |slots| == WIDTH
    ensures Holds(slots, ClearRows(rows, row) + [row], x, j)
       <==> Holds(slots, rows, x, j) && RowHolds(row.coef, row.data, x, j)
  {
    hide RowHolds, ClearRow, KnownHold;
    var cleared := ClearRows(rows, row);
    var all := cleared + [row];
    assert all[|rows|] == row;
    if RowHolds(row.coef, row.data, x, j) {
      forall i | 0 <= i < |rows|
        ensures RowHolds(all[i].coef, all[i].data, x, j) <==> RowHolds(rows[i].coef, rows[i].data, x, j)
      {
        ClearHolds(rows[i], row, x, j);
      }
      assert RowsHold(all, x, j) <==> RowsHold(rows, x, j);
    }
  }
}
