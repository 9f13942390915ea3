/** Reduced row echelon form of the decoder's rows, and what keeps it. */
module Echelon {
  import opened Gf256
  import opened Vectors
  import opened Ids
  import opened LinearSystem

  /** Slot k is the oldest symbol the row depends on. */
  ghost predicate Leads(at: int, coef: Line, k: nat) {
    k < WIDTH && coef[k] != ZERO && forall i :: 0 <= i < WIDTH && coef[i] != ZERO ==> Age(at, k) <= Age(at, i)
  }

  /** A row as insertion leaves it: unit pivot at its oldest symbol, no known symbol mentioned. */
  ghost predicate Shaped(at: int, slots: seq<Slot>, r: Row)
    requires |slots| == WIDTH
  {
    var k := Index(r.pivot);
    && r.pivot == Wrap(Place(at, k))
    && r.coef[k] == ONE
    && Leads(at, r.coef, k)
    && forall i :: 0 <= i < WIDTH && Known(slots[i]) ==> r.coef[i] == ZERO
  }

  /** No row mentions another row's pivot. */
  ghost predicate Apart(rows: seq<Row>) {
    forall i, m :: 0 <= i < |rows| && 0 <= m < |rows| && i != m ==> rows[m].coef[Index(rows[i].pivot)] == ZERO
  }

  ghost predicate Reduced(at: int, slots: seq<Slot>, rows: seq<Row>)
    requires |slots| == WIDTH
  {
    Apart(rows) && forall i :: 0 <= i < |rows| ==> Shaped(at, slots, rows[i])
  }

  /** Every row still depends on a second unknown. */
  ghost predicate Tight(rows: seq<Row>) {
    forall i :: 0 <= i < |rows| ==> !OnlyAt(rows[i].coef, Index(rows[i].pivot))
  }

  // ---------------------------------------------------------------- insertion

  lemma ClearedAt(r: Row, row: Row, k: nat)
    requires k < WIDTH
    ensures var c := r.coef[Index(row.pivot)];
            ClearRow(r, row).coef[k] == Xor(r.coef[k], Mul(c, row.coef[k]))
  {
    hide Xor, Mul;
    MulZero(row.coef[k]); XorUnit(r.coef[k]);
  }

  lemma ClearedShape(at: int, slots: seq<Slot>, r: Row, row: Row)
    requires |slots| == WIDTH && Shaped(at, slots, r) && Shaped(at, slots, row)
    requires row.coef[Index(r.pivot)] == ZERO
    ensures Shaped(at, slots, ClearRow(r, row))
    ensures ClearRow(r, row).coef[Index(row.pivot)] == ZERO
  {
    hide Xor, Mul, ClearRow, Index, Age, Place;
    var s, c := ClearRow(r, row), r.coef[Index(row.pivot)];
    ClearKeepsPivot(r, row);
    forall k | 0 <= k < WIDTH
      ensures s.coef[k] == Xor(r.coef[k], Mul(c, row.coef[k]))
      ensures r.coef[k] == ZERO && (c == ZERO || row.coef[k] == ZERO) ==> s.coef[k] == ZERO
      ensures row.coef[k] == ZERO ==> s.coef[k] == r.coef[k]
    {
      ClearedAt(r, row, k);
      MulZero(c); MulZero(row.coef[k]); XorUnit(r.coef[k]);
    }
    MulCommutes(ONE, c); MulOne(c); XorUnit(c);
    forall i | 0 <= i < WIDTH && s.coef[i] != ZERO
      ensures Age(at, Index(r.pivot)) <= Age(at, i)
    {
      if r.coef[i] == ZERO {
        assert Age(at, Index(r.pivot)) <= Age(at, Index(row.pivot)) <= Age(at, i);
      }
    }
  }

  lemma ClearKeepsPivot(r: Row, row: Row)
    ensures ClearRow(r, row).pivot == r.pivot
  {}

  /** Inserting a reduced row and clearing its pivot keeps reduced echelon form. */
  lemma InsertionReduced(at: int, slots: seq<Slot>, rows: seq<Row>, row: Row)
    requires |slots| == WIDTH && Reduced(at, slots, rows) && Shaped(at, slots, row)
    requires forall i :: 0 <= i < |rows| ==> row.coef[Index(rows[i].pivot)] == ZERO
    ensures Reduced(at, slots, ClearRows(rows, row) + [row])
  {
    hide Xor, Mul, ClearRow, Shaped, Index;
    var all := ClearRows(rows, row) + [row];
    forall i | 0 <= i < |rows|
      ensures Shaped(at, slots, all[i]) && all[i].pivot == rows[i].pivot && all[i].coef[Index(row.pivot)] == ZERO
    {
      ClearedShape(at, slots, rows[i], row);
      ClearKeepsPivot(rows[i], row);
    }
    forall i, m | 0 <= i < |all| && 0 <= m < |all| && i != m
      ensures all[m].coef[Index(all[i].pivot)] == ZERO
    {
      if i < |rows| && m < |rows| {
        var k := Index(rows[i].pivot);
        ClearedAt(rows[m], row, k);
        MulZero(rows[m].coef[Index(row.pivot)]); XorUnit(ZERO);
      }
    }
  }

  // ---------------------------------------------------------------- substitution

  /** Slot k is the pivot of a held row. */
  ghost predicate IsPivot(rows: seq<Row>, k: nat) {
    exists i :: 0 <= i < |rows| && Index(rows[i].pivot) == k
  }

  /** Recording a symbol that is no row's pivot keeps reduced echelon form. */
  lemma SubstitutionReduced(at: int, slots: seq<Slot>, rows: seq<Row>, k: nat, s: Slot)
    requires |slots| == WIDTH && k < WIDTH && Reduced(at, slots, rows) && !IsPivot(rows, k)
    ensures Reduced(at, slots[k := s], SubstituteRows(rows, k, s.vector))
  {
    hide Index, Combine, Place, Age;
    var rows' := SubstituteRows(rows, k, s.vector);
    forall i | 0 <= i < |rows|
      ensures rows'[i].coef == rows[i].coef[k := ZERO] && rows'[i].pivot == rows[i].pivot
    {
      assert rows[i].coef[k] == ZERO ==> rows[i].coef[k := ZERO] == rows[i].coef;
    }
    forall i | 0 <= i < |rows| ensures Shaped(at, slots[k := s], rows'[i]) {
      assert Shaped(at, slots, rows[i]);
      assert Index(rows[i].pivot) != k;
    }
  }

  /** A row with one unknown left says what that unknown is. */
  lemma SingleRowHolds(coef: Line, data: seq<byte>, k: nat, x: Line, j: nat)
    requires OnlyAt(coef, k) && coef[k] == ONE
    ensures RowHolds(coef, data, x, j) <==> x[k] == At(data, j)
  {
    hide Dot, Mul;
    DotOnlyAt(coef, x, k);
    MulOne(x[k]);
  }

  function Without(rows: seq<Row>, i: nat): seq<Row>
    requires i < |rows|
  {
    rows[..i] + rows[i + 1..]
  }

  /** Taking out a row with one unknown: the rest stays reduced and free of that unknown. */
  lemma HarvestReduced(at: int, slots: seq<Slot>, rows: seq<Row>, i: nat)
    requires |slots| == WIDTH && i < |rows| && Reduced(at, slots, rows)
    ensures Reduced(at, slots, Without(rows, i))
    ensures !IsPivot(Without(rows, i), Index(rows[i].pivot))
    ensures forall v :: SubstituteRows(Without(rows, i), Index(rows[i].pivot), v) == Without(rows, i)
  {
    hide Index, Combine, Place, Age, Leads;
    var rest, k := Without(rows, i), Index(rows[i].pivot);
    forall m | 0 <= m < |rest|
      ensures rest[m].coef[k] == ZERO && Shaped(at, slots, rest[m]) && Index(rest[m].pivot) != k
    {
      var o := if m < i then m else m + 1;
      assert rest[m] == rows[o];
      assert Shaped(at, slots, rows[o]);
    }
    forall a, m | 0 <= a < |rest| && 0 <= m < |rest| && a != m
      ensures rest[m].coef[Index(rest[a].pivot)] == ZERO
    {
      var oa, om := if a < i then a else a + 1, if m < i then m else m + 1;
      assert rest[a] == rows[oa] && rest[m] == rows[om];
    }
    forall v ensures SubstituteRows(rest, k, v) == rest {
      assert forall m :: 0 <= m < |rest| ==> SubstituteRows(rest, k, v)[m] == rest[m];
    }
  }

  /** Harvesting a row with one unknown changes no solution. */
  lemma HarvestHolds(at: int, slots: seq<Slot>, rows: seq<Row>, i: nat, s: Slot, x: Line, j: nat)
    requires |slots| == WIDTH && i < |rows| && Reduced(at, slots, rows)
    requires var k := Index(rows[i].pivot);
             OnlyAt(rows[i].coef, k) && Known(s) && s.vector == rows[i].data
    ensures var k := Index(rows[i].pivot);
            !Known(slots[k]) &&
            (Holds(slots[k := s], SubstituteRows(Without(rows, i), k, s.vector), x, j) <==> Holds(slots, rows, x, j))
  {
    hide Index, SubstituteRow, RowHolds, Place, Leads, KnownHold, At;
    var k, rest := Index(rows[i].pivot), Without(rows, i);
    assert Shaped(at, slots, rows[i]);
    SubstitutionHolds(slots, rest, k, s, x, j);
    SingleRowHolds(rows[i].coef, rows[i].data, k, x, j);
    assert RowsHold(rows, x, j) <==> RowsHold(rest, x, j) && RowHolds(rows[i].coef, rows[i].data, x, j) by {
      forall m | 0 <= m < |rows| && m != i
        ensures exists o :: 0 <= o < |rest| && rest[o] == rows[m]
      {
        var o := if m < i then m else m - 1;
        assert rest[o] == rows[m];
      }
      forall o | 0 <= o < |rest| ensures exists m :: 0 <= m < |rows| && rest[o] == rows[m] {
        var m := if o < i then o else o + 1;
        assert rest[o] == rows[m];
      }
    }
  }
}
