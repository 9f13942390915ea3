/** What the decoder has been told, as equations over unbounded positions, and the claim that
    its window holds exactly the consequences of that for the symbols still in it. */
module Knowledge {
  import opened Gf256
  import opened Vectors
  import opened Ids
  import opened LinearSystem
  import opened Echelon

  /** One accepted equation: a coefficient row over the window that started at a position. */
  datatype Equation = Equation(at: int, coef: Line, data: seq<byte>)

  /** One byte of every symbol, by position. */
  type Assignment = int -> byte

  /** The window's view of an assignment. */
  ghost function Column(a: Assignment, at: int): Line {
    seq(WIDTH, k requires 0 <= k < WIDTH => a(Place(at, k)))
  }

  ghost predicate Satisfies(a: Assignment, told: seq<Equation>, j: nat) {
    forall i :: 0 <= i < |told| ==> RowHolds(told[i].coef, told[i].data, Column(a, told[i].at), j)
  }

  /** x is the window's part of an assignment satisfying everything told. */
  ghost predicate Extends(told: seq<Equation>, at: int, x: Line, j: nat) {
    exists a: Assignment :: Column(a, at) == x && Satisfies(a, told, j)
  }

  /** The window's solutions are exactly the projections of the solutions of everything told. */
  ghost predicate Exact(at: int, slots: seq<Slot>, rows: seq<Row>, told: seq<Equation>)
    requires |slots| == WIDTH
  {
    forall x: Line, j: nat :: Holds(slots, rows, x, j) <==> Extends(told, at, x, j)
  }

  /** Everything told refers to symbols below the top of the window. */
  ghost predicate Within(at: int, told: seq<Equation>) {
    forall i :: 0 <= i < |told| ==> told[i].at <= at
  }

  lemma ColumnAt(a: Assignment, at: int, p: int)
    requires at <= p < at + WIDTH
    ensures Column(a, at)[p % WIDTH] == a(p)
  {
    SlotOfPlace(at, p);
  }

  /** An assignment changed from position top on agrees below it. */
  lemma ColumnsBelow(a: Assignment, b: Assignment, told: seq<Equation>, top: int, j: nat)
    requires forall p :: p < top ==> a(p) == b(p)
    requires forall i :: 0 <= i < |told| ==> told[i].at + WIDTH <= top
    requires Satisfies(a, told, j)
    ensures Satisfies(b, told, j)
  {
    hide RowHolds;
    forall i | 0 <= i < |told| ensures Column(b, told[i].at) == Column(a, told[i].at) {
      forall k | 0 <= k < WIDTH ensures Column(b, told[i].at)[k] == Column(a, told[i].at)[k] {
        PlaceOfSlot(told[i].at, k);
      }
    }
  }

  // ---------------------------------------------------------------- learning

  /** A step that keeps exactly the solutions of one more equation keeps exactness. */
  lemma LearningExact(at: int, slots: seq<Slot>, rows: seq<Row>, slots': seq<Slot>, rows': seq<Row>,
                      told: seq<Equation>, coef: Line, data: seq<byte>)
    requires |slots| == |slots'| == WIDTH && Exact(at, slots, rows, told)
    requires forall x: Line, j: nat ::
      Holds(slots', rows', x, j) <==> Holds(slots, rows, x, j) && RowHolds(coef, data, x, j)
    ensures Exact(at, slots', rows', told + [Equation(at, coef, data)])
  {
    hide Holds, RowHolds, Column;
    var e := Equation(at, coef, data);
    var all := told + [e];
    forall x: Line, j: nat
      ensures Holds(slots', rows', x, j) <==> Extends(all, at, x, j)
    {
      assert Holds(slots, rows, x, j) <==> Extends(told, at, x, j);
      forall a: Assignment | Column(a, at) == x
        ensures Satisfies(a, all, j) <==> Satisfies(a, told, j) && RowHolds(coef, data, x, j)
      {
        assert all[|told|] == e;
        assert forall i :: 0 <= i < |told| ==> all[i] == told[i];
      }
    }
  }

  // ---------------------------------------------------------------- sliding

  /** The rows that do not mention slot k, in order. */
  function Unmentioned(rows: seq<Row>, k: nat): seq<Row>
    requires k < WIDTH
  {
    if rows == [] then []
    else
      var rest, last := Unmentioned(rows[..|rows| - 1], k), rows[|rows| - 1];
      if last.coef[k] != ZERO then rest else rest + [last]
  }

  /** Where the kept rows came from. */
  ghost function Origins(rows: seq<Row>, k: nat): seq<nat>
    requires k < WIDTH
  {
    if rows == [] then []
    else
      var rest, last := Origins(rows[..|rows| - 1], k), rows[|rows| - 1];
      if last.coef[k] != ZERO then rest else rest + [|rows| - 1]
  }

  lemma {:induction false} UnmentionedOrigins(rows: seq<Row>, k: nat)
    requires k < WIDTH
    ensures var f, o := Unmentioned(rows, k), Origins(rows, k);
            && |f| == |o|
            && (forall i :: 0 <= i < |o| ==> o[i] < |rows| && f[i] == rows[o[i]] && f[i].coef[k] == ZERO)
            && (forall i, m :: 0 <= i < m < |o| ==> o[i] < o[m])
            && (forall i :: 0 <= i < |rows| && rows[i].coef[k] == ZERO ==> i in o)
  {
    if rows != [] {
      var n := |rows| - 1;
      var init := rows[..n];
      UnmentionedOrigins(init, k);
      var f, o := Unmentioned(init, k), Origins(init, k);
      assert forall i :: 0 <= i < n ==> init[i] == rows[i];
      if rows[n].coef[k] == ZERO {
        assert Unmentioned(rows, k) == f + [rows[n]] && Origins(rows, k) == o + [n];
        assert (o + [n])[|o|] == n;
      } else {
        assert Unmentioned(rows, k) == f && Origins(rows, k) == o;
      }
      hide Unmentioned, Origins;
    }
  }

  /** Dropping the rows that mention a slot keeps reduced form and tightness. */
  lemma UnmentionedReduced(at: int, slots: seq<Slot>, rows: seq<Row>, k: nat)
    requires |slots| == WIDTH && k < WIDTH && Reduced(at, slots, rows)
    ensures Reduced(at, slots, Unmentioned(rows, k))
    ensures Tight(rows) ==> Tight(Unmentioned(rows, k))
  {
    hide Shaped, Index, Unmentioned, Origins;
    UnmentionedOrigins(rows, k);
    var f, o := Unmentioned(rows, k), Origins(rows, k);
    forall i, m | 0 <= i < |f| && 0 <= m < |f| && i != m
      ensures f[m].coef[Index(f[i].pivot)] == ZERO
    {
      assert o[i] != o[m];
    }
  }

  /** In reduced form only one row can mention the oldest symbol, and it is that row's pivot. */
  lemma OldestIsPivot(at: int, slots: seq<Slot>, rows: seq<Row>, i: nat)
    requires |slots| == WIDTH && Reduced(at, slots, rows) && i < |rows| && rows[i].coef[at % WIDTH] != ZERO
    ensures Index(rows[i].pivot) == at % WIDTH && !Known(slots[at % WIDTH])
    ensures forall m :: 0 <= m < |rows| && m != i ==> rows[m].coef[at % WIDTH] == ZERO
  {
    assert Shaped(at, slots, rows[i]);
    SlotOfPlace(at, at);
    assert Age(at, Index(rows[i].pivot)) == 0;
    PlaceOfSlot(at, Index(rows[i].pivot));
    hide Index, Shaped;
    assert Index(rows[i].pivot) == at % WIDTH;
  }

  /** Hence eviction drops at most one row. */
  lemma {:induction false} EvictionDropsOne(at: int, slots: seq<Slot>, rows: seq<Row>)
    requires |slots| == WIDTH && Reduced(at, slots, rows)
    ensures |rows| - 1 <= |Unmentioned(rows, at % WIDTH)| <= |rows|
  {
    var k := at % WIDTH;
    if rows != [] {
      var n := |rows| - 1;
      var init := rows[..n];
      assert Reduced(at, slots, init) by { hide Shaped, Index; }
      if rows[n].coef[k] != ZERO {
        OldestIsPivot(at, slots, rows, n);
        hide Index, Shaped;
        NothingMentions(init, k);
      } else {
        hide Index, Shaped;
        EvictionDropsOne(at, slots, init);
      }
    }
  }

  lemma {:induction false} NothingMentions(rows: seq<Row>, k: nat)
    requires k < WIDTH && forall i :: 0 <= i < |rows| ==> rows[i].coef[k] == ZERO
    ensures Unmentioned(rows, k) == rows
  {
    if rows != [] { NothingMentions(rows[..|rows| - 1], k); }
  }

  /** A value for the leaving symbol that the system allows, given the rest of the window. */
  ghost function Filler(slots: seq<Slot>, rows: seq<Row>, k: nat, x: Line, j: nat): byte
    requires |slots| == WIDTH && k < WIDTH
  {
    if Known(slots[k]) then At(slots[k].vector, j)
    else if i :| 0 <= i < |rows| && rows[i].coef[k] != ZERO then
      Xor(Dot(rows[i].coef, x[k := ZERO]), At(rows[i].data, j))
    else ZERO
  }

  /** Eviction is projection: what remains is solvable with some value of the symbol that left. */
  lemma EvictionProjects(at: int, slots: seq<Slot>, rows: seq<Row>, x: Line, j: nat)
    requires |slots| == WIDTH && Reduced(at, slots, rows)
    requires Holds(slots[at % WIDTH := EmptySlot], Unmentioned(rows, at % WIDTH), x, j)
    ensures var k := at % WIDTH; Holds(slots, rows, x[k := Filler(slots, rows, k, x, j)], j)
  {
    hide Index, Xor, Mul, Dot, At, Unmentioned, Origins, Shaped;
    var k := at % WIDTH;
    var kept := Unmentioned(rows, k);
    var v := Filler(slots, rows, k, x, j);
    var y: Line := x[k := v];
    UnmentionedOrigins(rows, k);
    forall i | 0 <= i < |rows| ensures RowHolds(rows[i].coef, rows[i].data, y, j) {
      if rows[i].coef[k] == ZERO {
        assert exists m :: 0 <= m < |kept| && kept[m] == rows[i] by {
          var o := Origins(rows, k);
          assert i in o;
          var m :| 0 <= m < |o| && o[m] == i;
          assert kept[m] == rows[i];
        }
        DotAgree(rows[i].coef, x, y);
      } else {
        OldestIsPivot(at, slots, rows, i);
        UnitPivot(at, slots, rows, i);
        DotFill(rows[i].coef, x, k, v);
        XorCancelTwice(Dot(rows[i].coef, x[k := ZERO]), At(rows[i].data, j));
      }
    }
    forall i | 0 <= i < WIDTH ensures SlotHolds(slots[i], y[i], j) {
      assert SlotHolds(slots[k := EmptySlot][i], x[i], j);
    }
  }

  lemma UnitPivot(at: int, slots: seq<Slot>, rows: seq<Row>, i: nat)
    requires |slots| == WIDTH && Reduced(at, slots, rows) && i < |rows|
    ensures rows[i].coef[Index(rows[i].pivot)] == ONE
  {
    assert Shaped(at, slots, rows[i]);
  }

  lemma XorCancelTwice(a: byte, b: byte)
    ensures Xor(a, Xor(a, b)) == b
  {
    hide Xor;
    XorAssociates(a, a, b); XorUnit(a); XorUnit(b);
  }

  lemma DotFill(c: Line, x: Line, k: nat, v: byte)
    requires k < WIDTH && c[k] == ONE
    ensures Dot(c, x[k := v]) == Xor(Dot(c, x[k := ZERO]), v)
  {
    hide Xor, Mul, Dot;
    DotReplace(c, x[k := ZERO], k, v);
    assert x[k := ZERO][k := v] == x[k := v];
    XorUnit(v); MulOne(v);
  }

  /** What the full window allows, the shrunk one allows, whatever replaces the symbol that left. */
  lemma EvictionWeakens(slots: seq<Slot>, rows: seq<Row>, k: nat, x: Line, y: Line, j: nat)
    requires |slots| == WIDTH && k < WIDTH && Holds(slots, rows, y, j)
    requires forall i :: 0 <= i < WIDTH && i != k ==> x[i] == y[i]
    ensures Holds(slots[k := EmptySlot], Unmentioned(rows, k), x, j)
  {
    hide Dot, At, Unmentioned, Origins;
    UnmentionedOrigins(rows, k);
    var kept := Unmentioned(rows, k);
    forall i | 0 <= i < |kept| ensures RowHolds(kept[i].coef, kept[i].data, x, j) {
      DotAgree(kept[i].coef, x, y);
      var o := Origins(rows, k)[i];
      assert RowHolds(rows[o].coef, rows[o].data, y, j);
    }
    forall i | 0 <= i < WIDTH ensures SlotHolds(slots[k := EmptySlot][i], x[i], j) {
      assert SlotHolds(slots[i], y[i], j);
    }
  }

  /** Sliding the window by one symbol keeps exactness: nothing about the others is forgotten. */
  lemma SlidingExact(at: int, slots: seq<Slot>, rows: seq<Row>, told: seq<Equation>)
    requires |slots| == WIDTH && Reduced(at, slots, rows) && Exact(at, slots, rows, told) && Within(at, told)
    ensures var k := at % WIDTH;
            Exact(at + 1, slots[k := EmptySlot], Unmentioned(rows, k), told) && Within(at + 1, told)
  {
    hide Holds, Unmentioned, Column, Satisfies, Reduced, Filler;
    var k := at % WIDTH;
    var slots', rows' := slots[k := EmptySlot], Unmentioned(rows, k);
    forall x: Line, j: nat
      ensures Holds(slots', rows', x, j) <==> Extends(told, at + 1, x, j)
    {
      if Holds(slots', rows', x, j) {
        EvictionProjects(at, slots, rows, x, j);
        var y: Line := x[k := Filler(slots, rows, k, x, j)];
        assert Extends(told, at, y, j);
        var a: Assignment :| Column(a, at) == y && Satisfies(a, told, j);
        var b: Assignment := p => if p == at + WIDTH then x[k] else a(p);
        ColumnsBelow(a, b, told, at + WIDTH, j);
        SlideColumn(a, b, at, x);
      }
      if Extends(told, at + 1, x, j) {
        var a: Assignment :| Column(a, at + 1) == x && Satisfies(a, told, j);
        var y := Column(a, at);
        assert Extends(told, at, y, j);
        SlideColumn(a, a, at, x);
        EvictionWeakens(slots, rows, k, x, y, j);
      }
    }
  }

  /** Columns of neighbouring windows differ only in the slot that is reused. */
  lemma SlideColumn(a: Assignment, b: Assignment, at: int, x: Line)
    requires forall p :: at <= p < at + WIDTH ==> a(p) == b(p)
    ensures forall i :: 0 <= i < WIDTH && i != at % WIDTH ==> Column(b, at + 1)[i] == Column(a, at)[i]
    ensures Column(b, at + 1)[at % WIDTH] == b(at + WIDTH)
    ensures (forall i :: 0 <= i < WIDTH && i != at % WIDTH ==> Column(a, at)[i] == x[i])
            && b(at + WIDTH) == x[at % WIDTH]
            ==> Column(b, at + 1) == x
  {
    var k := at % WIDTH;
    PlaceSlides(at, k);
    assert Column(b, at + 1)[k] == b(Place(at + 1, k));
    forall i | 0 <= i < WIDTH
      ensures i != k ==> Column(b, at + 1)[i] == Column(a, at)[i]
    {
      PlaceSlides(at, i);
      PlaceOfSlot(at, i);
    }
  }

  /** An empty window says nothing, and neither does anything told about symbols below it. */
  lemma EmptyExact(at: int, slots: seq<Slot>, told: seq<Equation>, truth: nat -> Assignment)
    requires |slots| == WIDTH && forall k :: 0 <= k < WIDTH ==> !slots[k].live
    requires forall i :: 0 <= i < |told| ==> told[i].at + WIDTH <= at
    requires forall j: nat :: Satisfies(truth(j), told, j)
    ensures Exact(at, slots, [], told) && Within(at, told)
  {
    hide Satisfies;
    forall x: Line, j: nat ensures Extends(told, at, x, j) && Holds(slots, [], x, j) {
      var a := truth(j);
      var b: Assignment := p => if p >= at then x[p % WIDTH] else a(p);
      ColumnsBelow(a, b, told, at, j);
      forall k | 0 <= k < WIDTH ensures Column(b, at)[k] == x[k] { PlaceOfSlot(at, k); }
      assert Column(b, at) == x;
    }
  }
}
