/** Byte vectors over GF(256), zero-extended without bound, and the products of a coefficient
    row with a column of symbol bytes (gf.go, window.go). */
module Vectors {
  import opened Gf256

  /** The byte of a vector at position j; a shorter vector reads as zero beyond its end. */
  function At(v: seq<byte>, j: nat): byte {
    if j < |v| then v[j] else ZERO
  }

  /** Two vectors are the same symbol when they agree at every position. */
  ghost predicate SameSymbol(v: seq<byte>, w: seq<byte>) {
    forall j: nat :: At(v, j) == At(w, j)
  }

  /** out plus c times input, over as much as they share. */
  function AddScaled(c: byte, input: seq<byte>, out: seq<byte>): (r: seq<byte>)
    ensures |r| == |out|
  {
    seq(|out|, j requires 0 <= j < |out| => Xor(out[j], Mul(c, At(input, j))))
  }

  /** Zero-extends a constant term to a length. */
  function Ensure(data: seq<byte>, length: nat): (r: seq<byte>)
    ensures |r| >= |data| && |r| >= length
  {
    if |data| >= length then data else data + seq(length - |data|, _ => ZERO)
  }

  function Scale(f: byte, v: seq<byte>): (r: seq<byte>)
    ensures |r| == |v|
  {
    seq(|v|, j requires 0 <= j < |v| => Mul(f, v[j]))
  }

  /** The combination of zero-extended vectors, which is what lengthening before adding computes. */
  function Combine(c: byte, input: seq<byte>, out: seq<byte>): (r: seq<byte>)
    ensures |r| >= |out| && |r| >= |input|
  {
    AddScaled(c, input, Ensure(out, |input|))
  }

  lemma MulZero(c: byte)
    ensures Mul(c, ZERO) == ZERO && Mul(ZERO, c) == ZERO
  {}

  lemma AtCombine(c: byte, input: seq<byte>, out: seq<byte>, j: nat)
    ensures At(Combine(c, input, out), j) == Xor(At(out, j), Mul(c, At(input, j)))
  {
    hide Xor, Mul;
    MulZero(c); XorUnit(ZERO);
  }

  lemma AtScale(f: byte, v: seq<byte>, j: nat)
    ensures At(Scale(f, v), j) == Mul(f, At(v, j))
  {
    hide Mul;
    MulZero(f);
  }

  // ---------------------------------------------------------------- row times column

  function DotTo(c: seq<byte>, x: seq<byte>, n: nat): byte
    requires n <= |c| && n <= |x|
  {
    if n == 0 then ZERO else Xor(DotTo(c, x, n - 1), Mul(c[n - 1], x[n - 1]))
  }

  /** A coefficient row applied to one byte of every symbol. */
  function Dot(c: seq<byte>, x: seq<byte>): byte
    requires |c| == |x|
  {
    DotTo(c, x, |c|)
  }

  lemma {:induction false} DotToAddScaled(f: byte, d: seq<byte>, c: seq<byte>, x: seq<byte>, n: nat)
    requires |c| == |d| && n <= |c| && n <= |x|
    ensures DotTo(AddScaled(f, d, c), x, n) == Xor(DotTo(c, x, n), Mul(f, DotTo(d, x, n)))
  {
    hide Xor, Mul;
    if n == 0 {
      MulZero(f); XorUnit(ZERO);
    } else {
      DotToAddScaled(f, d, c, x, n - 1);
      MulDistributes(x[n - 1], c[n - 1], Mul(f, d[n - 1]));
      MulAssociates(f, d[n - 1], x[n - 1]);
      MulDistributes(f, DotTo(d, x, n - 1), Mul(d[n - 1], x[n - 1]));
      XorRegroup(DotTo(c, x, n - 1), Mul(f, DotTo(d, x, n - 1)),
                 Mul(c[n - 1], x[n - 1]), Mul(f, Mul(d[n - 1], x[n - 1])));
    }
  }

  lemma DotAddScaled(f: byte, d: seq<byte>, c: seq<byte>, x: seq<byte>)
    requires |c| == |d| == |x|
    ensures Dot(AddScaled(f, d, c), x) == Xor(Dot(c, x), Mul(f, Dot(d, x)))
  {
    hide Xor, Mul;
    DotToAddScaled(f, d, c, x, |c|);
  }

  lemma {:induction false} DotToScale(f: byte, c: seq<byte>, x: seq<byte>, n: nat)
    requires n <= |c| && n <= |x|
    ensures DotTo(Scale(f, c), x, n) == Mul(f, DotTo(c, x, n))
  {
    hide Xor, Mul;
    if n == 0 {
      MulZero(f);
    } else {
      DotToScale(f, c, x, n - 1);
      MulAssociates(f, c[n - 1], x[n - 1]);
      MulDistributes(f, DotTo(c, x, n - 1), Mul(c[n - 1], x[n - 1]));
    }
  }

  lemma DotScale(f: byte, c: seq<byte>, x: seq<byte>)
    requires |c| == |x|
    ensures Dot(Scale(f, c), x) == Mul(f, Dot(c, x))
  {
    hide Xor, Mul;
    DotToScale(f, c, x, |c|);
  }

  lemma {:induction false} DotToAgree(c: seq<byte>, x: seq<byte>, y: seq<byte>, n: nat)
    requires n <= |c| && n <= |x| && n <= |y|
    requires forall k :: 0 <= k < n && c[k] != ZERO ==> x[k] == y[k]
    ensures DotTo(c, x, n) == DotTo(c, y, n)
  {
    hide Xor, Mul;
    if n > 0 {
      DotToAgree(c, x, y, n - 1);
      MulZero(x[n - 1]); MulZero(y[n - 1]);
    }
  }

  /** Only the symbols a row mentions matter to it. */
  lemma DotAgree(c: seq<byte>, x: seq<byte>, y: seq<byte>)
    requires |c| == |x| == |y|
    requires forall k :: 0 <= k < |c| && c[k] != ZERO ==> x[k] == y[k]
    ensures Dot(c, x) == Dot(c, y)
  {
    hide Xor, Mul;
    DotToAgree(c, x, y, |c|);
  }

  lemma {:induction false} DotToSet(c: seq<byte>, x: seq<byte>, k: nat, v: byte, n: nat)
    requires k < |c| && n <= |c| && n <= |x|
    ensures k < |x| && k < n ==> DotTo(c[k := v], x, n) == Xor(DotTo(c, x, n), Mul(Xor(c[k], v), x[k]))
    ensures n <= k ==> DotTo(c[k := v], x, n) == DotTo(c, x, n)
  {
    hide Xor, Mul;
    if n > 0 {
      DotToSet(c, x, k, v, n - 1);
      var rest := DotTo(c, x, n - 1);
      if k == n - 1 {
        MulDistributes(x[k], c[k], v);
        XorAssociates(rest, Mul(c[k], x[k]), Mul(Xor(c[k], v), x[k]));
        XorAssociates(Mul(c[k], x[k]), Mul(c[k], x[k]), Mul(v, x[k]));
        XorUnit(Mul(c[k], x[k])); XorUnit(Mul(v, x[k]));
      } else if k < n - 1 {
        XorCancel(rest, Mul(c[n - 1], x[n - 1]), Mul(Xor(c[k], v), x[k]));
      }
    }
  }

  /** Changing one coefficient changes the product by the difference times the symbol. */
  lemma DotSet(c: seq<byte>, x: seq<byte>, k: nat, v: byte)
    requires |c| == |x| && k < |c|
    ensures Dot(c[k := v], x) == Xor(Dot(c, x), Mul(Xor(c[k], v), x[k]))
  {
    hide Xor, Mul;
    DotToSet(c, x, k, v, |c|);
  }

  lemma {:induction false} DotToReplace(c: seq<byte>, x: seq<byte>, k: nat, v: byte, n: nat)
    requires k < |x| && n <= |c| && n <= |x|
    ensures k < |c| && k < n ==> DotTo(c, x[k := v], n) == Xor(DotTo(c, x, n), Mul(c[k], Xor(x[k], v)))
    ensures n <= k ==> DotTo(c, x[k := v], n) == DotTo(c, x, n)
  {
    hide Xor, Mul;
    if n > 0 {
      DotToReplace(c, x, k, v, n - 1);
      var rest := DotTo(c, x, n - 1);
      if k == n - 1 {
        MulDistributes(c[k], x[k], v);
        XorAssociates(rest, Mul(c[k], x[k]), Mul(c[k], Xor(x[k], v)));
        XorAssociates(Mul(c[k], x[k]), Mul(c[k], x[k]), Mul(c[k], v));
        XorUnit(Mul(c[k], x[k])); XorUnit(Mul(c[k], v));
      } else if k < n - 1 {
        XorCancel(rest, Mul(c[n - 1], x[n - 1]), Mul(c[k], Xor(x[k], v)));
      }
    }
  }

  /** Changing one symbol changes the product by its coefficient times the difference. */
  lemma DotReplace(c: seq<byte>, x: seq<byte>, k: nat, v: byte)
    requires |c| == |x| && k < |c|
    ensures Dot(c, x[k := v]) == Xor(Dot(c, x), Mul(c[k], Xor(x[k], v)))
  {
    hide Xor, Mul;
    DotToReplace(c, x, k, v, |c|);
  }

  lemma {:induction false} DotToZero(c: seq<byte>, x: seq<byte>, n: nat)
    requires n <= |c| && n <= |x|
    requires forall k :: 0 <= k < n ==> c[k] == ZERO
    ensures DotTo(c, x, n) == ZERO
  {
    hide Xor, Mul;
    if n > 0 {
      DotToZero(c, x, n - 1);
      MulZero(x[n - 1]); XorUnit(ZERO);
    }
  }

  predicate AllZero(c: seq<byte>) {
    forall k :: 0 <= k < |c| ==> c[k] == ZERO
  }

  /** The row mentions symbol k and no other. */
  predicate OnlyAt(c: seq<byte>, k: nat) {
    k < |c| && c[k] != ZERO && forall i :: 0 <= i < |c| && i != k ==> c[i] == ZERO
  }

  lemma DotZero(c: seq<byte>, x: seq<byte>)
    requires |c| == |x| && AllZero(c)
    ensures Dot(c, x) == ZERO
  {
    hide Xor, Mul;
    DotToZero(c, x, |c|);
  }

  lemma DotOnlyAt(c: seq<byte>, x: seq<byte>, k: nat)
    requires |c| == |x| && OnlyAt(c, k)
    ensures Dot(c, x) == Mul(c[k], x[k])
  {
    hide Xor, Mul;
    var d := c[k := ZERO];
    DotZero(d, x);
    DotSet(d, x, k, c[k]);
    assert d[k := c[k]] == c;
    XorUnit(c[k]); XorUnit(Mul(c[k], x[k]));
  }

  // ---------------------------------------------------------------- the in-place loop

  /** The coding inner loop: out accumulates c times input, byte by byte. */
  method MulSliceXor(mul: array2<byte>, c: byte, input: seq<byte>, out: array<byte>)
    requires mul.Length0 == mul.Length1 == 256
    requires forall a: byte, b: byte :: mul[a, b] == PolyMul(a, b)
    requires |input| >= out.Length
    modifies out
    ensures out[..] == AddScaled(c, input, old(out[..]))
  {
    hide Xor, PolyMul, Mul;
    ghost var was := out[..];
    if c == ZERO {
      forall j | 0 <= j < out.Length ensures Xor(was[j], Mul(c, input[j])) == was[j] {
        MulZero(input[j]); XorUnit(was[j]);
      }
      assert AddScaled(c, input, was) == was;
      return;
    }
    if c == ONE {
      for i := 0 to out.Length
        invariant forall j :: i <= j < out.Length ==> out[j] == was[j]
        invariant forall j :: 0 <= j < i ==> out[j] == Xor(was[j], Mul(c, input[j]))
      {
        MulOne(input[i]);
        out[i] := Xor(out[i], input[i]);
      }
    } else {
      for i := 0 to out.Length
        invariant forall j :: i <= j < out.Length ==> out[j] == was[j]
        invariant forall j :: 0 <= j < i ==> out[j] == Xor(was[j], Mul(c, input[j]))
      {
        TablesMultiplyPolynomials(c, input[i]);
        out[i] := Xor(out[i], mul[c, input[i]]);
      }
    }
    assert out[..] == AddScaled(c, input, was);
  }
}
