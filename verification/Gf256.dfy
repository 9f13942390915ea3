/** Arithmetic in GF(256), the bytes with the primitive polynomial x^8 + x^4 + x^3 + x^2 + 1
    (gf.go). Addition is exclusive or; multiplication adds discrete logarithms. */
module Gf256 {
  import B = Bits8

  type byte = B.byte

  const ZERO: byte := 0
  const ONE: byte := 1

  /** Addition in the field, the exclusive or of two bytes. */
  function Xor(a: byte, b: byte): byte {
    B.Pack(B.Add(B.Unpack(a), B.Unpack(b)))
  }

  /** Multiplication by x: shift left, and subtract 0x11d when a bit falls off the end. */
  function Double(a: byte): byte {
    if a < 128 then 2 * a else Xor(2 * a - 256, 0x1d)
  }

  /** The antilogarithm: x to the power i. */
  function Exp(i: nat): byte {
    if i == 0 then ONE else Double(Exp(i - 1))
  }

  /** The logarithm of a non-zero element. */
  function Log(a: byte): (i: nat)
    requires a != ZERO
    ensures i < 255 && Exp(i) == a
  {
    LogExists(a);
    LogUnique();
    var i :| 0 <= i < 255 && Exp(i) == a;
    i
  }

  /** The product as the tables compute it. */
  function Mul(a: byte, b: byte): byte {
    if a == ZERO || b == ZERO then ZERO else Exp(Log(a) + Log(b))
  }

  /** The multiplicative inverse; zero has none and is sent to itself. */
  function Inv(a: byte): byte {
    if a == ZERO then ZERO else Exp(255 - Log(a))
  }

  // ---------------------------------------------------------------- addition

  lemma UnpackXor(a: byte, b: byte)
    ensures B.Unpack(Xor(a, b)) == B.Add(B.Unpack(a), B.Unpack(b))
  {
    B.UnpackOfPack(B.Add(B.Unpack(a), B.Unpack(b)));
  }

  lemma UnpackConstants()
    ensures B.Unpack(ZERO) == B.Zero && B.Unpack(ONE) == B.One && B.Unpack(0x1d) == B.Fold
  {}

  lemma UnpackInjective(a: byte, b: byte)
    requires B.Unpack(a) == B.Unpack(b)
    ensures a == b
  {
    hide B.Pack, B.Unpack;
    B.PackOfUnpack(a); B.PackOfUnpack(b);
  }

  lemma XorCommutes(a: byte, b: byte)
    ensures Xor(a, b) == Xor(b, a)
  {
    hide B.Pack, B.Unpack, B.Add;
    B.AddCommutes(B.Unpack(a), B.Unpack(b));
  }

  lemma XorAssociates(a: byte, b: byte, c: byte)
    ensures Xor(Xor(a, b), c) == Xor(a, Xor(b, c))
  {
    hide B.Pack, B.Unpack, B.Add, Xor;
    UnpackXor(a, b); UnpackXor(b, c); UnpackXor(Xor(a, b), c); UnpackXor(a, Xor(b, c));
    B.AddAssociates(B.Unpack(a), B.Unpack(b), B.Unpack(c));
    UnpackInjective(Xor(Xor(a, b), c), Xor(a, Xor(b, c)));
  }

  lemma XorUnit(a: byte)
    ensures Xor(a, ZERO) == a && Xor(ZERO, a) == a && Xor(a, a) == ZERO
  {
    UnpackConstants();
    hide B.Pack, B.Unpack, B.Add, Xor;
    UnpackXor(a, ZERO); UnpackXor(a, a);
    B.AddUnit(B.Unpack(a));
    XorCommutes(a, ZERO);
    UnpackInjective(Xor(a, ZERO), a);
    UnpackInjective(Xor(a, a), ZERO);
  }

  /** The four terms of a double sum can be regrouped. */
  lemma XorRegroup(a: byte, b: byte, c: byte, d: byte)
    ensures Xor(Xor(a, b), Xor(c, d)) == Xor(Xor(a, c), Xor(b, d))
  {
    hide Xor;
    XorAssociates(a, b, Xor(c, d)); XorAssociates(b, c, d);
    XorCommutes(b, c); XorAssociates(c, b, d);
    XorAssociates(a, c, Xor(b, d));
  }

  /** A term added to both sides cancels; added to one side it can be moved out. */
  lemma XorCancel(a: byte, b: byte, m: byte)
    ensures Xor(Xor(a, m), Xor(b, m)) == Xor(a, b)
    ensures Xor(Xor(a, m), b) == Xor(Xor(a, b), m) == Xor(a, Xor(b, m))
  {
    hide Xor;
    XorRegroup(a, m, b, m);
    XorUnit(m); XorUnit(Xor(a, b));
    XorAssociates(a, m, b); XorAssociates(a, b, m); XorCommutes(m, b);
  }

  lemma XorZero(a: byte, b: byte)
    ensures Xor(a, b) == ZERO <==> a == b
  {
    hide Xor;
    XorAssociates(a, b, b); XorUnit(a); XorUnit(b);
  }

  // ---------------------------------------------------------------- the order of the generator

  lemma TwiceWeight(b: bool, w: nat)
    ensures 2 * B.Weight(b, w) == B.Weight(b, 2 * w) && B.Weight(false, w) == 0 && B.Weight(true, w) == w
  {}

  lemma DoublePack(u: B.Bits)
    requires !u.b7
    ensures 2 * B.Pack(u) == B.Pack(B.TimesX(u)) && B.Pack(u) < 128
  {
    TwiceWeight(u.b6, 64); TwiceWeight(u.b5, 32); TwiceWeight(u.b4, 16); TwiceWeight(u.b3, 8);
    TwiceWeight(u.b2, 4); TwiceWeight(u.b1, 2); TwiceWeight(u.b0, 1); TwiceWeight(false, 128); TwiceWeight(false, 1);
    assert B.TimesX(u) == B.Bits(u.b6, u.b5, u.b4, u.b3, u.b2, u.b1, u.b0, false);
    PackBound(u);
    hide B.Weight;
  }

  lemma PackBound(u: B.Bits)
    ensures u.b7 <==> B.Pack(u) >= 128
    ensures u.b7 ==> B.Pack(u.(b7 := false)) == B.Pack(u) - 128
  {
    B.UnpackOfPack(u);
    hide B.Rest;
  }

  lemma FoldTimesX(u: B.Bits)
    requires u.b7
    ensures B.TimesX(u) == B.Add(B.TimesX(u.(b7 := false)), B.Fold)
  {}

  lemma UnpackDouble(a: byte)
    ensures B.Unpack(Double(a)) == B.TimesX(B.Unpack(a))
  {
    hide B.Pack, B.Unpack, B.Add, B.TimesX, Xor;
    UnpackConstants();
    var u := B.Unpack(a);
    B.PackOfUnpack(a);
    PackBound(u);
    if a >= 128 {
      var v := u.(b7 := false);
      DoublePack(v); FoldTimesX(u);
      UnpackXor(2 * a - 256, 0x1d);
      B.UnpackOfPack(B.TimesX(v));
    } else {
      DoublePack(u);
      B.UnpackOfPack(B.TimesX(u));
    }
  }

  lemma {:induction false} UnpackExp(i: nat)
    ensures B.Unpack(Exp(i)) == B.PowerX(i)
  {
    if i == 0 {
      B.UnpackOfPack(B.One);
    } else {
      UnpackExp(i - 1); UnpackDouble(Exp(i - 1));
      hide B.Unpack, B.TimesX, Double;
    }
  }

  lemma ExpAnchors()
    ensures Exp(15) != ONE && Exp(51) != ONE && Exp(85) != ONE && Exp(255) == ONE
  {
    UnpackConstants();
    hide Exp, B.Unpack, B.PowerX;
    UnpackExp(15); UnpackExp(51); UnpackExp(85); UnpackExp(255);
    B.PowerAnchors();
    UnpackInjective(Exp(255), ONE);
  }

  lemma DoubleLinear(a: byte, b: byte)
    ensures Double(Xor(a, b)) == Xor(Double(a), Double(b))
  {
    hide B.Pack, B.Unpack, B.Add, B.TimesX, Xor, Double;
    UnpackXor(a, b); UnpackXor(Double(a), Double(b));
    UnpackDouble(a); UnpackDouble(b); UnpackDouble(Xor(a, b));
    B.TimesXLinear(B.Unpack(a), B.Unpack(b));
    UnpackInjective(Double(Xor(a, b)), Xor(Double(a), Double(b)));
  }

  lemma DoubleInjective(a: byte, b: byte)
    requires Double(a) == Double(b)
    ensures a == b
  {
    hide B.Pack, B.Unpack, B.TimesX, Double;
    UnpackDouble(a); UnpackDouble(b);
    B.TimesXInjective(B.Unpack(a), B.Unpack(b));
    UnpackInjective(a, b);
  }

  lemma {:induction false} ExpCancel(i: nat, j: nat)
    requires i <= j && Exp(i) == Exp(j)
    ensures Exp(j - i) == ONE
  {
    hide Double;
    if i > 0 {
      DoubleInjective(Exp(i - 1), Exp(j - 1));
      ExpCancel(i - 1, j - 1);
    }
  }

  lemma {:induction false} ExpShift(d: nat, n: nat)
    requires Exp(d) == ONE
    ensures Exp(n + d) == Exp(n)
  {
    hide Double;
    if n > 0 { ExpShift(d, n - 1); }
  }

  lemma {:induction false} ExpMultiple(d: nat, q: nat, r: nat)
    requires Exp(d) == ONE
    ensures Exp(d * q + r) == Exp(r)
  {
    hide Double;
    if q > 0 {
      ExpMultiple(d, q - 1, r);
      ExpShift(d, d * (q - 1) + r);
      assert d * q + r == d * (q - 1) + r + d;
    }
  }

  lemma ExpModulo(d: nat, n: nat)
    requires d > 0 && Exp(d) == ONE
    ensures Exp(n) == Exp(n % d)
  {
    hide Double;
    hide Exp;
    ExpMultiple(d, n / d, n % d);
  }

  lemma ProperDivisorsOf255(d: nat)
    requires 0 < d < 255 && 255 % d == 0
    ensures 85 % d == 0 || 51 % d == 0 || 15 % d == 0
  {
    var q := 255 / d;
    assert d * q == 255;
    if d <= 15 {
      assert d == 1 || d == 3 || d == 5 || d == 15;
    } else {
      assert d >= 16;
      assert 16 * q <= d * q;
      assert q == 3 || q == 5 || q == 15;
    }
  }

  /** The generator has order exactly 255. */
  lemma {:induction false} ExpOrder(d: nat)
    requires 0 < d < 255
    ensures Exp(d) != ONE
  {
    hide Double;
    if Exp(d) == ONE {
      ExpAnchors();
      ExpModulo(d, 255);
      if 255 % d != 0 {
        ExpOrder(255 % d);
      } else {
        ProperDivisorsOf255(d);
        ExpModulo(d, 85); ExpModulo(d, 51); ExpModulo(d, 15);
      }
    }
  }

  // ---------------------------------------------------------------- discrete logarithms

  lemma {:induction false} ExpNonZero(i: nat)
    ensures Exp(i) != ZERO
  {
    assert Double(ZERO) == ZERO;
    hide Double;
    if i > 0 {
      ExpNonZero(i - 1);
      if Exp(i) == ZERO { DoubleInjective(Exp(i - 1), ZERO); }
    }
  }

  /** Powers below the order are distinct, so a logarithm is unique. */
  lemma LogUnique()
    ensures forall i, j :: 0 <= i < 255 && 0 <= j < 255 && Exp(i) == Exp(j) ==> i == j
  {
    hide Double;
    forall i, j | 0 <= i < 255 && 0 <= j < 255 && Exp(i) == Exp(j)
      ensures i == j
    {
      if i < j { ExpCancel(i, j); ExpOrder(j - i); }
      if j < i { ExpCancel(j, i); ExpOrder(i - j); }
    }
  }

  ghost function Powers(n: nat): set<byte> {
    set i | 0 <= i < n :: Exp(i)
  }

  lemma {:induction false} PowersCount(n: nat)
    requires n <= 255
    ensures |Powers(n)| == n
  {
    hide Double;
    if n > 0 {
      PowersCount(n - 1);
      LogUnique();
      assert Powers(n) == Powers(n - 1) + {Exp(n - 1)};
    }
  }

  /** At most n + 1 bytes have a value of at most n. */
  lemma {:induction false} FewSmall(s: set<byte>, n: nat)
    requires forall a :: a in s ==> a <= n
    ensures |s| <= n + 1
  {
    hide Double;
    var top := set a | a in s && a == n;
    if a :| a in top { assert top == {a}; }
    assert s == (s - top) + top;
    if n > 0 { FewSmall(s - top, n - 1); }
  }

  /** Every non-zero element is a power of the generator: 255 powers and zero fill 256 places. */
  lemma LogExists(a: byte)
    requires a != ZERO
    ensures exists i :: 0 <= i < 255 && Exp(i) == a
  {
    hide Double;
    PowersCount(255);
    var p := Powers(255);
    forall i | 0 <= i < 255 ensures Exp(i) != ZERO { ExpNonZero(i); }
    if a !in p { FewSmall(p + {ZERO, a}, 255); }
  }

  // ---------------------------------------------------------------- the field laws

  lemma LogOfExp(n: nat)
    ensures Exp(n) != ZERO && Log(Exp(n)) == n % 255
  {
    hide Exp, Double;
    ExpNonZero(n);
    ExpAnchors();
    ExpModulo(255, n);
    LogUnique();
  }

  lemma MulCommutes(a: byte, b: byte)
    ensures Mul(a, b) == Mul(b, a)
  {}

  lemma MulNonZero(a: byte, b: byte)
    requires a != ZERO && b != ZERO
    ensures Mul(a, b) != ZERO && Log(Mul(a, b)) == (Log(a) + Log(b)) % 255
  {
    LogOfExp(Log(a) + Log(b));
  }

  lemma LogInjective(a: byte, b: byte)
    requires a != ZERO && b != ZERO && Log(a) == Log(b)
    ensures a == b
  {
    hide Exp;
    assert Exp(Log(a)) == a && Exp(Log(b)) == b;
  }

  lemma SumModulo(x: nat, y: nat, z: nat)
    ensures ((x + y) % 255 + z) % 255 == (x + (y + z) % 255) % 255
  {}

  lemma MulAssociatesNonZero(a: byte, b: byte, c: byte)
    requires a != ZERO && b != ZERO && c != ZERO
    ensures Mul(Mul(a, b), c) == Mul(a, Mul(b, c))
  {
    hide Mul, Exp, Log;
    MulNonZero(a, b);
    MulNonZero(b, c);
    MulNonZero(Mul(a, b), c);
    MulNonZero(a, Mul(b, c));
    SumModulo(Log(a), Log(b), Log(c));
    LogInjective(Mul(Mul(a, b), c), Mul(a, Mul(b, c)));
  }

  lemma MulAssociates(a: byte, b: byte, c: byte)
    ensures Mul(Mul(a, b), c) == Mul(a, Mul(b, c))
  {
    hide Exp, Log;
    if a != ZERO && b != ZERO && c != ZERO { MulAssociatesNonZero(a, b, c); }
  }

  lemma MulOne(a: byte)
    ensures Mul(ONE, a) == a
  {
    LogOfExp(0);
  }

  lemma LogOfInverse(a: byte)
    requires a != ZERO
    ensures Inv(a) != ZERO && Log(Inv(a)) == (255 - Log(a)) % 255
  {
    hide Exp, Log;
    LogOfExp(255 - Log(a));
  }

  lemma LogOne()
    ensures Log(ONE) == 0
  {
    assert Exp(0) == ONE;
    hide Exp, Log;
    LogOfExp(0);
  }

  lemma MulInverse(a: byte)
    requires a != ZERO
    ensures Inv(a) != ZERO && Mul(Inv(a), a) == ONE
  {
    hide Exp, Log, Mul, Inv;
    LogOfInverse(a);
    LogOne();
    MulNonZero(Inv(a), a);
    LogInjective(Mul(Inv(a), a), ONE);
  }

  /** Doubling n times. */
  function Times(n: nat, b: byte): byte {
    if n == 0 then b else Double(Times(n - 1, b))
  }

  lemma {:induction false} TimesExp(n: nat, i: nat)
    ensures Times(n, Exp(i)) == Exp(n + i)
  {
    if n > 0 { TimesExp(n - 1, i); }
  }

  lemma {:induction false} TimesLinear(n: nat, a: byte, b: byte)
    ensures Times(n, Xor(a, b)) == Xor(Times(n, a), Times(n, b)) && Times(n, ZERO) == ZERO
  {
    if n > 0 {
      TimesLinear(n - 1, a, b);
      DoubleLinear(Times(n - 1, a), Times(n - 1, b));
    }
  }

  lemma MulIsTimes(a: byte, b: byte)
    requires a != ZERO
    ensures Mul(a, b) == Times(Log(a), b)
  {
    if b == ZERO { TimesLinear(Log(a), ZERO, ZERO); } else { TimesExp(Log(a), Log(b)); }
  }

  lemma MulDistributes(a: byte, b: byte, c: byte)
    ensures Mul(a, Xor(b, c)) == Xor(Mul(a, b), Mul(a, c))
    ensures Mul(Xor(b, c), a) == Xor(Mul(b, a), Mul(c, a))
  {
    MulCommutes(a, Xor(b, c)); MulCommutes(a, b); MulCommutes(a, c);
    if a != ZERO {
      MulIsTimes(a, b); MulIsTimes(a, c); MulIsTimes(a, Xor(b, c));
      TimesLinear(Log(a), b, c);
    }
  }

  lemma DoubleIsMulByTwo(a: byte)
    ensures Double(a) == Mul(Double(ONE), a)
  {
    LogOfExp(1);
    assert Exp(1) == Double(ONE);
    MulIsTimes(Double(ONE), a);
    assert Times(1, a) == Double(Times(0, a));
  }

  // ---------------------------------------------------------------- the reference product

  /** The reference: the product of two polynomials over GF(2) reduced modulo 0x11d, by shift
      and add over the bits of a. */
  function PolyMul(a: byte, b: byte): byte {
    if a == ZERO then ZERO
    else Xor(if a % 2 == 1 then b else ZERO, PolyMul(a / 2, Double(b)))
  }

  lemma AddOne(u: B.Bits)
    requires !u.b7
    ensures B.Add(B.One, B.TimesX(u)) == B.TimesX(u).(b0 := true)
    ensures B.Pack(B.TimesX(u).(b0 := true)) == B.Pack(B.TimesX(u)) + 1
  {}

  lemma SplitByte(a: byte)
    ensures a == Xor(a % 2, Double(a / 2))
  {
    hide B.Pack, B.Unpack, B.Add, B.TimesX, Xor;
    var h := a / 2;
    UnpackConstants();
    var u := B.Unpack(h);
    B.PackOfUnpack(h); PackBound(u); DoublePack(u); AddOne(u);
    XorUnit(2 * h);
    UnpackDouble(h);
    UnpackXor(1, 2 * h);
    B.UnpackOfPack(B.TimesX(u).(b0 := true));
    if a % 2 == 1 { UnpackInjective(a, Xor(1, 2 * h)); }
  }

  /** The table product is multiplication of polynomials modulo 0x11d. */
  lemma {:induction false} TablesMultiplyPolynomials(a: byte, b: byte)
    ensures Mul(a, b) == PolyMul(a, b)
  {
    hide Xor, Double;
    if a != ZERO {
      TablesMultiplyPolynomials(a / 2, Double(b));
      PeasantStep(a, b);
      MulOne(b);
    }
  }

  lemma PeasantStep(a: byte, b: byte)
    ensures Mul(a, b) == Xor(Mul(a % 2, b), Mul(a / 2, Double(b)))
  {
    SplitByte(a);
    hide Mul, Xor, Double;
    MulDistributes(b, a % 2, Double(a / 2));
    DoubleIsMulByTwo(a / 2); DoubleIsMulByTwo(b);
    MulCommutes(Double(ONE), a / 2);
    MulAssociates(a / 2, Double(ONE), b);
  }

  // ---------------------------------------------------------------- the tables

  /** The first loop of the initialisation: the powers of x and their logarithms. */
  method FillLogs(exp: array<byte>, log: array<nat>)
    requires exp.Length == 512 && log.Length == 256
    modifies exp, log
    ensures forall k :: 0 <= k < 255 ==> exp[k] == Exp(k)
    ensures forall a: byte :: a != ZERO ==> log[a] == Log(a)
  {
    hide Double, Log, Exp;
    ExpZero();
    var x := ONE;
    for i := 0 to 255
      invariant x == Exp(i)
      invariant forall k :: 0 <= k < i ==> exp[k] == Exp(k)
      invariant forall k :: 0 <= k < i ==> log[Exp(k)] == k
    {
      FreshSlot(i);
      ExpStep(i);
      exp[i] := x;
      log[x] := i;
      x := Double(x);
    }
    forall a: byte | a != ZERO ensures log[a] == Log(a) {
      assert Exp(Log(a)) == a;
    }
  }

  /** The second loop: the powers repeat, so that a sum of two logarithms indexes the table. */
  method ExtendPowers(exp: array<byte>)
    requires exp.Length == 512
    requires forall k :: 0 <= k < 255 ==> exp[k] == Exp(k)
    modifies exp
    ensures forall i :: 0 <= i < 512 ==> exp[i] == Exp(i)
  {
    hide Exp;
    ExpAnchors();
    for i := 255 to 512
      invariant forall k :: 0 <= k < i ==> exp[k] == Exp(k)
    {
      ExpShift(255, i - 255);
      exp[i] := exp[i - 255];
    }
  }

  lemma ExpZero()
    ensures Exp(0) == ONE
  {}

  lemma ExpStep(n: nat)
    ensures Exp(n + 1) == Double(Exp(n))
  {}

  lemma FreshSlot(i: nat)
    requires i < 255
    ensures forall k :: 0 <= k < i ==> Exp(k) != Exp(i)
  {
    hide Exp;
    LogUnique();
  }

  /** The last loop: the full product table, which holds the products of polynomials. */
  method FillProducts(exp: array<byte>, log: array<nat>) returns (mul: array2<byte>)
    requires exp.Length == 512 && log.Length == 256
    requires forall i :: 0 <= i < 512 ==> exp[i] == Exp(i)
    requires forall a: byte :: a != ZERO ==> log[a] == Log(a)
    ensures fresh(mul) && mul.Length0 == mul.Length1 == 256
    ensures forall a: byte, b: byte :: mul[a, b] == PolyMul(a, b)
  {
    hide Double, Exp, PolyMul;
    mul := new byte[256, 256]((_, _) => ZERO);
    for a := 1 to 256
      invariant forall i, j :: 0 <= i < 256 && 0 <= j < 256 ==> mul[i, j] == if i < a then Mul(i, j) else ZERO
    {
      for b := 1 to 256
        invariant forall i, j :: 0 <= i < 256 && 0 <= j < 256 ==>
          mul[i, j] == if i < a || (i == a && j < b) then Mul(i, j) else ZERO
      {
        mul[a, b] := exp[log[a] + log[b]];
      }
    }
    forall a: byte, b: byte ensures mul[a, b] == PolyMul(a, b) {
      TablesMultiplyPolynomials(a, b);
    }
  }

  /** The whole initialisation. */
  method BuildTables() returns (exp: array<byte>, log: array<nat>, mul: array2<byte>)
    ensures exp.Length == 512 && log.Length == 256 && mul.Length0 == mul.Length1 == 256
    ensures forall i :: 0 <= i < 512 ==> exp[i] == Exp(i)
    ensures forall a: byte :: a != ZERO ==> log[a] == Log(a)
    ensures forall a: byte, b: byte :: mul[a, b] == PolyMul(a, b)
  {
    hide Exp, Log, PolyMul;
    exp, log := new byte[512](_ => ZERO), new nat[256](_ => 0);
    FillLogs(exp, log);
    ExtendPowers(exp);
    mul := FillProducts(exp, log);
  }
}
