/** 3 generates the multiplicative group of GF(2^8): its powers 3^0 .. 3^254 are all the
    non-zero bytes, each exactly once.  This is what makes log/exp tables possible; the
    source chose 3 because 2 only has order 51. */
module Generator {
  import opened Bytes
  import opened GaloisField

  const GENERATOR: Byte := 3

  /** Order of the multiplicative group. */
  const ORDER: nat := 255

  function Exp(n: nat): Byte {
    Power(GENERATOR, n)
  }

  lemma ExpAdd(m: nat, n: nat)
    ensures Exp(m + n) == Mul(Exp(m), Exp(n))
  {
    PowerAdd(GENERATOR, m, n);
  }

  // ---------------------------------------------------------------- evaluating products

  /** XTime on machine words, as the table loop computes it. */
  function WordXTime(x: Word): Word {
    if x < 0x80 then x << 1 else (x << 1) ^ 0x11B
  }

  ghost predicate Holds(x: Word, a: nat) {
    x < 0x100 && x as int == a
  }

  lemma WordXTimeIsXTime(x: Word)
    requires x < 0x100
    ensures Holds(WordXTime(x), XTime(x as int))
  {
    assert (x << 1) as int == 2 * x as int;
    WordXor(x << 1, 0x11B);
  }

  lemma WordXorByte(p: Word, t: Word)
    requires p < 0x100 && t < 0x100
    ensures Holds(p ^ t, Xor(p as int, t as int))
  {
    assert p ^ t < 0x100;
    WordXor(p, t);
  }

  /** Appending a 0 bit, or a 1 bit, to the multiplier h. */
  lemma RowEven(a: Byte, h: nat, r: Word) returns (s: Word)
    requires 2 * h < 256
    requires Holds(r, Mul(a, h))
    ensures s == WordXTime(r) && Holds(s, Mul(a, 2 * h))
  {
    s := WordXTime(r);
    WordXTimeIsXTime(r);
    MulEven(a, h);
  }

  lemma RowOdd(x: Word, a: Byte, h: nat, r: Word) returns (s: Word)
    requires 2 * h + 1 < 256
    requires Holds(x, a) && Holds(r, Mul(a, h))
    ensures s == x ^ WordXTime(r) && Holds(s, Mul(a, 2 * h + 1))
  {
    s := x ^ WordXTime(r);
    WordXTimeIsXTime(r);
    WordXorByte(x, WordXTime(r));
    MulOdd(a, h);
  }

  lemma MulEven(a: Byte, h: nat)
    requires 2 * h < 256
    ensures Mul(a, 2 * h) == XTime(Mul(a, h))
  {
    hide *;
    MulStep(a, 2 * h);
    AddZero(XTime(Mul(a, h)));
  }

  lemma MulOdd(a: Byte, h: nat)
    requires 2 * h + 1 < 256
    ensures Mul(a, 2 * h + 1) == Add(a, XTime(Mul(a, h)))
  {
    hide *;
    assert (2 * h + 1) / 2 == h;
    MulStep(a, 2 * h + 1);
  }

  function Row(x: Word, bit: bool, r: Word): Word {
    if bit then x ^ WordXTime(r) else WordXTime(r)
  }

  function Bit(bit: bool): nat {
    if bit then 1 else 0
  }

  lemma RowStep(x: Word, a: Byte, h: nat, r: Word, bit: bool) returns (s: Word, k: nat)
    requires 2 * h + 1 < 256
    requires Holds(x, a) && Holds(r, Mul(a, h))
    ensures s == Row(x, bit, r) && k == 2 * h + Bit(bit) && Holds(s, Mul(a, k))
  {
    hide Mul;
    if bit {
      s := RowOdd(x, a, h, r);
    } else {
      s := RowEven(a, h, r);
    }
    k := 2 * h + Bit(bit);
  }

  /** A byte given by its bits, most significant first. */
  function FromBits(b7: bool, b6: bool, b5: bool, b4: bool, b3: bool, b2: bool, b1: bool, b0: bool): Byte {
    2 * (2 * (2 * (2 * (2 * (2 * (2 * Bit(b7) + Bit(b6)) + Bit(b5)) + Bit(b4)) + Bit(b3)) + Bit(b2)) + Bit(b1))
      + Bit(b0)
  }

  /** The product of a word and the byte with the given bits, by rows. */
  function Times(x: Word, b7: bool, b6: bool, b5: bool, b4: bool, b3: bool, b2: bool, b1: bool, b0: bool): Word {
    Row(x, b0, Row(x, b1, Row(x, b2, Row(x, b3, Row(x, b4, Row(x, b5, Row(x, b6, Row(x, b7, 0))))))))
  }

  /** Four rows at a time. */
  lemma FourRows(x: Word, a: Byte, h: nat, r: Word, b3: bool, b2: bool, b1: bool, b0: bool) returns (s: Word, k: nat)
    requires 16 * h + 15 < 256
    requires Holds(x, a) && Holds(r, Mul(a, h))
    ensures s == Row(x, b0, Row(x, b1, Row(x, b2, Row(x, b3, r))))
    ensures k == 2 * (2 * (2 * (2 * h + Bit(b3)) + Bit(b2)) + Bit(b1)) + Bit(b0) && Holds(s, Mul(a, k))
  {
    hide Mul, Row, Holds;
    s, k := RowStep(x, a, h, r, b3);
    s, k := RowStep(x, a, k, s, b2);
    s, k := RowStep(x, a, k, s, b1);
    s, k := RowStep(x, a, k, s, b0);
  }

  lemma TimesIsMul(x: Word, a: Byte, b7: bool, b6: bool, b5: bool, b4: bool, b3: bool, b2: bool, b1: bool, b0: bool)
    requires Holds(x, a)
    ensures Holds(Times(x, b7, b6, b5, b4, b3, b2, b1, b0), Mul(a, FromBits(b7, b6, b5, b4, b3, b2, b1, b0)))
  {
    MulZero(a);
    assert Holds(0, Mul(a, 0));
    hide Mul, Row, Holds;
    var r, h := FourRows(x, a, 0, 0, b7, b6, b5, b4);
    r, h := FourRows(x, a, h, r, b3, b2, b1, b0);
  }

  // ---------------------------------------------------------------- the order of the generator

  lemma ExpProduct(m: nat, x: Word, n: nat, z: Word, b7: bool, b6: bool, b5: bool, b4: bool, b3: bool, b2: bool,
                   b1: bool, b0: bool)
    requires Holds(x, Exp(m)) && Exp(n) == FromBits(b7, b6, b5, b4, b3, b2, b1, b0)
    requires Times(x, b7, b6, b5, b4, b3, b2, b1, b0) == z
    ensures Holds(z, Exp(m + n))
  {
    ExpAdd(m, n);
    hide Mul, Times, FromBits;
    TimesIsMul(x, Exp(m), b7, b6, b5, b4, b3, b2, b1, b0);
  }

  lemma ExpFirst(u: nat)
    requires u == 1
    ensures Exp(u) == 3
  {
    MulOne(3);
    assert Power(GENERATOR, u - 1) == 1;
  }

  /** The 255th power of 3 is 1, and none of the powers 255/3, 255/5, 255/17 is. */
  lemma GeneratorOrder(u: nat)
    requires u == 1  // keeps the exponents symbolic
    ensures Exp(255 * u) == 1 && Exp(85 * u) != 1 && Exp(51 * u) != 1 && Exp(15 * u) != 1
  {
    ExpFirst(u);
    hide Exp;
    ExpProduct(u, 0x03, u, 0x05, false, false, false, false, false, false, true, true);
    ExpProduct(2 * u, 0x05, 2 * u, 0x11, false, false, false, false, false, true, false, true);
    ExpProduct(4 * u, 0x11, 4 * u, 0x1A, false, false, false, true, false, false, false, true);
    ExpProduct(8 * u, 0x1A, 4 * u, 0xA1, false, false, false, true, false, false, false, true);
    ExpProduct(12 * u, 0xA1, 2 * u, 0x13, false, false, false, false, false, true, false, true);
    ExpProduct(14 * u, 0x13, u, 0x35, false, false, false, false, false, false, true, true);
    GeneratorOrderFrom15(u);
  }

  lemma GeneratorOrderFrom15(u: nat)
    requires u == 1 && Exp(2 * u) == 0x05 && Exp(15 * u) == 0x35
    ensures Exp(255 * u) == 1 && Exp(85 * u) != 1 && Exp(51 * u) != 1
  {
    hide Exp;
    ExpProduct(15 * u, 0x35, 2 * u, 0xE1, false, false, false, false, false, true, false, true);
    ExpProduct(17 * u, 0xE1, 17 * u, 0x5C, true, true, true, false, false, false, false, true);
    ExpProduct(34 * u, 0x5C, 17 * u, 0x0C, true, true, true, false, false, false, false, true);
    ExpProduct(51 * u, 0x0C, 34 * u, 0xBD, false, true, false, true, true, true, false, false);
    ExpProduct(85 * u, 0xBD, 85 * u, 0xBC, true, false, true, true, true, true, false, true);
    ExpProduct(170 * u, 0xBC, 85 * u, 0x01, true, false, true, true, true, true, false, true);
  }

  lemma OrderFacts()
    ensures Exp(ORDER) == 1 && Exp(85) != 1 && Exp(51) != 1 && Exp(15) != 1
  {
    hide Exp;
    GeneratorOrder(1);
  }

  lemma {:induction false} ExpMultiple(d: nat, k: nat)
    requires Exp(d) == 1
    ensures Exp(d * k) == 1
    decreases k
  {
    hide Exp;
    if k == 0 {
      ExpZero();
    } else {
      ExpMultiple(d, k - 1);
      ExpAdd(d, d * (k - 1));
      MulOne(1);
      assert d * k == d + d * (k - 1);
    }
  }

  lemma ExpZero()
    ensures Exp(0) == 1
  {
  }

  /** Exponents only matter modulo 255. */
  lemma ExpModulo(n: nat, k: nat)
    ensures Exp(ORDER * k + n) == Exp(n)
  {
    hide Exp;
    OrderFacts();
    ExpMultiple(ORDER, k);
    ExpAdd(ORDER * k, n);
    MulOne(Exp(n));
  }

  /** If d is invertible modulo the prime p, then Exp(d) == 1 forces Exp(255 / p) == 1. */
  lemma OrderWitness(d: nat, p: nat, c: nat, s: nat, t: nat)
    requires Exp(d) == 1 && p * c == ORDER && s * d == p * t + 1
    ensures Exp(c) == 1
  {
    hide Exp;
    ExpMultiple(d, s * c);
    assert d * (s * c) == c * (s * d) == c * (p * t) + c == ORDER * t + c;
    ExpModulo(c, t);
  }

  /** No smaller positive power of 3 is 1. */
  lemma OrderIsExact(d: nat)
    requires 0 < d < ORDER
    ensures Exp(d) != 1
  {
    hide Exp;
    OrderFacts();
    if Exp(d) == 1 {
      if d % 3 != 0 {
        var s, t := ModularInverse(3, d);
        OrderWitness(d, 3, 85, s, t);
      } else if d % 5 != 0 {
        var s, t := ModularInverse(5, d);
        OrderWitness(d, 5, 51, s, t);
      } else {
        var s, t := ModularInverse(17, d);
        OrderWitness(d, 17, 15, s, t);
      }
    }
  }

  /** An inverse of r modulo p, for the three prime factors of ORDER. */
  lemma InverseTable(p: nat, r: nat) returns (s: nat, t: nat)
    requires p in {3, 5, 17} && 0 < r < p
    ensures s * r == p * t + 1
  {
    if r == 1 { s, t := 1, 0; }
    else if p == 3 { s, t := 2, 1; }
    else if p == 5 { s, t := InverseTable5(r); }
    else { s, t := InverseTable17(r); }
  }

  lemma InverseTable5(r: nat) returns (s: nat, t: nat)
    requires 1 < r < 5
    ensures s * r == 5 * t + 1
  {
    if r == 2 { s, t := 3, 1; }
    else if r == 3 { s, t := 2, 1; }
    else { s, t := 4, 3; }
  }

  lemma InverseTable17(r: nat) returns (s: nat, t: nat)
    requires 1 < r < 17
    ensures s * r == 17 * t + 1
  {
    if r == 2 { s, t := 9, 1; }
    else if r == 3 { s, t := 6, 1; }
    else if r == 4 { s, t := 13, 3; }
    else if r == 5 { s, t := 7, 2; }
    else if r == 6 { s, t := 3, 1; }
    else if r == 7 { s, t := 5, 2; }
    else if r == 8 { s, t := 15, 7; }
    else if r == 9 { s, t := 2, 1; }
    else if r == 10 { s, t := 12, 7; }
    else if r == 11 { s, t := 14, 9; }
    else if r == 12 { s, t := 10, 7; }
    else if r == 13 { s, t := 4, 3; }
    else if r == 14 { s, t := 11, 9; }
    else if r == 15 { s, t := 8, 7; }
    else { s, t := 16, 15; }
  }

  lemma ModularInverse(p: nat, d: nat) returns (s: nat, t: nat)
    requires p in {3, 5, 17} && d % p != 0
    ensures s * d == p * t + 1
  {
    var q, r := d / p, d % p;
    var u;
    s, u := InverseTable(p, r);
    t := s * q + u;
    InverseScales(p, d, q, r, s, u);
  }

  lemma InverseScales(p: nat, d: nat, q: nat, r: nat, s: nat, u: nat)
    requires d == p * q + r && s * r == p * u + 1
    ensures s * d == p * (s * q + u) + 1
  {
    assert s * d == s * (p * q) + s * r == p * (s * q) + s * r;
  }

  lemma ExpComplement(i: nat)
    requires i <= ORDER
    ensures Mul(Exp(i), Exp(ORDER - i)) == 1
  {
    hide Exp;
    OrderFacts();
    ExpAdd(i, ORDER - i);
  }

  lemma ExpNonZero(i: nat)
    ensures Exp(i) != 0
  {
    hide Exp;
    var r := i % ORDER;
    ExpModulo(r, i / ORDER);
    ExpComplement(r);
    MulZero(Exp(ORDER - r));
  }

  lemma ExpInjective(i: nat, j: nat)
    requires i < ORDER && j < ORDER && Exp(i) == Exp(j)
    ensures i == j
  {
    hide Exp;
    if i < j {
      ExpCancel(i, j - i);
      OrderIsExact(j - i);
    } else if j < i {
      ExpCancel(j, i - j);
      OrderIsExact(i - j);
    }
  }

  lemma ExpCancel(i: nat, d: nat)
    requires i <= ORDER && Exp(i + d) == Exp(i)
    ensures Exp(d) == 1
  {
    hide Exp;
    var e, f, g := Exp(i), Exp(ORDER - i), Exp(d);
    ExpComplement(i);
    ExpAdd(i, d);
    MulComm(e, f);
    MulAssoc(f, e, g);
    MulOne(g);
  }

  // ---------------------------------------------------------------- every non-zero byte is a power

  ghost function Powers(n: nat): set<Byte> {
    set i: nat | i < n :: Exp(i)
  }

  ghost function Positive(n: nat): (s: set<Byte>)
    requires n <= 255
    ensures forall b: Byte :: b in s <==> 1 <= b <= n
  {
    if n == 0 then {} else Positive(n - 1) + {n}
  }

  lemma {:induction false} PowersCount(n: nat)
    requires n <= ORDER
    ensures |Powers(n)| == n
  {
    hide Exp;
    if n == 0 {
      assert Powers(0) == {};
    } else {
      PowersCount(n - 1);
      forall i: nat | i < n - 1 ensures Exp(i) != Exp(n - 1) {
        if Exp(i) == Exp(n - 1) {
          ExpInjective(i, n - 1);
        }
      }
      assert Powers(n) == Powers(n - 1) + {Exp(n - 1)};
    }
  }

  lemma {:induction false} PositiveCount(n: nat)
    requires n <= 255
    ensures |Positive(n)| == n
  {
    if n > 0 {
      PositiveCount(n - 1);
    }
  }

  /** The table loop reaches every non-zero byte. */
  lemma ExpSurjective(a: Byte)
    requires a != 0
    ensures exists i: nat :: i < ORDER && Exp(i) == a
  {
    hide Exp;
    PowersCount(ORDER);
    PositiveCount(255);
    var powers, all := Powers(ORDER), Positive(255);
    forall b | b in powers ensures b in all {
      var i: nat :| i < ORDER && Exp(i) == b;
      ExpNonZero(i);
    }
    assert |all - powers| == |all| - |powers|;
    assert a in all;
    assert a in powers;
  }

  // ---------------------------------------------------------------- logarithms and division

  /** The discrete logarithm, which the program tabulates. */
  ghost function Log(a: Byte): (i: nat)
    requires a != 0
    ensures i < ORDER && Exp(i) == a
  {
    ExpSurjective(a);
    var i: nat :| i < ORDER && Exp(i) == a;
    i
  }

  ghost function Inverse(a: Byte): Byte
    requires a != 0
  {
    Exp(ORDER - Log(a))
  }

  lemma InverseLaw(a: Byte)
    requires a != 0
    ensures Mul(a, Inverse(a)) == 1 && Mul(Inverse(a), a) == 1 && Inverse(a) != 0
  {
    hide Exp;
    ExpComplement(Log(a));
    MulComm(a, Inverse(a));
    ExpNonZero(ORDER - Log(a));
  }

  lemma NoZeroDivisors(a: Byte, b: Byte)
    ensures Mul(a, b) == 0 <==> a == 0 || b == 0
  {
    hide Exp, Mul;
    MulZero(a);
    MulZero(b);
    if b != 0 && Mul(a, b) == 0 {
      InverseLaw(b);
      MulAssoc(a, b, Inverse(b));
      MulOne(a);
      MulZero(Inverse(b));
    }
  }

  /** Division: the unique solution q of q * b == a. */
  ghost function Div(a: Byte, b: Byte): Byte
    requires b != 0
  {
    Mul(a, Inverse(b))
  }

  lemma DivUnique(q: Byte, a: Byte, b: Byte)
    requires b != 0
    ensures Mul(q, b) == a <==> q == Div(a, b)
  {
    hide Exp, Mul;
    InverseLaw(b);
    MulOne(q);
    MulOne(a);
    MulAssoc(q, b, Inverse(b));
    MulAssoc(a, Inverse(b), b);
  }
}
