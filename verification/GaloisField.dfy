/** The field GF(2^8) of section 4.2 of FIPS 197: bytes are polynomials over GF(2) of degree
    below 8, addition is exclusive-or, multiplication is polynomial multiplication reduced
    modulo x^8 + x^4 + x^3 + x + 1 (0x11B).  Nothing in this module mentions the log/exp tables
    of the program: it is the arithmetic they are later proved to implement. */
module GaloisField {
  import opened Bytes

  const MODULUS: nat := 0x11B

  lemma ByteXor(a: Byte, b: Byte)
    ensures Xor(a, b) < 256
  {
    assert Pow2(8) == 256 by { assert Pow2(3) == 8; }
    XorBound(a, b, 8);
  }

  function Add(a: Byte, b: Byte): Byte {
    ByteXor(a, b);
    Xor(a, b)
  }

  /** The shift-and-reduce step of the table loop: `x2 = x << 1; if x2 & 0x100: x2 ^= 0x11B`. */
  lemma ReduceBound(a: nat)
    requires 256 <= a < 512
    ensures Xor(a, MODULUS) < 256
  {
    assert Pow2(8) == 256 by { assert Pow2(3) == 8; }
    XorHighBit(a, MODULUS, 8);
  }

  /** Multiplication by the polynomial x. */
  function XTime(a: Byte): Byte {
    if 2 * a < 256 then 2 * a
    else ReduceBound(2 * a); Xor(2 * a, MODULUS)
  }

  /** Field multiplication, by Horner's rule on the bits of b. */
  function Mul(a: Byte, b: Byte): Byte
    decreases b
  {
    if b == 0 then 0
    else Add(if b % 2 == 1 then a else 0, XTime(Mul(a, b / 2)))
  }

  // ---------------------------------------------------------------- reference definition

  /** Product of two polynomials over GF(2), without reduction. */
  function CarrylessMul(a: nat, b: nat): nat
    decreases b
  {
    if b == 0 then 0
    else Xor(if b % 2 == 1 then a else 0, 2 * CarrylessMul(a, b / 2))
  }

  /** Mul is the remainder of the polynomial product modulo 0x11B: some multiple of the modulus
      separates the two, and a remainder has degree below 8 (it is a Byte). */
  lemma {:induction false} MulIsRemainder(a: Byte, b: Byte) returns (q: nat)
    ensures CarrylessMul(a, b) == Xor(CarrylessMul(MODULUS, q), Mul(a, b))
    decreases b
  {
    if b == 0 {
      q := 0;
      XorZero(0);
    } else {
      var q0 := MulIsRemainder(a, b / 2);
      var m: nat := Mul(a, b / 2);
      var carry := if 2 * m < 256 then 0 else 1;
      var top := if carry == 1 then MODULUS else 0;
      q := 2 * q0 + carry;
      assert q / 2 == q0 && q % 2 == carry;
      var low := if b % 2 == 1 then a else 0;
      var k := CarrylessMul(MODULUS, q0);
      XorDouble(k, m);
      CarrylessOdd(MODULUS, q0, carry);
      // 2 * m == XTime(m) ^ top
      XorZero(2 * m);
      XorAssoc(2 * m, MODULUS, MODULUS);
      XorSelf(MODULUS);
      assert Xor(XTime(m), top) == 2 * m;
      // low ^ (2k ^ (xt ^ top)) == (top ^ 2k) ^ (low ^ xt)
      XorComm(XTime(m), top);
      XorAssoc(2 * k, top, XTime(m));
      XorComm(2 * k, top);
      var kt := Xor(top, 2 * k);
      XorAssoc(low, kt, XTime(m));
      XorComm(low, kt);
      XorAssoc(kt, low, XTime(m));
    }
  }

  /** ... and no other byte is: Mul is the only remainder of degree below 8. */
  lemma RemainderIsMul(a: Byte, b: Byte, q: nat, r: Byte)
    requires CarrylessMul(a, b) == Xor(CarrylessMul(MODULUS, q), r)
    ensures r == Mul(a, b)
  {
    var q' := MulIsRemainder(a, b);
    var k, k', m: nat := CarrylessMul(MODULUS, q), CarrylessMul(MODULUS, q'), Mul(a, b);
    var p := CarrylessMul(a, b);
    XorSwap(k, r, k', m);
    XorSelf(p);
    CarrylessAdditive(MODULUS, q, q');
    XorUndo(Xor(k, k'), Xor(r, m));
    ByteXor(r, m);
    if Xor(q, q') != 0 {
      MultipleIsLarge(Xor(q, q'));
      assert false;
    }
    XorZero(Xor(r, m));
    XorUndo(r, m);
  }

  lemma XorUndo(a: nat, b: nat)
    ensures Xor(a, b) == 0 <==> a == b
  {
    XorSelf(a);
    XorAssoc(a, b, b);
    XorSelf(b);
    XorZero(a);
    XorZero(b);
  }

  lemma CarrylessZero(a: nat)
    ensures CarrylessMul(a, 0) == 0
  {
  }

  lemma {:induction false} CarrylessAdditive(a: nat, b: nat, c: nat)
    ensures CarrylessMul(a, Xor(b, c)) == Xor(CarrylessMul(a, b), CarrylessMul(a, c))
    decreases b + c
  {
    hide Xor, CarrylessMul;
    if b + c == 0 {
      XorZero(0);
      CarrylessZero(a);
    } else {
      CarrylessAdditive(a, b / 2, c / 2);
      CarrylessAdditiveParts(a, b % 2, b / 2, c % 2, c / 2);
      assert b % 2 + 2 * (b / 2) == b && c % 2 + 2 * (c / 2) == c;
    }
  }

  lemma CarrylessAdditiveParts(a: nat, p: nat, b: nat, q: nat, c: nat)
    requires p < 2 && q < 2
    requires CarrylessMul(a, Xor(b, c)) == Xor(CarrylessMul(a, b), CarrylessMul(a, c))
    ensures CarrylessMul(a, Xor(p + 2 * b, q + 2 * c)) == Xor(CarrylessMul(a, p + 2 * b), CarrylessMul(a, q + 2 * c))
  {
    XorParts(p, b, q, c);
    CarrylessOdd(a, b, p);
    CarrylessOdd(a, c, q);
    CarrylessOdd(a, Xor(b, c), BitXor(p, q));
    CarrylessSplit(a, p, CarrylessMul(a, b), q, CarrylessMul(a, c));
  }

  lemma CarrylessSplit(a: nat, p: nat, kb: nat, q: nat, kc: nat)
    requires p < 2 && q < 2
    ensures Xor(if BitXor(p, q) == 1 then a else 0, 2 * Xor(kb, kc))
         == Xor(Xor(if p == 1 then a else 0, 2 * kb), Xor(if q == 1 then a else 0, 2 * kc))
  {
    XorDouble(kb, kc);
    XorSwap(if p == 1 then a else 0, 2 * kb, if q == 1 then a else 0, 2 * kc);
    XorZero(a);
    XorSelf(a);
    XorZero(0);
  }

  /** A non-zero multiple of the modulus has degree at least 8. */
  lemma {:induction false} MultipleIsLarge(q: nat)
    requires q > 0
    ensures CarrylessMul(MODULUS, q) >= 256
    decreases q
  {
    if q == 1 {
      XorZero(MODULUS);
    } else {
      MultipleIsLarge(q / 2);
      assert Pow2(9) == 512 by { assert Pow2(3) == 8; assert Pow2(6) == 64; }
      XorKeepsHigh(if q % 2 == 1 then MODULUS else 0, 2 * CarrylessMul(MODULUS, q / 2), 9);
    }
  }

  lemma {:induction false} XorKeepsHigh(a: nat, b: nat, k: nat)
    requires a < Pow2(k) <= b
    ensures Xor(a, b) >= Pow2(k)
    decreases k
  {
    if k == 0 {
      XorZero(b);
    } else {
      XorKeepsHigh(a / 2, b / 2, k - 1);
      XorParts(a % 2, a / 2, b % 2, b / 2);
    }
  }

  lemma CarrylessOdd(a: nat, q: nat, carry: nat)
    requires carry < 2
    ensures CarrylessMul(a, 2 * q + carry) == Xor(if carry == 1 then a else 0, 2 * CarrylessMul(a, q))
  {
    var b := 2 * q + carry;
    assert b % 2 == carry && b / 2 == q;
    if b == 0 {
      XorZero(0);
    }
  }

  // ---------------------------------------------------------------- laws of addition

  lemma AddComm(a: Byte, b: Byte)
    ensures Add(a, b) == Add(b, a)
  {
    XorComm(a, b);
  }

  lemma AddAssoc(a: Byte, b: Byte, c: Byte)
    ensures Add(Add(a, b), c) == Add(a, Add(b, c))
  {
    XorAssoc(a, b, c);
  }

  lemma AddZero(a: Byte)
    ensures Add(a, 0) == a && Add(0, a) == a
  {
    XorZero(a);
  }

  lemma AddSelf(a: Byte)
    ensures Add(a, a) == 0
  {
    XorSelf(a);
  }

  lemma AddSwap(a: Byte, b: Byte, c: Byte, d: Byte)
    ensures Add(Add(a, b), Add(c, d)) == Add(Add(a, c), Add(b, d))
  {
    XorSwap(a, b, c, d);
  }

  /** In characteristic 2 every element is its own negative. */
  lemma AddCancel(a: Byte, b: Byte)
    ensures Add(Add(a, b), b) == a
    ensures Add(a, Add(a, b)) == b
  {
    AddAssoc(a, b, b);
    AddSelf(b);
    AddZero(a);
    AddAssoc(a, a, b);
    AddSelf(a);
    AddZero(b);
  }

  lemma AddZeroIffEqual(a: Byte, b: Byte)
    ensures Add(a, b) == 0 <==> a == b
  {
    AddCancel(a, b);
    AddZero(b);
    AddSelf(a);
  }

  // ---------------------------------------------------------------- laws of multiplication

  lemma XTimeAdditive(a: Byte, b: Byte)
    ensures XTime(Add(a, b)) == Add(XTime(a), XTime(b))
  {
    assert Pow2(7) == 128 by { assert Pow2(3) == 8; }
    XorHighBit(a, b, 7);
    XorDouble(a, b);
    var da, db := 2 * a, 2 * b;
    XorZero(0);
    XorZero(MODULUS);
    XorSelf(MODULUS);
    XorZero(Xor(da, db));
    XorAssoc(da, MODULUS, db);
    XorComm(MODULUS, db);
    XorAssoc(da, db, MODULUS);
    XorSwap(da, MODULUS, db, MODULUS);
  }

  lemma MulStep(a: Byte, b: Byte)
    ensures Mul(a, b) == Add(if b % 2 == 1 then a else 0, XTime(Mul(a, b / 2)))
  {
    if b == 0 {
      AddZero(0);
    }
  }

  lemma {:induction false} MulZero(a: Byte)
    ensures Mul(a, 0) == 0 && Mul(0, a) == 0
    decreases a
  {
    if a > 0 {
      MulZero(a / 2);
      AddZero(0);
    }
  }

  lemma {:induction false} MulOne(a: Byte)
    ensures Mul(1, a) == a && Mul(a, 1) == a
  {
    MulOneLeft(a);
    MulZero(a);
    AddZero(a);
    assert Mul(a, 1) == Add(a, XTime(Mul(a, 0)));
  }

  lemma {:induction false} MulOneLeft(a: Byte)
    ensures Mul(1, a) == a
    decreases a
  {
    if a > 0 {
      MulOneLeft(a / 2);
      LowBit(a);
    }
  }

  /** A byte is its lowest bit plus x times the rest. */
  lemma LowBit(a: Byte)
    ensures a == Add(a % 2, XTime(a / 2))
  {
    XorParts(a % 2, 0, 0, a / 2);
    XorZero(a / 2);
  }

  /** Multiplication distributes over addition on the left. */
  lemma {:induction false} MulAdditiveLeft(a: Byte, b: Byte, c: Byte)
    ensures Mul(Add(a, b), c) == Add(Mul(a, c), Mul(b, c))
    decreases c
  {
    if c == 0 {
      AddZero(0);
    } else {
      MulAdditiveLeft(a, b, c / 2);
      var ma, mb := Mul(a, c / 2), Mul(b, c / 2);
      XTimeAdditive(ma, mb);
      AddZero(0);
      AddSwap(if c % 2 == 1 then a else 0, XTime(ma), if c % 2 == 1 then b else 0, XTime(mb));
    }
  }

  lemma {:induction false} MulXTimeLeft(a: Byte, b: Byte)
    ensures Mul(XTime(a), b) == XTime(Mul(a, b))
    decreases b
  {
    if b > 0 {
      MulXTimeLeft(a, b / 2);
      XTimeAdditive(if b % 2 == 1 then a else 0, XTime(Mul(a, b / 2)));
    }
  }

  lemma {:induction false} MulComm(a: Byte, b: Byte)
    ensures Mul(a, b) == Mul(b, a)
    decreases b
  {
    if b == 0 {
      MulZero(a);
    } else {
      LowBit(b);
      MulAdditiveLeft(b % 2, XTime(b / 2), a);
      MulXTimeLeft(b / 2, a);
      MulComm(a, b / 2);
      MulOne(a);
      MulZero(a);
    }
  }

  lemma MulAdditiveRight(a: Byte, b: Byte, c: Byte)
    ensures Mul(a, Add(b, c)) == Add(Mul(a, b), Mul(a, c))
  {
    MulComm(a, Add(b, c));
    MulComm(a, b);
    MulComm(a, c);
    MulAdditiveLeft(b, c, a);
  }

  lemma {:induction false} MulAssoc(a: Byte, b: Byte, c: Byte)
    ensures Mul(Mul(a, b), c) == Mul(a, Mul(b, c))
    decreases b
  {
    if b == 0 {
      MulZero(c);
      MulZero(a);
    } else {
      var h := b / 2;
      MulAssoc(a, h, c);
      MulStepLeft(a, b, c);
      MulZero(c);
      MulZero(a);
      calc {
        Mul(Mul(a, b), c);
        { MulStep(a, b); MulAdditiveLeft(if b % 2 == 1 then a else 0, XTime(Mul(a, h)), c); }
        Add(Mul(if b % 2 == 1 then a else 0, c), Mul(XTime(Mul(a, h)), c));
        { MulXTimeLeft(Mul(a, h), c); }
        Add(Mul(if b % 2 == 1 then a else 0, c), XTime(Mul(a, Mul(h, c))));
        Mul(a, Mul(b, c));
      }
    }
  }

  lemma MulStepLeft(a: Byte, b: Byte, c: Byte)
    ensures Mul(a, Mul(b, c)) == Add(if b % 2 == 1 then Mul(a, c) else 0, XTime(Mul(a, Mul(b / 2, c))))
  {
    var h := b / 2;
    var low := if b % 2 == 1 then c else 0;
    calc {
      Mul(b, c);
      { MulComm(b, c); MulStep(c, b); }
      Add(low, XTime(Mul(c, h)));
      { MulComm(c, h); }
      Add(low, XTime(Mul(h, c)));
    }
    MulAdditiveRight(a, low, XTime(Mul(h, c)));
    MulComm(a, XTime(Mul(h, c)));
    MulXTimeLeft(Mul(h, c), a);
    MulComm(a, Mul(h, c));
    MulZero(a);
  }

  /** a(bc) == b(ac) */
  lemma MulSwap(a: Byte, b: Byte, c: Byte)
    ensures Mul(a, Mul(b, c)) == Mul(b, Mul(a, c))
  {
    MulAssoc(a, b, c);
    MulComm(a, b);
    MulAssoc(b, a, c);
  }

  // ---------------------------------------------------------------- powers and inverses

  function Power(a: Byte, n: nat): Byte {
    if n == 0 then 1 else Mul(a, Power(a, n - 1))
  }

  lemma {:induction false} PowerAdd(a: Byte, m: nat, n: nat)
    ensures Power(a, m + n) == Mul(Power(a, m), Power(a, n))
    decreases m
  {
    hide Mul;
    if m == 0 {
      MulOne(Power(a, n));
    } else {
      PowerAdd(a, m - 1, n);
      MulAssoc(a, Power(a, m - 1), Power(a, n));
    }
  }
}
