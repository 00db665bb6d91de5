/** Bytes as the Python source sees them (integers below 256), and bitwise exclusive-or on
    natural numbers, which doubles as addition of polynomials over GF(2). */
module Bytes {

  type Byte = x: int | 0 <= x < 256

  type Blob = seq<Byte>

  function BitXor(p: nat, q: nat): (r: nat)
    ensures r < 2
  {
    if p == q then 0 else 1
  }

  /** `a ^ b` on non-negative integers, bit by bit from the least significant end. */
  function Xor(a: nat, b: nat): nat
    decreases a + b
  {
    if a == 0 && b == 0 then 0
    else BitXor(a % 2, b % 2) + 2 * Xor(a / 2, b / 2)
  }

  /** Xor of two numbers given by their lowest bit and the rest. */
  lemma XorParts(p: nat, a: nat, q: nat, b: nat)
    requires p < 2 && q < 2
    ensures Xor(p + 2 * a, q + 2 * b) == BitXor(p, q) + 2 * Xor(a, b)
  {
    var l, r := p + 2 * a, q + 2 * b;
    assert l % 2 == p && l / 2 == a;
    assert r % 2 == q && r / 2 == b;
    if l == 0 && r == 0 {
      assert Xor(0, 0) == 0;
    }
  }

  lemma {:induction false} XorComm(a: nat, b: nat)
    ensures Xor(a, b) == Xor(b, a)
    decreases a + b
  {
    if a + b > 0 {
      XorComm(a / 2, b / 2);
    }
  }

  lemma {:induction false} XorAssoc(a: nat, b: nat, c: nat)
    ensures Xor(Xor(a, b), c) == Xor(a, Xor(b, c))
    decreases a + b + c
  {
    if a + b + c == 0 {
      assert Xor(0, 0) == 0;
    } else {
      XorAssoc(a / 2, b / 2, c / 2);
      XorAssocParts(a % 2, a / 2, b % 2, b / 2, c % 2, c / 2);
    }
  }

  lemma XorAssocParts(p: nat, a: nat, q: nat, b: nat, r: nat, c: nat)
    requires p < 2 && q < 2 && r < 2
    requires Xor(Xor(a, b), c) == Xor(a, Xor(b, c))
    ensures Xor(Xor(p + 2 * a, q + 2 * b), r + 2 * c) == Xor(p + 2 * a, Xor(q + 2 * b, r + 2 * c))
  {
    XorParts(p, a, q, b);
    XorParts(q, b, r, c);
    XorParts(BitXor(p, q), Xor(a, b), r, c);
    XorParts(p, a, BitXor(q, r), Xor(b, c));
  }

  lemma {:induction false} XorZero(a: nat)
    ensures Xor(a, 0) == a && Xor(0, a) == a
    decreases a
  {
    if a > 0 {
      XorZero(a / 2);
    }
  }

  lemma {:induction false} XorSelf(a: nat)
    ensures Xor(a, a) == 0
    decreases a
  {
    if a > 0 {
      XorSelf(a / 2);
    }
  }

  /** Doubling (a left shift) distributes over Xor. */
  lemma XorDouble(a: nat, b: nat)
    ensures Xor(2 * a, 2 * b) == 2 * Xor(a, b)
  {
    XorParts(0, a, 0, b);
  }

  /** (a ^ b) ^ (c ^ d) == (a ^ c) ^ (b ^ d) */
  lemma XorSwap(a: nat, b: nat, c: nat, d: nat)
    ensures Xor(Xor(a, b), Xor(c, d)) == Xor(Xor(a, c), Xor(b, d))
  {
    XorAssoc(a, b, Xor(c, d));
    XorAssoc(b, c, d);
    XorComm(b, c);
    XorAssoc(c, b, d);
    XorAssoc(a, c, Xor(b, d));
  }

  function Pow2(k: nat): (p: nat)
    ensures p > 0
  {
    if k == 0 then 1 else 2 * Pow2(k - 1)
  }

  /** Xor introduces no bit above the operands' highest bit. */
  lemma {:induction false} XorBound(a: nat, b: nat, k: nat)
    requires a < Pow2(k) && b < Pow2(k)
    ensures Xor(a, b) < Pow2(k)
    decreases k
  {
    if k > 0 {
      XorBound(a / 2, b / 2, k - 1);
    }
  }

  /** Bit k of a Xor, for operands with no bit above k. */
  lemma {:induction false} XorHighBit(a: nat, b: nat, k: nat)
    requires a < 2 * Pow2(k) && b < 2 * Pow2(k)
    ensures Xor(a, b) >= Pow2(k) <==> ((a >= Pow2(k)) != (b >= Pow2(k)))
    decreases k
  {
    if k == 0 {
      assert Xor(0, 0) == 0;
      assert Xor(1, 0) == 1 && Xor(0, 1) == 1 && Xor(1, 1) == 0;
    } else {
      XorParts(a % 2, a / 2, b % 2, b / 2);
      XorHighBit(a / 2, b / 2, k - 1);
    }
  }

  // ---------------------------------------------------------------- machine words

  /** Nine-bit machine words, the width of the table loop's intermediate `x2`. */
  type Word = bv9

  lemma WordHalf(x: Word)
    ensures (x >> 1) as int == (x as int) / 2
  {
  }

  lemma WordParity(x: Word)
    ensures (x & 1) as int == (x as int) % 2
  {
  }

  lemma WordXorParts(x: Word, y: Word)
    ensures (x ^ y) as int == BitXor(x as int % 2, y as int % 2) + 2 * ((x >> 1) ^ (y >> 1)) as int
  {
    WordHalf(x ^ y);
    WordParity(x);
    WordParity(y);
    WordParity(x ^ y);
    WordSplit(x, y);
  }

  lemma WordSplit(x: Word, y: Word)
    ensures ((x ^ y) >> 1) == (x >> 1) ^ (y >> 1)
    ensures ((x ^ y) & 1) as int == BitXor((x & 1) as int, (y & 1) as int)
  {
    assert (x & 1) == 0 || (x & 1) == 1;
    assert (y & 1) == 0 || (y & 1) == 1;
    assert (x ^ y) & 1 == (x & 1) ^ (y & 1);
  }

  ghost predicate Agree(x: Word, y: Word) {
    Xor(x as int, y as int) == (x ^ y) as int
  }

  /** Xor is the machine's exclusive-or. */
  lemma WordXor(x: Word, y: Word)
    ensures Xor(x as int, y as int) == (x ^ y) as int
  {
    WordsAgree(x, y, x as int + y as int);
  }

  lemma {:induction false} WordsAgree(x: Word, y: Word, n: nat)
    requires x as int + y as int <= n
    ensures Agree(x, y)
    decreases n
  {
    if n == 0 {
      WordZero(x, y);
    } else {
      WordLess(x, y, n);
      WordsAgree(x >> 1, y >> 1, n - 1);
      WordStep(x, y);
    }
  }

  lemma WordZero(x: Word, y: Word)
    requires x as int + y as int == 0
    ensures Agree(x, y)
  {
    assert x == 0 && y == 0;
    assert Xor(0, 0) == 0;
  }

  lemma WordStep(x: Word, y: Word)
    requires Agree(x >> 1, y >> 1)
    ensures Agree(x, y)
  {
    WordHalves(x, y);
    WordXorParts(x, y);
    Combine(x as int, y as int, (x ^ y) as int, ((x >> 1) ^ (y >> 1)) as int);
  }

  lemma WordLess(x: Word, y: Word, n: nat)
    requires n > 0 && x as int + y as int <= n
    ensures (x >> 1) as int + (y >> 1) as int <= n - 1
  {
    WordHalf(x);
    WordHalf(y);
  }

  lemma WordHalves(x: Word, y: Word)
    requires Agree(x >> 1, y >> 1)
    ensures Xor(x as int / 2, y as int / 2) == ((x >> 1) ^ (y >> 1)) as int
  {
    WordHalf(x);
    WordHalf(y);
  }

  lemma Combine(a: nat, b: nat, c: nat, k: nat)
    requires Xor(a / 2, b / 2) == k
    requires c == BitXor(a % 2, b % 2) + 2 * k
    ensures Xor(a, b) == c
  {
    XorParts(a % 2, a / 2, b % 2, b / 2);
  }
}
