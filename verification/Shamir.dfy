/** shamir.py: log/exp tables, evaluation, splitting and recombining. */
module Shamir {
  import opened Bytes
  import opened GaloisField
  import opened Generator
  import opened Polynomial

  /** The exceptions the module's functions raise. */
  datatype Error = ValueError | ZeroDivisionError | IndexError

  datatype Result<+T> = Ok(value: T) | Err(error: Error)

  /** A share (x, y): the point and one value per byte of the secret. */
  datatype Share = Share(x: Byte, y: Blob)

  // ---------------------------------------------------------------- what the functions compute

  /** The random bytes drawn for a secret of `len` bytes: k - 1 coefficients for each. */
  predicate Randomness(rand: seq<seq<Byte>>, len: nat, k: int) {
    && |rand| == len
    && forall b :: 0 <= b < len ==> |rand[b]| == k - 1
  }

  /** The share at point x: byte b is the value of the polynomial with constant term secret[b]. */
  function ShareAt(secret: Blob, rand: seq<seq<Byte>>, x: Byte): Share
    requires |rand| == |secret|
  {
    Share(x, seq(|secret|, b requires 0 <= b < |secret| => PowerSum([secret[b]] + rand[b], x)))
  }

  predicate AllZero(c: seq<Byte>) {
    forall j :: 0 <= j < |c| ==> c[j] == 0
  }

  /** No polynomial has a coefficient besides its constant term, as with k = 1. */
  predicate AllConstant(rand: seq<seq<Byte>>) {
    forall b :: 0 <= b < |rand| ==> AllZero(rand[b])
  }

  /** The bytes of the share at any point, in the field or, for constant polynomials, beyond it. */
  function RowAt(secret: Blob, rand: seq<seq<Byte>>, x: nat): (y: Blob)
    requires |rand| == |secret|
    ensures |y| == |secret|
  {
    if x < 256 then ShareAt(secret, rand, x).y else secret
  }

  lemma ZeroAdd(c: Byte)
    ensures Add(0, c) == c
  {
    AddComm(0, c);
    AddZero(c);
  }

  lemma HornerStep(result: Byte, x: nat, c: Byte)
    requires x < 256
    ensures Add(Mul(result, x), c) == Add(c, Mul(x, result))
  {
    hide *;
    MulComm(result, x);
    AddComm(Mul(result, x), c);
  }

  function Points(shares: seq<Share>): (xs: seq<Byte>)
    ensures |xs| == |shares|
    ensures forall i :: 0 <= i < |shares| ==> xs[i] == shares[i].x
  {
    seq(|shares|, i requires 0 <= i < |shares| => shares[i].x)
  }

  function Column(shares: seq<Share>, b: nat): (ys: seq<Byte>)
    requires forall s :: s in shares ==> b < |s.y|
    ensures |ys| == |shares|
    ensures forall i :: 0 <= i < |shares| ==> ys[i] == shares[i].y[b]
  {
    seq(|shares|, i requires 0 <= i < |shares| => shares[i].y[b])
  }

  /** The product of x_j over j < n, j != i. */
  function Numerator(xs: seq<Byte>, i: nat, n: nat): Byte
    requires i < |xs| && n <= |xs|
  {
    if n == 0 then 1
    else if n - 1 == i then Numerator(xs, i, n - 1)
    else Mul(Numerator(xs, i, n - 1), xs[n - 1])
  }

  /** The product of x_i - x_j over j < n, j != i. */
  function Denominator(xs: seq<Byte>, i: nat, n: nat): Byte
    requires i < |xs| && n <= |xs|
  {
    if n == 0 then 1
    else if n - 1 == i then Denominator(xs, i, n - 1)
    else Mul(Denominator(xs, i, n - 1), Add(xs[i], xs[n - 1]))
  }

  /** No term of the interpolation divides a non-zero numerator by zero. */
  predicate Divisible(xs: seq<Byte>) {
    forall i :: 0 <= i < |xs| ==> Numerator(xs, i, |xs|) == 0 || Denominator(xs, i, |xs|) != 0
  }

  /** The quotient _gf_div returns when it does not raise. */
  ghost function Quot(a: Byte, b: Byte): Byte
    requires a == 0 || b != 0
  {
    if a == 0 then 0 else Div(a, b)
  }

  ghost function Terms(xs: seq<Byte>, ys: seq<Byte>, n: nat): Byte
    requires |xs| == |ys| && n <= |xs| && Divisible(xs)
  {
    if n == 0 then 0
    else Add(Terms(xs, ys, n - 1),
             Mul(ys[n - 1], Quot(Numerator(xs, n - 1, |xs|), Denominator(xs, n - 1, |xs|))))
  }

  /** What combine_shares does with any list of shares, exceptions included. */
  ghost function Combined(shares: seq<Share>): Result<Blob> {
    if shares == [] then Err(IndexError)
    else
      var length := |shares[0].y|;
      if length == 0 then Ok([])
      else if exists s :: s in shares && s.y == [] then Err(IndexError)
      else if !Divisible(Points(shares)) then Err(ZeroDivisionError)
      else if exists s :: s in shares && |s.y| < length then Err(IndexError)
      else Ok(seq(length, b requires 0 <= b < length => Terms(Points(shares), Column(shares, b), |shares|)))
  }

  // ---------------------------------------------------------------- the tables and the code over them

  class GaloisTables {
    const exp: array<Byte>
    const log: array<nat>

    ghost predicate Valid()
      reads exp, log
    {
      && exp.Length == 512
      && log.Length == 256
      && (forall i :: 0 <= i < 512 ==> exp[i] == Exp(i))
      && (forall a: Byte :: a != 0 ==> log[a] == Log(a))
    }

    constructor ()
      ensures Valid() && fresh(exp) && fresh(log)
    {
      exp := new Byte[512](i => 0);
      log := new nat[256](i => 0);
      new;
      InitTables(exp, log);
    }

    /** _gf_mul */
    function GfMul(a: Byte, b: Byte): (r: Byte)
      requires Valid()
      reads exp, log
      ensures r == Mul(a, b)
    {
      MulZero(a);
      MulZero(b);
      if a == 0 || b == 0 then 0
      else
        ExpAdd(Log(a), Log(b));
        exp[log[a] + log[b]]
    }

    /** _gf_div */
    function GfDiv(a: Byte, b: Byte): (r: Result<Byte>)
      requires Valid()
      reads exp, log
      ensures r == if a != 0 && b == 0 then Err(ZeroDivisionError) else Ok(Quot(a, b))
    {
      if a == 0 then Ok(0)
      else if b == 0 then Err(ZeroDivisionError)
      else
        LogQuotient(a, b);
        Ok(exp[(log[a] as int - log[b]) % 255])
    }

    /** _gf_mul with a point beyond the field: its logarithm is looked up outside the table. */
    function GfMulAt(a: Byte, x: nat): (r: Result<Byte>)
      requires Valid()
      reads exp, log
      ensures r == if a != 0 && x >= 256 then Err(IndexError) else Ok(if x < 256 then Mul(a, x) else 0)
    {
      if x < log.Length then Ok(GfMul(a, x))
      else if a == 0 then Ok(0)
      else Err(IndexError)
    }

    /** _eval_poly: Horner's rule from the highest coefficient down. */
    method EvalPoly(coeffs: seq<Byte>, x: nat) returns (r: Result<Byte>)
      requires Valid() && coeffs != []
      ensures x < 256 ==> r == Ok(PowerSum(coeffs, x))
      ensures x >= 256 ==> r == if AllZero(coeffs[1..]) then Ok(coeffs[0]) else Err(IndexError)
    {
      hide Mul, Add, Exp;
      var result: Byte := 0;
      for i := |coeffs| downto 0
        invariant x < 256 ==> result == Value(coeffs[i..], x)
        invariant x >= 256 ==> result == if i < |coeffs| then coeffs[i] else 0
        invariant x >= 256 ==> forall j :: i < j < |coeffs| ==> coeffs[j] == 0
      {
        var product := GfMulAt(result, x);
        if product.Err? {
          assert coeffs[1..][i] == result;
          return Err(product.error);
        }
        assert coeffs[i..][1..] == coeffs[i + 1..];
        if x < 256 {
          HornerStep(result, x, coeffs[i]);
        } else {
          ZeroAdd(coeffs[i]);
        }
        result := Add(product.value, coeffs[i]);
      }
      assert coeffs[0..] == coeffs;
      if x < 256 {
        ValueIsPowerSum(coeffs, x);
      }
      r := Ok(result);
    }

    /** split_secret; the random bytes are an argument.  Its table ends at 255: beyond that a share
        of anything but a constant polynomial cannot be computed. */
    method SplitSecret(secret: Blob, k: int, n: int, rand: seq<seq<Byte>>) returns (r: Result<seq<(nat, Blob)>>)
      requires Valid() && (1 <= k <= n ==> Randomness(rand, |secret|, k))
      ensures r == Err(ValueError) <==> !(1 <= k <= n)
      ensures r == Err(IndexError) <==> 1 <= k <= n && n > 255 && !AllConstant(rand)
      ensures r.Err? ==> r.error != ZeroDivisionError
      ensures r.Ok? ==> |r.value| == n
      ensures r.Ok? ==> forall i :: 0 <= i < n ==> r.value[i] == (i + 1, RowAt(secret, rand, i + 1))
    {
      if !(1 <= k <= n) {
        return Err(ValueError);
      }
      var sharesY, done := FillRows(secret, n, rand);
      if !done {
        return Err(IndexError);
      }
      hide *;
      var shares := [];
      for i := 0 to n
        invariant |shares| == i
        invariant forall j :: 0 <= j < i ==> shares[j] == (j + 1, RowAt(secret, rand, j + 1))
      {
        var y := seq(|secret|, c requires 0 <= c < |secret| reads sharesY => sharesY[i, c]);
        assert y == RowAt(secret, rand, i + 1);
        shares := shares + [(i + 1, y)];
      }
      r := Ok(shares);
    }

    /** The loops over the bytes and the points. */
    method FillRows(secret: Blob, n: nat, rand: seq<seq<Byte>>) returns (sharesY: array2<Byte>, done: bool)
      requires Valid() && |rand| == |secret|
      ensures done <==> n <= 255 || AllConstant(rand)
      ensures sharesY.Length0 == n && sharesY.Length1 == |secret|
      ensures done ==> forall i, c :: 0 <= i < n && 0 <= c < |secret| ==> sharesY[i, c] == RowAt(secret, rand, i + 1)[c]
    {
      hide PowerSum, RowAt, AllZero;
      sharesY := new Byte[n, |secret|];
      for b := 0 to |secret|
        invariant forall i, c :: 0 <= i < n && 0 <= c < b ==> sharesY[i, c] == RowAt(secret, rand, i + 1)[c]
        invariant n > 255 ==> forall c :: 0 <= c < b ==> AllZero(rand[c])
      {
        for i := 0 to n
          invariant forall j :: 0 <= j < i ==> sharesY[j, b] == RowAt(secret, rand, j + 1)[b]
          invariant forall j, c :: 0 <= j < n && 0 <= c < b ==> sharesY[j, c] == RowAt(secret, rand, j + 1)[c]
          invariant i > 255 ==> AllZero(rand[b])
        {
          var value := EvalAt(secret, rand, i + 1, b);
          if value.Err? {
            return sharesY, false;
          }
          sharesY[i, b] := value.value;
        }
      }
      done := true;
    }

    method EvalAt(secret: Blob, rand: seq<seq<Byte>>, x: nat, b: nat) returns (r: Result<Byte>)
      requires Valid() && |rand| == |secret| && b < |secret|
      ensures r == if x < 256 || AllZero(rand[b]) then Ok(RowAt(secret, rand, x)[b]) else Err(IndexError)
    {
      var coeffs := [secret[b]] + rand[b];
      assert coeffs[1..] == rand[b];
      hide PowerSum, AllZero;
      r := EvalPoly(coeffs, x);
    }

    /** The loop body of combine_shares: one byte of the secret from the points (x, y[b]). */
    method InterpolateByte(xs: seq<Byte>, ys: seq<Byte>) returns (r: Result<Byte>)
      requires Valid() && |xs| == |ys|
      ensures r == if Divisible(xs) then Ok(Terms(xs, ys, |xs|)) else Err(ZeroDivisionError)
    {
      hide Mul, Add, Exp;
      var n := |xs|;
      var secretByte: Byte := 0;
      for i := 0 to n
        invariant forall j :: 0 <= j < i ==> Numerator(xs, j, n) == 0 || Denominator(xs, j, n) != 0
        invariant Divisible(xs) ==> secretByte == Terms(xs, ys, i)
      {
        var num: Byte, den: Byte := 1, 1;
        for j := 0 to n
          invariant num == Numerator(xs, i, j) && den == Denominator(xs, i, j)
        {
          if i != j {
            num := GfMul(num, xs[j]);
            den := GfMul(den, Add(xs[i], xs[j]));
          }
        }
        var quotient := GfDiv(num, den);
        if quotient.Err? {
          return Err(quotient.error);
        }
        secretByte := Add(secretByte, GfMul(ys[i], quotient.value));
      }
      r := Ok(secretByte);
    }

    /** combine_shares: Lagrange interpolation at 0, byte by byte. */
    method CombineShares(shares: seq<Share>) returns (r: Result<Blob>)
      requires Valid()
      ensures r == Combined(shares)
    {
      if shares == [] {
        return Err(IndexError);
      }
      hide Terms, Divisible, Combined, Column, Points, SoFar, Mul, Add, Exp, Div;
      var length := |shares[0].y|;
      var xs := Points(shares);
      var out: Blob := [];
      NothingYet(shares);
      for b := 0 to length
        invariant |out| == b && SoFar(shares, out)
      {
        if exists s :: s in shares && |s.y| <= b {
          CombinedShort(shares, out);
          return Err(IndexError);
        }
        var secretByte := InterpolateByte(xs, Column(shares, b));
        if secretByte.Err? {
          CombinedDivision(shares);
          return Err(ZeroDivisionError);
        }
        assert ByteIs(shares, b, secretByte.value);
        OneMore(shares, out, secretByte.value);
        out := out + [secretByte.value];
      }
      CombinedOk(shares, out);
      r := Ok(out);
    }
  }

  ghost predicate AllReach(shares: seq<Share>, n: nat) {
    forall s :: s in shares ==> n <= |s.y|
  }

  /** The bytes recombined so far. */
  ghost predicate SoFar(shares: seq<Share>, out: Blob) {
    && (out != [] ==> Divisible(Points(shares)))
    && AllReach(shares, |out|)
    && (forall b :: 0 <= b < |out| ==> ByteIs(shares, b, out[b]))
  }

  ghost predicate ByteIs(shares: seq<Share>, b: nat, value: Byte) {
    && Divisible(Points(shares)) && AllReach(shares, b + 1)
    && value == Terms(Points(shares), Column(shares, b), |shares|)
  }

  lemma NothingYet(shares: seq<Share>)
    ensures SoFar(shares, [])
  {
  }

  lemma OneMore(shares: seq<Share>, out: Blob, next: Byte)
    requires SoFar(shares, out) && ByteIs(shares, |out|, next)
    ensures SoFar(shares, out + [next])
  {
    assert Divisible(Points(shares)) && AllReach(shares, |out| + 1);
    hide ByteIs, Divisible, Points, AllReach;
    var more := out + [next];
    forall b | 0 <= b < |more|
      ensures ByteIs(shares, b, more[b])
    {
      assert more[b] == if b < |out| then out[b] else next;
    }
  }

  lemma CombinedShort(shares: seq<Share>, out: Blob)
    requires shares != [] && |out| < |shares[0].y| && SoFar(shares, out)
    requires exists s :: s in shares && |s.y| <= |out|
    ensures Combined(shares) == Err(IndexError)
  {
    hide Terms, Divisible;
  }

  lemma CombinedDivision(shares: seq<Share>)
    requires shares != [] && forall s :: s in shares ==> |s.y| > 0
    requires !Divisible(Points(shares))
    ensures Combined(shares) == Err(ZeroDivisionError)
  {
    assert shares[0] in shares;
    hide Terms, Divisible;
  }

  lemma CombinedOk(shares: seq<Share>, out: Blob)
    requires shares != [] && |out| == |shares[0].y| && SoFar(shares, out)
    ensures Combined(shares) == Ok(out)
  {
    hide Terms, Divisible;
    if |out| > 0 {
      var spec := Combined(shares);
      assert spec.Ok? && spec.value == out;
    }
  }

  /** _init_tables: step through the powers of 3, recording each and its inverse. */
  method InitTables(exp: array<Byte>, log: array<nat>)
    requires exp.Length == 512 && log.Length == 256
    modifies exp, log
    ensures forall i :: 0 <= i < 512 ==> exp[i] == Exp(i)
    ensures forall a: Byte :: a != 0 ==> log[a] == Log(a)
  {
    ExpZero();
    hide Exp, Mul;
    var x: Byte := 1;
    for i := 0 to ORDER
      invariant x == Exp(i)
      invariant forall j :: 0 <= j < i ==> exp[j] == Exp(j)
      invariant forall j :: 0 <= j < i ==> log[Exp(j)] == j
    {
      FreshPower(i);
      exp[i] := x;
      log[x] := i;
      x := Triple(x);
      NextPower(i);
    }
    for i := ORDER to 512
      invariant forall j :: 0 <= j < i ==> exp[j] == Exp(j)
      invariant forall j :: 0 <= j < ORDER ==> log[Exp(j)] == j
    {
      exp[i] := exp[i - ORDER];
      ExpModulo(i - ORDER, 1);
    }
    FillLog(log);
  }

  lemma FreshPower(i: nat)
    requires i < ORDER
    ensures forall j :: 0 <= j < i ==> Exp(j) != Exp(i)
  {
    hide Exp;
    forall j | 0 <= j < i ensures Exp(j) != Exp(i) {
      if Exp(j) == Exp(i) {
        ExpInjective(j, i);
      }
    }
  }

  /** x2 = x << 1; if x2 & 0x100: x2 ^= 0x11B; x = x2 ^ x; x &= 0xFF */
  method Triple(x: Byte) returns (r: Byte)
    ensures r == Mul(GENERATOR, x)
  {
    hide Xor, Mul;
    var x2: nat := 2 * x;
    if x2 >= 0x100 {
      x2 := Xor(x2, MODULUS);
    }
    TripleIsMul(x);
    r := Xor(x2, x) % 256;
  }

  lemma TripleIsMul(x: Byte)
    ensures Mul(GENERATOR, x) == Add(XTime(x), x)
  {
    MulComm(3, x);
    MulOne(x);
    MulStep(x, 3);
    AddComm(XTime(x), x);
  }

  lemma NextPower(i: nat)
    ensures Exp(i + 1) == Mul(GENERATOR, Exp(i))
  {
  }

  lemma FillLog(log: array<nat>)
    requires log.Length == 256
    requires forall j :: 0 <= j < ORDER ==> log[Exp(j)] == j
    ensures forall a: Byte :: a != 0 ==> log[a] == Log(a)
  {
    hide Exp;
    forall a: Byte | a != 0 ensures log[a] == Log(a) {
      var j := Log(a);
      assert log[Exp(j)] == j;
    }
  }

  lemma LogQuotient(a: Byte, b: Byte)
    requires a != 0 && b != 0
    ensures Exp((Log(a) as int - Log(b)) % 255) == Div(a, b)
  {
    hide Exp, Mul, Div;
    var la, lb := Log(a), Log(b);
    var m: nat := (la as int - lb) % 255;
    LogDifference(la, lb);
    ExpAdd(m, lb);
    if m + lb != la {
      ExpModulo(la, 1);
    }
    DivUnique(Exp(m), a, b);
  }

  lemma LogDifference(la: nat, lb: nat)
    requires la < 255 && lb < 255
    ensures var m := (la as int - lb) % 255; m + lb == la || m + lb == la + 255
  {
  }

  // ---------------------------------------------------------------- when recombining succeeds

  lemma {:induction false} NumeratorZero(xs: seq<Byte>, i: nat, n: nat)
    requires i < |xs| && n <= |xs|
    ensures Numerator(xs, i, n) == 0 <==> exists j :: 0 <= j < n && j != i && xs[j] == 0
    decreases n
  {
    hide Mul, Exp;
    if n > 0 {
      NumeratorZero(xs, i, n - 1);
      NoZeroDivisors(Numerator(xs, i, n - 1), xs[n - 1]);
    }
  }

  lemma {:induction false} DenominatorZero(xs: seq<Byte>, i: nat, n: nat)
    requires i < |xs| && n <= |xs|
    ensures Denominator(xs, i, n) == 0 <==> exists j :: 0 <= j < n && j != i && xs[j] == xs[i]
    decreases n
  {
    hide Mul, Exp;
    if n > 0 {
      DenominatorZero(xs, i, n - 1);
      AddZeroIffEqual(xs[i], xs[n - 1]);
      NoZeroDivisors(Denominator(xs, i, n - 1), Add(xs[i], xs[n - 1]));
    }
  }

  /** The interpolation raises exactly when a point is repeated and no point is 0. */
  lemma DivisibleIff(xs: seq<Byte>)
    ensures Divisible(xs) <==> Distinct(xs) || 0 in xs
  {
    forall i | 0 <= i < |xs|
      ensures Numerator(xs, i, |xs|) == 0 <==> exists j :: 0 <= j < |xs| && j != i && xs[j] == 0
      ensures Denominator(xs, i, |xs|) == 0 <==> exists j :: 0 <= j < |xs| && j != i && xs[j] == xs[i]
    {
      NumeratorZero(xs, i, |xs|);
      DenominatorZero(xs, i, |xs|);
    }
    hide Numerator, Denominator;
    if !Distinct(xs) && 0 !in xs {
      var i, j :| 0 <= i < j < |xs| && xs[i] == xs[j];
      assert Denominator(xs, i, |xs|) == 0;
    }
  }

  /** Which lists of shares cannot be recombined, and with which exception: none, or one shorter than
      the first where it is reached, or points that cannot be divided. */
  lemma CombineRaisesExactly(shares: seq<Share>)
    ensures var xs := Points(shares);
      && (Combined(shares) == Err(ZeroDivisionError) <==>
            shares != [] && (forall s :: s in shares ==> s.y != []) && !Distinct(xs) && 0 !in xs)
      && (Combined(shares) == Err(IndexError) <==>
            shares == []
            || (shares[0].y != []
                && exists s :: s in shares && (s.y == [] || (|s.y| < |shares[0].y| && (Distinct(xs) || 0 in xs)))))
      && Combined(shares) != Err(ValueError)
      && (Combined(shares).Ok? ==> |Combined(shares).value| == |shares[0].y|)
  {
    DivisibleIff(Points(shares));
    assert shares != [] ==> shares[0] in shares;
    hide Divisible, Terms, Distinct;
  }

  // ---------------------------------------------------------------- any k shares give the secret back

  lemma {:induction false} QuotIsBasis(xs: seq<Byte>, i: nat, n: nat)
    requires i < |xs| && n <= |xs| && Distinct(xs)
    ensures Denominator(xs, i, n) != 0
    ensures Numerator(xs, i, n) == Mul(Basis(xs, i, 0, n), Denominator(xs, i, n))
    decreases n
  {
    hide Mul, Add, Exp;
    if n == 0 {
      MulOne(1);
    } else {
      QuotIsBasis(xs, i, n - 1);
      var num, den, basis := Numerator(xs, i, n - 1), Denominator(xs, i, n - 1), Basis(xs, i, 0, n - 1);
      if n - 1 == i {
        MulOne(basis);
      } else {
        var x, d, f := xs[n - 1], Add(xs[i], xs[n - 1]), Factor(xs, i, n - 1);
        AddZeroIffEqual(xs[i], x);
        NoZeroDivisors(den, d);
        DivUnique(f, x, d);
        hide Div, Factor;
        // (basis * den) * (f * d) == (basis * f) * (den * d)
        MulAssoc(basis, den, Mul(f, d));
        MulSwap(den, f, d);
        MulAssoc(basis, f, Mul(den, d));
      }
    }
  }

  lemma {:induction false} TermsAreWeighted(xs: seq<Byte>, ys: seq<Byte>, n: nat)
    requires |xs| == |ys| && n <= |xs| && Distinct(xs) && Divisible(xs)
    ensures Terms(xs, ys, n) == Weighted(xs, ys, 0, n, 0, |xs|)
    decreases n
  {
    hide Mul, Add, Exp, Basis;
    if n > 0 {
      TermsAreWeighted(xs, ys, n - 1);
      var num, den := Numerator(xs, n - 1, |xs|), Denominator(xs, n - 1, |xs|);
      QuotIsBasis(xs, n - 1, |xs|);
      DivUnique(Basis(xs, n - 1, 0, |xs|), num, den);
      NoZeroDivisors(Basis(xs, n - 1, 0, |xs|), den);
    }
  }

  /** combine_shares, given k or more shares at distinct points of a secret split with
      threshold k, returns exactly the secret: for every secret, every choice of random
      coefficients, every threshold and every selection of the points. */
  lemma AnySharesReconstruct(secret: Blob, rand: seq<seq<Byte>>, k: nat, xs: seq<Byte>, shares: seq<Share>)
    requires 1 <= k <= |xs| && Distinct(xs) && Randomness(rand, |secret|, k)
    requires |shares| == |xs| && forall i :: 0 <= i < |xs| ==> shares[i] == ShareAt(secret, rand, xs[i])
    ensures Combined(shares) == Ok(secret)
  {
    assert Points(shares) == xs;
    DivisibleIff(xs);
    hide Divisible, Terms, Combined, PowerSum;
    forall b | 0 <= b < |secret| ensures secret[b] == Terms(xs, Column(shares, b), |xs|) {
      var p := [secret[b]] + rand[b];
      var ys := Column(shares, b);
      forall i | 0 <= i < |xs| ensures ys[i] == Value(p, xs[i]) {
        ValueIsPowerSum(p, xs[i]);
      }
      assert ys == Values(p, xs);
      Interpolation(p, xs, 0, |xs|);
      TermsAreWeighted(xs, ys, |xs|);
      ValueAtZero(p);
    }
    CombinedOk(shares, secret);
  }
}
