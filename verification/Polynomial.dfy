/** Polynomials over GF(2^8), as coefficient sequences with the constant term first, and
    Lagrange interpolation at 0. */
module Polynomial {
  import opened Bytes
  import opened GaloisField
  import opened Generator

  /** Horner evaluation, from the constant term outwards. */
  function Value(p: seq<Byte>, x: Byte): Byte {
    if p == [] then 0 else Add(p[0], Mul(x, Value(p[1..], x)))
  }

  /** The sum of p[i] * x^i, which is what evaluating a polynomial means. */
  function PowerSum(p: seq<Byte>, x: Byte): Byte {
    if p == [] then 0
    else
      var n := |p| - 1;
      Add(PowerSum(p[..n], x), Mul(p[n], Power(x, n)))
  }

  lemma {:induction false} PowerSumShift(p: seq<Byte>, x: Byte)
    requires p != []
    ensures PowerSum(p, x) == Add(p[0], Mul(x, PowerSum(p[1..], x)))
  {
    hide Mul, Add;
    var n := |p| - 1;
    if n == 0 {
      assert p[..0] == [] && p[1..] == [];
      MulOne(p[0]);
      MulZero(x);
      AddComm(p[0], 0);
    } else {
      var front, tail := p[..n], p[1..];
      var s := PowerSum(front[1..], x);
      PowerSumShift(front, x);
      assert tail[..n - 1] == front[1..];
      assert tail[n - 1] == p[n];
      var last := Mul(p[n], Power(x, n - 1));
      calc {
        Mul(p[n], Power(x, n));
        { MulSwap(p[n], x, Power(x, n - 1)); }
        Mul(x, last);
      }
      MulAdditiveRight(x, s, last);
      AddAssoc(p[0], Mul(x, s), Mul(x, last));
    }
  }

  lemma {:induction false} ValueIsPowerSum(p: seq<Byte>, x: Byte)
    ensures Value(p, x) == PowerSum(p, x)
  {
    hide Mul, Add;
    if p != [] {
      ValueIsPowerSum(p[1..], x);
      PowerSumShift(p, x);
    }
  }

  lemma ValueAtZero(p: seq<Byte>)
    ensures Value(p, 0) == if p == [] then 0 else p[0]
  {
    if p != [] {
      MulZero(Value(p[1..], 0));
      AddZero(p[0]);
    }
  }

  // ---------------------------------------------------------------- division by a linear factor

  /** The quotient of p by (x - r). */
  function Quotient(p: seq<Byte>, r: Byte): (q: seq<Byte>)
    ensures |q| == if p == [] then 0 else |p| - 1
  {
    if |p| <= 1 then [] else [Value(p[1..], r)] + Quotient(p[1..], r)
  }

  lemma {:induction false} Division(p: seq<Byte>, r: Byte, x: Byte)
    ensures Value(p, x) == Add(Value(p, r), Mul(Add(x, r), Value(Quotient(p, r), x)))
  {
    hide Mul, Add;
    if p == [] {
      MulZero(Add(x, r));
      AddZero(0);
    } else if |p| == 1 {
      assert p[1..] == [];
      MulZero(Add(x, r));
      MulZero(x);
      MulZero(r);
      AddZero(Value(p, r));
    } else {
      var tail := p[1..];
      var t, u, q := Value(tail, x), Value(tail, r), Value(Quotient(tail, r), x);
      Division(tail, r, x);
      assert Quotient(p, r)[1..] == Quotient(tail, r);
      DivisionStep(p[0], x, r, t, u, q);
    }
  }

  lemma DivisionStep(c: Byte, x: Byte, r: Byte, t: Byte, u: Byte, q: Byte)
    requires t == Add(u, Mul(Add(x, r), q))
    ensures Add(c, Mul(x, t)) == Add(Add(c, Mul(r, u)), Mul(Add(x, r), Add(u, Mul(x, q))))
  {
    hide Mul, Add;
    var d := Add(x, r);
    // x t == x u + d (x q)  and  d u == x u + r u
    MulAdditiveRight(x, u, Mul(d, q));
    MulSwap(x, d, q);
    MulAdditiveRight(d, u, Mul(x, q));
    MulAdditiveLeft(x, r, u);
    var xu, ru, dxq := Mul(x, u), Mul(r, u), Mul(d, Mul(x, q));
    // c + (xu + dxq) == (c + ru) + ((xu + ru) + dxq)
    calc {
      Add(Add(c, ru), Add(Add(xu, ru), dxq));
      { AddComm(xu, ru); AddAssoc(ru, xu, dxq); }
      Add(Add(c, ru), Add(ru, Add(xu, dxq)));
      { AddAssoc(Add(c, ru), ru, Add(xu, dxq)); AddCancel(c, ru); }
      Add(c, Add(xu, dxq));
    }
  }

  // ---------------------------------------------------------------- interpolation at 0

  ghost predicate Distinct(xs: seq<Byte>) {
    forall i, j :: 0 <= i < j < |xs| ==> xs[i] != xs[j]
  }

  /** One factor x_j / (x_i - x_j) of a Lagrange basis polynomial at 0; 1 for j == i. */
  ghost function Factor(xs: seq<Byte>, i: nat, j: nat): Byte
    requires i < |xs| && j < |xs| && Distinct(xs)
  {
    if i == j then 1 else AddZeroIffEqual(xs[i], xs[j]); Div(xs[j], Add(xs[i], xs[j]))
  }

  /** Basis polynomial i for the window xs[lo..hi], at 0. */
  ghost function Basis(xs: seq<Byte>, i: nat, lo: nat, hi: nat): Byte
    requires i < |xs| && lo <= hi <= |xs| && Distinct(xs)
    decreases hi - lo
  {
    if lo == hi then 1 else Mul(Basis(xs, i, lo, hi - 1), Factor(xs, i, hi - 1))
  }

  lemma {:induction false} BasisFirst(xs: seq<Byte>, i: nat, lo: nat, hi: nat)
    requires i < |xs| && lo < hi <= |xs| && Distinct(xs)
    ensures Basis(xs, i, lo, hi) == Mul(Factor(xs, i, lo), Basis(xs, i, lo + 1, hi))
    decreases hi - lo
  {
    hide Mul, Factor;
    if hi == lo + 1 {
      MulComm(1, Factor(xs, i, lo));
    } else {
      BasisFirst(xs, i, lo, hi - 1);
      MulAssoc(Factor(xs, i, lo), Basis(xs, i, lo + 1, hi - 1), Factor(xs, i, hi - 1));
    }
  }

  /** The sum of ys[i] * Basis(i) over i in [a, b), with bases for the window [lo, hi). */
  ghost function Weighted(xs: seq<Byte>, ys: seq<Byte>, a: nat, b: nat, lo: nat, hi: nat): Byte
    requires |ys| == |xs| && a <= b <= |xs| && lo <= hi <= |xs| && Distinct(xs)
    decreases b - a
  {
    if a == b then 0
    else Add(Weighted(xs, ys, a, b - 1, lo, hi), Mul(ys[b - 1], Basis(xs, b - 1, lo, hi)))
  }

  lemma {:induction false} WeightedFirst(xs: seq<Byte>, ys: seq<Byte>, a: nat, b: nat, lo: nat, hi: nat)
    requires |ys| == |xs| && a < b <= |xs| && lo <= hi <= |xs| && Distinct(xs)
    ensures Weighted(xs, ys, a, b, lo, hi)
         == Add(Mul(ys[a], Basis(xs, a, lo, hi)), Weighted(xs, ys, a + 1, b, lo, hi))
    decreases b - a
  {
    hide Mul, Add, Basis;
    var first := Mul(ys[a], Basis(xs, a, lo, hi));
    if b == a + 1 {
      AddComm(0, first);
    } else {
      WeightedFirst(xs, ys, a, b - 1, lo, hi);
      AddAssoc(first, Weighted(xs, ys, a + 1, b - 1, lo, hi), Mul(ys[b - 1], Basis(xs, b - 1, lo, hi)));
    }
  }

  lemma {:induction false} WeightedAdd(xs: seq<Byte>, ys: seq<Byte>, zs: seq<Byte>, ws: seq<Byte>, a: nat, b: nat,
                                       lo: nat, hi: nat)
    requires |ys| == |zs| == |ws| == |xs| && a <= b <= |xs| && lo <= hi <= |xs| && Distinct(xs)
    requires forall i :: a <= i < b ==> ws[i] == Add(ys[i], zs[i])
    ensures Weighted(xs, ws, a, b, lo, hi) == Add(Weighted(xs, ys, a, b, lo, hi), Weighted(xs, zs, a, b, lo, hi))
    decreases b - a
  {
    hide Mul, Add, Basis;
    if a == b {
      AddZero(0);
    } else {
      WeightedAdd(xs, ys, zs, ws, a, b - 1, lo, hi);
      var l := Basis(xs, b - 1, lo, hi);
      MulAdditiveLeft(ys[b - 1], zs[b - 1], l);
      AddSwap(Weighted(xs, ys, a, b - 1, lo, hi), Weighted(xs, zs, a, b - 1, lo, hi), 
              Mul(ys[b - 1], l), Mul(zs[b - 1], l));
    }
  }

  lemma {:induction false} WeightedScale(xs: seq<Byte>, c: Byte, ys: seq<Byte>, ws: seq<Byte>, a: nat, b: nat,
                                         lo: nat, hi: nat)
    requires |ys| == |ws| == |xs| && a <= b <= |xs| && lo <= hi <= |xs| && Distinct(xs)
    requires forall i :: a <= i < b ==> ws[i] == Mul(c, ys[i])
    ensures Weighted(xs, ws, a, b, lo, hi) == Mul(c, Weighted(xs, ys, a, b, lo, hi))
    decreases b - a
  {
    hide Mul, Add, Basis;
    if a == b {
      MulZero(c);
    } else {
      WeightedScale(xs, c, ys, ws, a, b - 1, lo, hi);
      var l := Basis(xs, b - 1, lo, hi);
      MulAssoc(c, ys[b - 1], l);
      MulAdditiveRight(c, Weighted(xs, ys, a, b - 1, lo, hi), Mul(ys[b - 1], l));
    }
  }

  /** (x_i - x_r) z * x_r / (x_i - x_r) == x_r z */
  lemma FactorCancels(xs: seq<Byte>, i: nat, r: nat, z: Byte, rest: Byte)
    requires i < |xs| && r < |xs| && i != r && Distinct(xs)
    ensures Mul(Mul(Add(xs[i], xs[r]), z), Mul(rest, Factor(xs, i, r))) == Mul(xs[r], Mul(z, rest))
  {
    var d, x := Add(xs[i], xs[r]), xs[r];
    AddZeroIffEqual(xs[i], xs[r]);
    var f := Factor(xs, i, r);
    DivUnique(f, x, d);
    hide Mul, Add, Factor, Div;
    calc {
      Mul(Mul(d, z), Mul(rest, f));
      { MulComm(rest, f); MulComm(d, z); MulAssoc(z, d, Mul(f, rest)); MulAssoc(d, f, rest); MulComm(d, f); }
      Mul(z, Mul(x, rest));
      { MulSwap(z, x, rest); }
      Mul(x, Mul(z, rest));
    }
  }

  /** Values that vanish at the last point of the window reduce to the window without it. */
  lemma {:induction false} DropLast(xs: seq<Byte>, zs: seq<Byte>, ws: seq<Byte>, a: nat, lo: nat, hi: nat)
    requires |zs| == |ws| == |xs| && lo <= a < hi <= |xs| && Distinct(xs)
    requires forall i :: lo <= i < hi ==> ws[i] == Mul(Add(xs[i], xs[hi - 1]), zs[i])
    ensures Weighted(xs, ws, lo, a, lo, hi) == Mul(xs[hi - 1], Weighted(xs, zs, lo, a, lo, hi - 1))
    decreases a
  {
    hide Mul, Add, Factor;
    if a == lo {
      MulZero(xs[hi - 1]);
    } else {
      DropLast(xs, zs, ws, a - 1, lo, hi);
      var rest := Basis(xs, a - 1, lo, hi - 1);
      FactorCancels(xs, a - 1, hi - 1, zs[a - 1], rest);
      MulAdditiveRight(xs[hi - 1], Weighted(xs, zs, lo, a - 1, lo, hi - 1), Mul(zs[a - 1], rest));
    }
  }

  /** The term of the last point itself vanishes. */
  lemma DropLastTerm(xs: seq<Byte>, zs: seq<Byte>, ws: seq<Byte>, lo: nat, hi: nat)
    requires |zs| == |ws| == |xs| && lo < hi <= |xs| && Distinct(xs)
    requires forall i :: lo <= i < hi ==> ws[i] == Mul(Add(xs[i], xs[hi - 1]), zs[i])
    ensures Weighted(xs, ws, lo, hi, lo, hi) == Mul(xs[hi - 1], Weighted(xs, zs, lo, hi - 1, lo, hi - 1))
  {
    hide *;
    DropLast(xs, zs, ws, hi - 1, lo, hi);
    WeightedLast(xs, ws, lo, hi);
    VanishingTerm(xs[hi - 1], zs[hi - 1], Basis(xs, hi - 1, lo, hi), Weighted(xs, ws, lo, hi - 1, lo, hi));
  }

  lemma VanishingTerm(r: Byte, z: Byte, weight: Byte, sum: Byte)
    ensures Add(sum, Mul(Mul(Add(r, r), z), weight)) == sum
  {
    hide *;
    AddSelf(r);
    MulZero(z);
    MulZero(weight);
    AddZero(sum);
  }

  lemma WeightedLast(xs: seq<Byte>, ws: seq<Byte>, lo: nat, hi: nat)
    requires |ws| == |xs| && lo < hi <= |xs| && Distinct(xs)
    ensures Weighted(xs, ws, lo, hi, lo, hi)
         == Add(Weighted(xs, ws, lo, hi - 1, lo, hi), Mul(ws[hi - 1], Basis(xs, hi - 1, lo, hi)))
  {
    hide Mul, Add, Basis;
  }

  lemma {:induction false} DropFirst(xs: seq<Byte>, zs: seq<Byte>, ws: seq<Byte>, b: nat, lo: nat, hi: nat)
    requires |zs| == |ws| == |xs| && lo < b <= hi <= |xs| && Distinct(xs)
    requires forall i :: lo <= i < hi ==> ws[i] == Mul(Add(xs[i], xs[lo]), zs[i])
    ensures Weighted(xs, ws, lo + 1, b, lo, hi) == Mul(xs[lo], Weighted(xs, zs, lo + 1, b, lo + 1, hi))
    decreases b
  {
    hide Mul, Add, Factor, Basis;
    if b == lo + 1 {
      MulZero(xs[lo]);
    } else {
      DropFirst(xs, zs, ws, b - 1, lo, hi);
      var rest := Basis(xs, b - 1, lo + 1, hi);
      BasisFirst(xs, b - 1, lo, hi);
      MulComm(Factor(xs, b - 1, lo), rest);
      FactorCancels(xs, b - 1, lo, zs[b - 1], rest);
      MulAdditiveRight(xs[lo], Weighted(xs, zs, lo + 1, b - 1, lo + 1, hi), Mul(zs[b - 1], rest));
    }
  }

  ghost function Constant(c: Byte, n: nat): seq<Byte> {
    seq(n, i => c)
  }

  /** The values x_i - c. */
  ghost function Shifted(xs: seq<Byte>, c: Byte): (s: seq<Byte>)
    ensures |s| == |xs|
    ensures forall i :: 0 <= i < |xs| ==> s[i] == Add(xs[i], c)
  {
    seq(|xs|, i requires 0 <= i < |xs| => Add(xs[i], c))
  }

  /** The basis polynomials sum to 1. */
  lemma {:induction false} PartitionOfUnity(xs: seq<Byte>, lo: nat, hi: nat)
    requires lo < hi <= |xs| && Distinct(xs)
    ensures Weighted(xs, Constant(1, |xs|), lo, hi, lo, hi) == 1
    decreases hi - lo
  {
    var ones := Constant(1, |xs|);
    if hi == lo + 1 {
      assert Basis(xs, lo, lo, lo) == 1;
      assert Factor(xs, lo, lo) == 1;
      MulOne(1);
      AddZero(1);
      assert Weighted(xs, ones, lo, lo, lo, hi) == 0;
    } else {
      var first, last := xs[lo], xs[hi - 1];
      var s := Weighted(xs, ones, lo, hi, lo, hi);
      VanishAtLast(xs, lo, hi);
      VanishAtFirst(xs, lo, hi);
      AddZeroIffEqual(first, last);
      hide Mul, Add, Weighted;
      var both := Constant(Add(first, last), |xs|);
      forall i | lo <= i < hi ensures both[i] == Add(Shifted(xs, first)[i], Shifted(xs, last)[i]) {
        AddSwap(xs[i], first, xs[i], last);
        AddSelf(xs[i]);
        AddZero(Add(first, last));
      }
      WeightedAdd(xs, Shifted(xs, first), Shifted(xs, last), both, lo, hi, lo, hi);
      MulOne(Add(first, last));
      WeightedScale(xs, Add(first, last), ones, both, lo, hi, lo, hi);
      CancelLeft(Add(first, last), s, 1);
    }
  }

  lemma CancelLeft(c: Byte, a: Byte, b: Byte)
    requires c != 0 && Mul(c, a) == Mul(c, b)
    ensures a == b
  {
    hide Mul, Exp;
    InverseLaw(c);
    MulAssoc(Inverse(c), c, a);
    MulAssoc(Inverse(c), c, b);
    MulOne(a);
    MulOne(b);
  }

  lemma VanishAtLast(xs: seq<Byte>, lo: nat, hi: nat)
    requires lo + 1 < hi <= |xs| && Distinct(xs)
    ensures Weighted(xs, Shifted(xs, xs[hi - 1]), lo, hi, lo, hi) == xs[hi - 1]
    decreases hi - lo, 0
  {
    hide Mul, Add, Basis;
    var ones, ws, last := Constant(1, |xs|), Shifted(xs, xs[hi - 1]), xs[hi - 1];
    forall i | lo <= i < hi ensures ws[i] == Mul(Add(xs[i], last), ones[i]) {
      MulOne(Add(xs[i], last));
    }
    DropLastTerm(xs, ones, ws, lo, hi);
    PartitionOfUnity(xs, lo, hi - 1);
    MulOne(last);
  }

  lemma VanishAtFirst(xs: seq<Byte>, lo: nat, hi: nat)
    requires lo + 1 < hi <= |xs| && Distinct(xs)
    ensures Weighted(xs, Shifted(xs, xs[lo]), lo, hi, lo, hi) == xs[lo]
    decreases hi - lo, 0
  {
    hide Mul, Add, Basis;
    var ones, ws, first := Constant(1, |xs|), Shifted(xs, xs[lo]), xs[lo];
    forall i | lo <= i < hi ensures ws[i] == Mul(Add(xs[i], first), ones[i]) {
      MulOne(Add(xs[i], first));
    }
    WeightedFirst(xs, ws, lo, hi, lo, hi);
    DropFirst(xs, ones, ws, hi, lo, hi);
    PartitionOfUnity(xs, lo + 1, hi);
    MulOne(first);
    AddSelf(first);
    MulZero(Basis(xs, lo, lo, hi));
    AddZero(first);
  }

  /** The values of p at the points xs. */
  ghost function Values(p: seq<Byte>, xs: seq<Byte>): (ys: seq<Byte>)
    ensures |ys| == |xs|
    ensures forall i :: 0 <= i < |xs| ==> ys[i] == Value(p, xs[i])
  {
    seq(|xs|, i requires 0 <= i < |xs| => Value(p, xs[i]))
  }

  /** Lagrange: a polynomial with at most as many coefficients as the window has points is
      determined there, and the weighted sum is its constant term. */
  lemma {:induction false} Interpolation(p: seq<Byte>, xs: seq<Byte>, lo: nat, hi: nat)
    requires lo < hi <= |xs| && Distinct(xs) && |p| <= hi - lo
    ensures Weighted(xs, Values(p, xs), lo, hi, lo, hi) == Value(p, 0)
    decreases hi - lo
  {
    var r := xs[hi - 1];
    var q := Quotient(p, r);
    var c := Value(p, r);
    var ys, qs, ones := Values(p, xs), Values(q, xs), Constant(1, |xs|);
    var rest := seq(|xs|, i requires 0 <= i < |xs| => Mul(Add(xs[i], r), qs[i]));
    var level := Constant(c, |xs|);
    InterpolationRest(q, xs, qs, rest, lo, hi);
    PartitionOfUnity(xs, lo, hi);
    Division(p, r, 0);
    hide Mul, Add, Weighted, Quotient, Value;
    forall i | lo <= i < hi ensures ys[i] == Add(level[i], rest[i]) {
      Division(p, r, xs[i]);
    }
    WeightedAdd(xs, level, rest, ys, lo, hi, lo, hi);
    MulOne(c);
    WeightedScale(xs, c, ones, level, lo, hi, lo, hi);
    AddZero(r);
  }

  lemma InterpolationRest(q: seq<Byte>, xs: seq<Byte>, qs: seq<Byte>, rest: seq<Byte>, lo: nat, hi: nat)
    requires lo < hi <= |xs| && Distinct(xs) && |q| <= hi - 1 - lo
    requires qs == Values(q, xs) && |rest| == |xs|
    requires forall i :: 0 <= i < |xs| ==> rest[i] == Mul(Add(xs[i], xs[hi - 1]), qs[i])
    ensures Weighted(xs, rest, lo, hi, lo, hi) == Mul(xs[hi - 1], Value(q, 0))
    decreases hi - lo, 0
  {
    hide *;
    DropLastTerm(xs, qs, rest, lo, hi);
    if lo == hi - 1 {
      NothingWeighted(q, xs, qs, lo);
    } else {
      Interpolation(q, xs, lo, hi - 1);
    }
  }

  lemma NothingWeighted(q: seq<Byte>, xs: seq<Byte>, qs: seq<Byte>, lo: nat)
    requires q == [] && |qs| == |xs| && lo <= |xs| && Distinct(xs)
    ensures Weighted(xs, qs, lo, lo, lo, lo) == 0 == Value(q, 0)
  {
  }

  // ---------------------------------------------------------------- polynomials through given points

  /** The coefficients of (x - r) q(x) + c. */
  function TimesLinear(q: seq<Byte>, r: Byte, c: Byte): (p: seq<Byte>)
    ensures |p| == |q| + 1
  {
    if q == [] then [c] else [Add(c, Mul(r, q[0]))] + TimesLinear(q[1..], r, q[0])
  }

  lemma {:induction false} TimesLinearValue(q: seq<Byte>, r: Byte, c: Byte, x: Byte)
    ensures Value(TimesLinear(q, r, c), x) == Add(c, Mul(Add(x, r), Value(q, x)))
    decreases q
  {
    hide Mul, Add;
    if q == [] {
      assert TimesLinear(q, r, c)[1..] == [];
      MulZero(x);
      MulZero(Add(x, r));
    } else {
      var t := Value(q[1..], x);
      TimesLinearValue(q[1..], r, q[0], x);
      assert TimesLinear(q, r, c)[1..] == TimesLinear(q[1..], r, q[0]);
      AddCancel(c, Mul(r, q[0]));
      DivisionStep(Add(c, Mul(r, q[0])), x, r, Add(q[0], Mul(Add(x, r), t)), q[0], t);
    }
  }

  /** A polynomial with as many coefficients as points, by Newton's recursion on the last point. */
  ghost function Solve(xs: seq<Byte>, ys: seq<Byte>): (p: seq<Byte>)
    requires |xs| == |ys| && Distinct(xs)
    ensures |p| == |xs|
    decreases |xs|
  {
    if xs == [] then []
    else
      var m := |xs| - 1;
      var zs := seq(m, i requires 0 <= i < m =>
        AddZeroIffEqual(xs[i], xs[m]); Div(Add(ys[i], ys[m]), Add(xs[i], xs[m])));
      TimesLinear(Solve(xs[..m], zs), xs[m], ys[m])
  }

  lemma {:induction false} SolveValues(xs: seq<Byte>, ys: seq<Byte>, k: nat)
    requires |xs| == |ys| && Distinct(xs) && k < |xs|
    ensures Value(Solve(xs, ys), xs[k]) == ys[k]
    decreases |xs|
  {
    var m := |xs| - 1;
    var zs := seq(m, i requires 0 <= i < m =>
      AddZeroIffEqual(xs[i], xs[m]); Div(Add(ys[i], ys[m]), Add(xs[i], xs[m])));
    var q := Solve(xs[..m], zs);
    assert Solve(xs, ys) == TimesLinear(q, xs[m], ys[m]);
    hide Mul, Add, Solve, Div, TimesLinear, Value;
    TimesLinearValue(q, xs[m], ys[m], xs[k]);
    if k == m {
      AddSelf(xs[m]);
      MulZero(Value(q, xs[m]));
      AddZero(ys[m]);
    } else {
      var d := Add(xs[k], xs[m]);
      SolveValues(xs[..m], zs, k);
      AddZeroIffEqual(xs[k], xs[m]);
      DivUnique(zs[k], Add(ys[k], ys[m]), d);
      MulComm(zs[k], d);
      AddComm(ys[k], ys[m]);
      AddCancel(ys[m], ys[k]);
    }
  }

  ghost predicate NonZero(xs: seq<Byte>) {
    forall i :: 0 <= i < |xs| ==> xs[i] != 0
  }

  /** A polynomial with no more coefficients than it has non-zero roots is zero. */
  lemma {:induction false} ManyRoots(p: seq<Byte>, xs: seq<Byte>, k: nat)
    requires Distinct(xs) && NonZero(xs) && |p| <= |xs| && k < |p|
    requires forall i :: 0 <= i < |xs| ==> Value(p, xs[i]) == 0
    ensures p[k] == 0
    decreases p
  {
    Interpolation(p, xs, 0, |xs|);
    WeightedZero(xs, Values(p, xs), |xs|);
    ValueAtZero(p);
    if k > 0 {
      forall i | 0 <= i < |xs| ensures Value(p[1..], xs[i]) == 0 {
        AddZero(Mul(xs[i], Value(p[1..], xs[i])));
        NoZeroDivisors(xs[i], Value(p[1..], xs[i]));
      }
      ManyRoots(p[1..], xs, k - 1);
    }
  }

  lemma {:induction false} WeightedZero(xs: seq<Byte>, ys: seq<Byte>, b: nat)
    requires |ys| == |xs| && b <= |xs| && Distinct(xs)
    requires forall i :: 0 <= i < b ==> ys[i] == 0
    ensures Weighted(xs, ys, 0, b, 0, |xs|) == 0
    decreases b
  {
    hide Mul, Add, Basis;
    if b > 0 {
      WeightedZero(xs, ys, b - 1);
      MulZero(Basis(xs, b - 1, 0, |xs|));
      AddZero(0);
    }
  }

  /** Coefficient-wise sum of two polynomials of the same length. */
  function AddPoly(p: seq<Byte>, q: seq<Byte>): (r: seq<Byte>)
    requires |p| == |q|
    ensures |r| == |p|
    ensures forall i :: 0 <= i < |p| ==> r[i] == Add(p[i], q[i])
  {
    seq(|p|, i requires 0 <= i < |p| => Add(p[i], q[i]))
  }

  lemma {:induction false} ValueAddPoly(p: seq<Byte>, q: seq<Byte>, x: Byte)
    requires |p| == |q|
    ensures Value(AddPoly(p, q), x) == Add(Value(p, x), Value(q, x))
    decreases p
  {
    hide Mul, Add;
    if p == [] {
      AddZero(0);
    } else {
      ValueAddPoly(p[1..], q[1..], x);
      assert AddPoly(p, q)[1..] == AddPoly(p[1..], q[1..]);
      MulAdditiveRight(x, Value(p[1..], x), Value(q[1..], x));
      AddSwap(p[0], Mul(x, Value(p[1..], x)), q[0], Mul(x, Value(q[1..], x)));
    }
  }

  /** Leading zeros do not change the values. */
  lemma {:induction false} ValuePadded(p: seq<Byte>, n: nat, x: Byte)
    ensures Value(p + Constant(0, n), x) == Value(p, x)
    decreases |p| + n
  {
    hide Mul, Add;
    if p != [] {
      assert (p + Constant(0, n))[1..] == p[1..] + Constant(0, n);
      ValuePadded(p[1..], n, x);
    } else if n > 0 {
      assert (p + Constant(0, n))[1..] == p + Constant(0, n - 1);
      ValuePadded(p, n - 1, x);
      MulZero(x);
      AddZero(0);
    }
  }
}
