/** What fewer than k shares say about a secret: nothing.  A share list is consistent with a
    candidate secret through some choice of the random coefficients; below the threshold every
    candidate is consistent through equally many choices. */
module Secrecy {
  import opened Bytes
  import opened GaloisField
  import opened Generator
  import opened Polynomial
  import opened Shamir

  /** Coefficients c explain the values ys at xs for the secret byte s. */
  ghost predicate Consistent(s: Byte, c: seq<Byte>, xs: seq<Byte>, ys: seq<Byte>)
    requires |xs| == |ys|
  {
    forall i :: 0 <= i < |xs| ==> PowerSum([s] + c, xs[i]) == ys[i]
  }

  lemma WithConstantTerm(s: Byte, c: seq<Byte>, x: Byte)
    ensures PowerSum([s] + c, x) == Add(s, Mul(x, Value(c, x)))
  {
    ValueIsPowerSum([s] + c, x);
    assert ([s] + c)[1..] == c;
  }

  lemma ConsistentAt(s: Byte, c: seq<Byte>, x: Byte, y: Byte)
    requires x != 0
    ensures PowerSum([s] + c, x) == y <==> Value(c, x) == Div(Add(y, s), x)
  {
    var v := Value(c, x);
    hide Mul, Exp, Add, Value;
    WithConstantTerm(s, c, x);
    DivUnique(v, Add(y, s), x);
    MulComm(v, x);
    AddCancel(s, Mul(x, v));
    AddCancel(s, y);
    AddComm(s, y);
  }

  // ---------------------------------------------------------------- k - 1 shares

  /** The coefficients that explain k - 1 shares for a candidate secret byte. */
  ghost function CoefficientsFor(s: Byte, xs: seq<Byte>, ys: seq<Byte>): (c: seq<Byte>)
    requires |xs| == |ys| && Distinct(xs) && NonZero(xs)
    ensures |c| == |xs|
  {
    Solve(xs, seq(|xs|, i requires 0 <= i < |xs| => Div(Add(ys[i], s), xs[i])))
  }

  /** Any k - 1 shares at distinct points are consistent with every candidate secret byte,
      through exactly one coefficient vector. */
  lemma ExactlyOneExplanation(s: Byte, c: seq<Byte>, xs: seq<Byte>, ys: seq<Byte>)
    requires |xs| == |ys| == |c| && Distinct(xs) && NonZero(xs)
    ensures Consistent(s, c, xs, ys) <==> c == CoefficientsFor(s, xs, ys)
  {
    var zs := seq(|xs|, i requires 0 <= i < |xs| => Div(Add(ys[i], s), xs[i]));
    var c' := CoefficientsFor(s, xs, ys);
    assert c' == Solve(xs, zs);
    hide Solve, PowerSum, Div, Add, Mul, Value;
    forall i | 0 <= i < |xs|
      ensures Value(c', xs[i]) == Div(Add(ys[i], s), xs[i])
      ensures PowerSum([s] + c, xs[i]) == ys[i] <==> Value(c, xs[i]) == Div(Add(ys[i], s), xs[i])
      ensures PowerSum([s] + c', xs[i]) == ys[i]
    {
      SolveValues(xs, zs, i);
      ConsistentAt(s, c, xs[i], ys[i]);
      ConsistentAt(s, c', xs[i], ys[i]);
    }
    if Consistent(s, c, xs, ys) {
      SameValuesSameCoefficients(c, c', xs);
    }
  }

  lemma SameValuesSameCoefficients(c: seq<Byte>, c': seq<Byte>, xs: seq<Byte>)
    requires |c| == |c'| == |xs| && Distinct(xs) && NonZero(xs)
    requires forall i :: 0 <= i < |xs| ==> Value(c, xs[i]) == Value(c', xs[i])
    ensures c == c'
  {
    hide Value, Add;
    var p := AddPoly(c, c');
    forall i | 0 <= i < |xs| ensures Value(p, xs[i]) == 0 {
      ValueAddPoly(c, c', xs[i]);
      AddZeroIffEqual(Value(c, xs[i]), Value(c', xs[i]));
    }
    forall k | 0 <= k < |c| ensures c[k] == c'[k] {
      ManyRoots(p, xs, k);
      AddZeroIffEqual(c[k], c'[k]);
    }
  }

  // ---------------------------------------------------------------- any number of shares below k

  /** Adding this vector turns an explanation for s into one for s'. */
  ghost function Translation(s: Byte, s': Byte, xs: seq<Byte>, len: nat): (d: seq<Byte>)
    requires |xs| <= len && Distinct(xs) && NonZero(xs)
    ensures |d| == len
  {
    CoefficientsFor(Add(s, s'), xs, Constant(0, |xs|)) + Constant(0, len - |xs|)
  }

  /** The translation is a bijection (it is its own inverse) between the explanations of the
      same shares for the two secrets. */
  lemma TranslationIsBijection(s: Byte, s': Byte, c: seq<Byte>, xs: seq<Byte>, ys: seq<Byte>)
    requires |xs| == |ys| && |xs| <= |c| && Distinct(xs) && NonZero(xs)
    ensures var d := Translation(s, s', xs, |c|);
      && (Consistent(s, c, xs, ys) <==> Consistent(s', AddPoly(c, d), xs, ys))
      && AddPoly(AddPoly(c, d), d) == c
  {
    var short := CoefficientsFor(Add(s, s'), xs, Constant(0, |xs|));
    var d := Translation(s, s', xs, |c|);
    ExactlyOneExplanation(Add(s, s'), short, xs, Constant(0, |xs|));
    hide CoefficientsFor, Add, Mul, Value, PowerSum;
    forall i | 0 <= i < |xs| ensures PowerSum([s] + c, xs[i]) == PowerSum([s'] + AddPoly(c, d), xs[i]) {
      TranslatedValue(s, s', c, short, xs[i]);
    }
    forall i | 0 <= i < |c| ensures AddPoly(AddPoly(c, d), d)[i] == c[i] {
      AddCancel(c[i], d[i]);
    }
  }

  lemma TranslatedValue(s: Byte, s': Byte, c: seq<Byte>, short: seq<Byte>, x: Byte)
    requires |short| <= |c| && PowerSum([Add(s, s')] + short, x) == 0
    ensures PowerSum([s'] + AddPoly(c, short + Constant(0, |c| - |short|)), x) == PowerSum([s] + c, x)
  {
    var d := short + Constant(0, |c| - |short|);
    WithConstantTerm(s, c, x);
    WithConstantTerm(s', AddPoly(c, d), x);
    WithConstantTerm(Add(s, s'), short, x);
    hide Add, Mul, Value, PowerSum;
    ValuePadded(short, |c| - |short|, x);
    ValueAddPoly(c, d, x);
    var u, v := Mul(x, Value(c, x)), Mul(x, Value(d, x));
    MulAdditiveRight(x, Value(c, x), Value(d, x));
    AddZeroIffEqual(Add(s, s'), v);
    // s' + (u + (s + s')) == s + u
    AddComm(s, s');
    AddComm(u, Add(s', s));
    AddAssoc(s', s, u);
    AddCancel(s', Add(s, u));
  }

  // ---------------------------------------------------------------- counting explanations

  ghost function AllBytes(): (all: set<Byte>)
    ensures forall b: Byte :: b in all
  {
    Positive(255) + {0}
  }

  /** All coefficient vectors of a given length. */
  ghost function Vectors(len: nat): (vs: set<seq<Byte>>)
    ensures forall v :: v in vs <==> |v| == len
  {
    if len == 0 then {[]}
    else
      var vs := set b, v | b in AllBytes() && v in Vectors(len - 1) :: [b] + v;
      assert forall v: seq<Byte> :: |v| == len ==> v == [v[0]] + v[1..];
      vs
  }

  ghost function Explanations(s: Byte, xs: seq<Byte>, ys: seq<Byte>, len: nat): set<seq<Byte>>
    requires |xs| == |ys|
  {
    set c | c in Vectors(len) && Consistent(s, c, xs, ys)
  }

  /** Fewer than k shares are explained by equally many coefficient vectors for every secret. */
  lemma EquallyManyExplanations(s: Byte, s': Byte, xs: seq<Byte>, ys: seq<Byte>, len: nat)
    requires |xs| == |ys| && |xs| <= len && Distinct(xs) && NonZero(xs)
    ensures |Explanations(s, xs, ys, len)| == |Explanations(s', xs, ys, len)|
  {
    NotFewerExplanations(s, s', xs, ys, len);
    NotFewerExplanations(s', s, xs, ys, len);
  }

  lemma NotFewerExplanations(s: Byte, s': Byte, xs: seq<Byte>, ys: seq<Byte>, len: nat)
    requires |xs| == |ys| && |xs| <= len && Distinct(xs) && NonZero(xs)
    ensures |Explanations(s, xs, ys, len)| <= |Explanations(s', xs, ys, len)|
  {
    var a, b := Explanations(s, xs, ys, len), Explanations(s', xs, ys, len);
    var d := Translation(s, s', xs, len);
    forall c | c in a ensures |c| == len && AddPoly(c, d) in b && AddPoly(AddPoly(c, d), d) == c {
      TranslationIsBijection(s, s', c, xs, ys);
    }
    hide Explanations;
    InvolutionKeepsSize(a, b, d, len);
  }

  lemma {:induction false} InvolutionKeepsSize(a: set<seq<Byte>>, b: set<seq<Byte>>, d: seq<Byte>, len: nat)
    requires |d| == len
    requires forall c :: c in a ==> |c| == len && AddPoly(c, d) in b && AddPoly(AddPoly(c, d), d) == c
    ensures |a| <= |b|
    decreases |a|
  {
    if a != {} {
      var c :| c in a;
      var c' := AddPoly(c, d);
      InvolutionKeepsSize(a - {c}, b - {c'}, d, len);
    }
  }

  // ---------------------------------------------------------------- whole secrets

  /** The random bytes that make another secret produce the same shares at the points xs. */
  ghost function TranslateAll(secret: Blob, other: Blob, rand: seq<seq<Byte>>, xs: seq<Byte>,
                              k: nat): (r: seq<seq<Byte>>)
    requires |other| == |secret| && Randomness(rand, |secret|, k) && |xs| <= k - 1
    requires Distinct(xs) && NonZero(xs)
    ensures Randomness(r, |secret|, k)
  {
    seq(|secret|, b requires 0 <= b < |secret| => AddPoly(rand[b], Translation(secret[b], other[b], xs, k - 1)))
  }

  /** Whoever holds fewer than k shares cannot tell the secret from any other of its length:
      with suitable random bytes, which are as many for one as for the other (the translation
      undoes itself), the other secret gives the same shares. */
  lemma SharesBelowThresholdHideSecret(secret: Blob, other: Blob, rand: seq<seq<Byte>>, xs: seq<Byte>, k: nat)
    requires |other| == |secret| && Randomness(rand, |secret|, k) && |xs| <= k - 1
    requires Distinct(xs) && NonZero(xs)
    ensures var rand' := TranslateAll(secret, other, rand, xs, k);
      && (forall i :: 0 <= i < |xs| ==> ShareAt(secret, rand, xs[i]) == ShareAt(other, rand', xs[i]))
      && TranslateAll(other, secret, rand', xs, k) == rand
  {
    var rand' := TranslateAll(secret, other, rand, xs, k);
    hide PowerSum, CoefficientsFor, Add, AddPoly, Translation;
    forall b | 0 <= b < |secret|
      ensures forall i :: 0 <= i < |xs| ==>
        PowerSum([secret[b]] + rand[b], xs[i]) == PowerSum([other[b]] + rand'[b], xs[i])
      ensures AddPoly(rand'[b], Translation(other[b], secret[b], xs, k - 1)) == rand[b]
    {
      OneByteHidden(secret[b], other[b], rand[b], xs);
    }
  }

  lemma OneByteHidden(s: Byte, s': Byte, c: seq<Byte>, xs: seq<Byte>)
    requires |xs| <= |c| && Distinct(xs) && NonZero(xs)
    ensures var c' := AddPoly(c, Translation(s, s', xs, |c|));
      && (forall i :: 0 <= i < |xs| ==> PowerSum([s] + c, xs[i]) == PowerSum([s'] + c', xs[i]))
      && |c'| == |c| && AddPoly(c', Translation(s', s, xs, |c|)) == c
  {
    hide PowerSum, CoefficientsFor, Add;
    var ys := seq(|xs|, i requires 0 <= i < |xs| => PowerSum([s] + c, xs[i]));
    TranslationSymmetric(s, s', xs, |c|);
    TranslationIsBijection(s, s', c, xs, ys);
  }

  lemma TranslationSymmetric(s: Byte, s': Byte, xs: seq<Byte>, len: nat)
    requires |xs| <= len && Distinct(xs) && NonZero(xs)
    ensures Translation(s, s', xs, len) == Translation(s', s, xs, len)
  {
    AddComm(s, s');
  }
}
