/** Numbers and bytes as text, and back. */
module Digits {
  import opened Bytes

  function DigitChar(d: nat): char
    requires d < 10
  {
    ('0' as int + d) as char
  }

  /** The decimal text of a number. */
  function Decimal(n: nat): (s: string)
    ensures s != [] && forall c :: c in s ==> '0' <= c <= '9'
  {
    if n < 10 then [DigitChar(n)] else Decimal(n / 10) + [DigitChar(n % 10)]
  }

  function HexChar(d: nat): (c: char)
    requires d < 16
    ensures '0' <= c <= '9' || 'a' <= c <= 'f'
  {
    if d < 10 then DigitChar(d) else ('a' as int + d - 10) as char
  }

  /** bytes.hex() */
  function Hex(y: Blob): (s: string)
    ensures forall c :: c in s ==> '0' <= c <= '9' || 'a' <= c <= 'f'
  {
    if y == [] then "" else [HexChar(y[0] / 16), HexChar(y[0] % 16)] + Hex(y[1..])
  }

  function ParseDecimal(s: string): int {
    if s == [] then 0 else 10 * ParseDecimal(s[..|s| - 1]) + (s[|s| - 1] as int - '0' as int)
  }

  lemma {:induction false} DecimalRoundTrip(n: nat)
    ensures ParseDecimal(Decimal(n)) == n
  {
    if n >= 10 {
      DecimalRoundTrip(n / 10);
      assert Decimal(n)[..|Decimal(n)| - 1] == Decimal(n / 10);
    } else {
      assert Decimal(n)[..0] == [];
    }
  }

  function HexValue(c: char): int {
    if c <= '9' then c as int - '0' as int else c as int - 'a' as int + 10
  }

  /** bytes.fromhex() for the digits bytes.hex() writes: two digits are 16 * high + low. */
  function FromHex(s: string): seq<int> {
    if |s| < 2 then [] else [16 * HexValue(s[0]) + HexValue(s[1])] + FromHex(s[2..])
  }

  lemma {:induction false} HexRoundTrip(y: Blob)
    ensures |Hex(y)| == 2 * |y| && FromHex(Hex(y)) == y
  {
    if y != [] {
      HexRoundTrip(y[1..]);
      var high, low := y[0] / 16, y[0] % 16;
      assert HexValue(HexChar(high)) == high && HexValue(HexChar(low)) == low && 16 * high + low == y[0];
      assert Hex(y)[0] == HexChar(high) && Hex(y)[1] == HexChar(low) && Hex(y)[2..] == Hex(y[1..]);
      assert y == [y[0]] + y[1..];
    }
  }

  /** Text before the first separator is determined. */
  lemma SplitAtSeparator(a: string, b: string, u: string, v: string, sep: char)
    requires sep !in a && sep !in b
    requires a + [sep] + u == b + [sep] + v
    ensures a == b && u == v
  {
    var w := a + [sep] + u;
    assert w[|a|] == sep && w[|b|] == sep;
    assert |a| == |b|;
    assert a == w[..|a|] && b == w[..|b|];
    assert u == w[|a| + 1..] && v == w[|b| + 1..];
  }

  /** So is text behind the last one. */
  lemma SplitAtLast(a: string, b: string, u: string, v: string, sep: char)
    requires sep !in u && sep !in v
    requires a + [sep] + u == b + [sep] + v
    ensures a == b && u == v
  {
    var w := a + [sep] + u;
    assert w[|a|] == sep && w[|b|] == sep;
    assert |a| == |b|;
    assert a == w[..|a|] && b == w[..|b|];
    assert u == w[|a| + 1..] && v == w[|b| + 1..];
  }
}
