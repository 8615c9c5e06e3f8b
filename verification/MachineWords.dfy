/** Machine words as bytes, lowest byte first. */
module MachineWords {

  newtype byte = x: int | 0 <= x < 256

  function Pow2(n: nat): (p: nat)
    ensures 1 <= p
  {
    if n == 0 then 1 else 2 * Pow2(n - 1)
  }

  function Byte(v: int, i: nat): byte {
    (v / Pow2(8 * i) % 256) as byte
  }

  /** The n low bytes of a machine word, lowest first. */
  function LowBytes(v: int, n: nat): (s: seq<byte>)
    ensures |s| == n
  {
    seq(n, i requires 0 <= i < n => Byte(v, i))
  }

  /** A signed machine word of n bytes. */
  function Wrap(v: int, n: nat): (r: int)
    ensures 0 <= 2 * r + Pow2(8 * n) && 2 * r < Pow2(8 * n)
    ensures r == v % Pow2(8 * n) || r == v % Pow2(8 * n) - Pow2(8 * n)
  {
    var u := v % Pow2(8 * n);
    if 2 * u < Pow2(8 * n) then u else u - Pow2(8 * n)
  }

  /** The widths of machine words, in numbers. */
  lemma WordWidths()
    ensures Pow2(8) == 0x100 && Pow2(16) == 0x1_0000 && Pow2(32) == 0x1_0000_0000
  {
    Pow2Eight(0);
    Pow2Eight(1);
    Pow2Eight(2);
    Pow2Eight(3);
    assert Pow2(0) == 1;
  }

  lemma {:induction false} Pow2Sum(m: nat, n: nat)
    ensures Pow2(m + n) == Pow2(m) * Pow2(n)
  {
    if 0 < m {
      Pow2Sum(m - 1, n);
      assert Pow2(m + n) == 2 * (Pow2(m - 1) * Pow2(n)) == (2 * Pow2(m - 1)) * Pow2(n);
    }
  }

  lemma OneByteMore(low: byte, rest: seq<byte>)
    ensures Unsigned([low] + rest) == low as nat + 0x100 * Unsigned(rest)
  {
    assert ([low] + rest)[1..] == rest;
  }

  /** The lowest byte comes first. */
  lemma LowestFirst(a: byte, b: byte, c: byte, d: byte)
    ensures Unsigned([a]) == a as nat && Unsigned([a, b]) == a as nat + 0x100 * b as nat
    ensures Unsigned([a, b, c, d]) == a as nat + 0x100 * b as nat + 0x1_0000 * c as nat + 0x100_0000 * d as nat
  {
    OneByteMore(a, []);
    OneByteMore(b, []);
    OneByteMore(d, []);
    OneByteMore(a, [b]);
    OneByteMore(c, [d]);
    OneByteMore(b, [c, d]);
    OneByteMore(a, [b, c, d]);
  }

  function Unsigned(s: seq<byte>): nat {
    if s == [] then 0 else s[0] as nat + 256 * Unsigned(s[1..])
  }

  function Signed(s: seq<byte>): int {
    Wrap(Unsigned(s), |s|)
  }

  /** Reading the bytes back gives the value as a word of that width. */
  lemma {:induction false} UnsignedOfLowBytes(v: int, n: nat)
    ensures Unsigned(LowBytes(v, n)) == v % Pow2(8 * n)
    decreases n
  {
    if 0 < n {
      var s, q := LowBytes(v, n), v / 256;
      UnsignedOfLowBytes(q, n - 1);
      forall i | 0 <= i < n - 1
        ensures Byte(v, i + 1) == Byte(q, i)
      {
        ShiftBytes(v, i);
      }
      assert s[1..] == LowBytes(q, n - 1);
      assert Pow2(0) == 1 && s[0] as int == v % 256;
      SplitMod(v, Pow2(8 * (n - 1)));
      Pow2Eight(n - 1);
    }
  }

  lemma Pow2Eight(n: nat)
    ensures Pow2(8 * (n + 1)) == 256 * Pow2(8 * n)
  {
    var k := 8 * n;
    assert Pow2(k + 8) == 2 * Pow2(k + 7);
    assert Pow2(k + 7) == 2 * Pow2(k + 6);
    assert Pow2(k + 6) == 2 * Pow2(k + 5);
    assert Pow2(k + 5) == 2 * Pow2(k + 4);
    assert Pow2(k + 4) == 2 * Pow2(k + 3);
    assert Pow2(k + 3) == 2 * Pow2(k + 2);
    assert Pow2(k + 2) == 2 * Pow2(k + 1);
  }

  lemma ShiftBytes(v: int, i: nat)
    ensures Byte(v, i + 1) == Byte(v / 256, i)
  {
    Pow2Eight(i);
    DivDiv(v, 256, Pow2(8 * i));
  }

  lemma DivDiv(v: int, a: nat, b: nat)
    requires 0 < a && 0 < b
    ensures v / (a * b) == v / a / b
  {
    var q, r := v / a / b, v / a % b;
    var s := v % a;
    assert v == a * (q * b + r) + s;
    assert v == (a * b) * q + (a * r + s);
    Below(a, b, r, s);
    QuotientIs(v, a * b, q, a * r + s);
  }

  lemma Below(a: nat, b: nat, r: nat, s: nat)
    requires r < b && s < a
    ensures 0 <= a * r + s < a * b
  {
    assert a * (r + 1) <= a * b;
  }

  lemma QuotientIs(v: int, d: nat, q: int, r: nat)
    requires 0 < d && v == d * q + r && r < d
    ensures v / d == q && v % d == r
  {
    var p := v / d;
    if p < q {
      StepApart(d, p, q);
    } else if q < p {
      StepApart(d, q, p);
    }
  }

  lemma StepApart(d: nat, p: int, q: int)
    requires p < q
    ensures d * p + d <= d * q
  {
    assert d * (p + 1) <= d * q;
  }

  lemma SplitMod(v: int, m: nat)
    requires 0 < m
    ensures v % (256 * m) == v % 256 + 256 * (v / 256 % m)
  {
    var q, r := v / 256 / m, v / 256 % m;
    assert v == 256 * (m * q + r) + v % 256;
    assert v == (256 * m) * q + (256 * r + v % 256);
    Below(256, m, r, v % 256);
    QuotientIs(v, 256 * m, q, 256 * r + v % 256);
  }

  /** Integers come back truncated to the width of their kind. */
  lemma IntegersReadBack(v: int, n: nat)
    ensures Signed(LowBytes(v, n)) == Wrap(v, n)
  {
    UnsignedOfLowBytes(v, n);
    ModTwice(v, Pow2(8 * n));
  }

  lemma ModTwice(v: int, m: nat)
    requires 0 < m
    ensures v % m % m == v % m
  {
  }
}
