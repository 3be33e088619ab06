/** Python's unbounded bitwise operators on naturals, and the arithmetic they amount to. */
module Bits {
  import opened Common

  function Pow2(k: nat): (r: nat)
    ensures r >= 1
  {
    if k == 0 then 1 else 2 * Pow2(k - 1)
  }

  /** `a | b` */
  function BitOr(a: nat, b: nat): nat
    decreases a + b
  {
    if a == 0 then b
    else if b == 0 then a
    else 2 * BitOr(a / 2, b / 2) + (if a % 2 == 1 || b % 2 == 1 then 1 else 0)
  }

  /** `a & b` */
  function BitAnd(a: nat, b: nat): nat {
    if a == 0 || b == 0 then 0
    else 2 * BitAnd(a / 2, b / 2) + (if a % 2 == 1 && b % 2 == 1 then 1 else 0)
  }

  /** `a << k` */
  function ShiftLeft(a: nat, k: nat): nat {
    a * Pow2(k)
  }

  /** `a >> k` */
  function ShiftRight(a: nat, k: nat): nat
    decreases k
  {
    if k == 0 then a else ShiftRight(a / 2, k - 1)
  }

  lemma DoubleProduct(x: nat, y: nat)
    ensures 2 * (x * y) == (2 * x) * y
  {
  }

  lemma {:induction false} Pow2Add(i: nat, j: nat)
    ensures Pow2(i + j) == Pow2(i) * Pow2(j)
  {
    if i > 0 {
      Pow2Add(i - 1, j);
      DoubleProduct(Pow2(i - 1), Pow2(j));
    }
  }

  lemma ShiftDoubles(b: nat, k: nat)
    ensures ShiftLeft(b, k + 1) == 2 * ShiftLeft(b, k)
  {
    DoubleProduct(Pow2(k), b);
  }

  lemma OrOfEven(a: nat, high: nat)
    ensures BitOr(a, 2 * high) == 2 * BitOr(a / 2, high) + a % 2
  {
    assert (2 * high) / 2 == high && (2 * high) % 2 == 0;
  }

  /** OR-ing a shifted value above the bits already collected is plain addition. */
  lemma {:induction false} OrOfDisjointIsSum(a: nat, b: nat, k: nat)
    requires a < Pow2(k)
    ensures BitOr(a, ShiftLeft(b, k)) == a + b * Pow2(k)
  {
    if k > 0 {
      OrOfDisjointIsSum(a / 2, b, k - 1);
      ShiftDoubles(b, k - 1);
      OrOfEven(a, ShiftLeft(b, k - 1));
    }
  }

  /** Masking with k low ones is the remainder modulo 2^k. */
  lemma {:induction false} MaskIsRemainder(a: nat, k: nat)
    ensures BitAnd(a, Pow2(k) - 1) == a % Pow2(k)
  {
    if k > 0 {
      MaskIsRemainder(a / 2, k - 1);
      var p := Pow2(k - 1);
      assert (2 * p - 1) / 2 == p - 1;
      RemainderStep(a, p);
    }
  }

  lemma RemainderStep(a: nat, p: nat)
    requires p > 0
    ensures a % (2 * p) == 2 * ((a / 2) % p) + a % 2
    ensures a / (2 * p) == (a / 2) / p
  {
    var q, r := (a / 2) / p, (a / 2) % p;
    assert a == (2 * p) * q + (2 * r + a % 2) by {
      assert a / 2 == p * q + r;
    }
    RemainderUnique(a, 2 * p, q, 2 * r + a % 2);
  }

  lemma RemainderUnique(a: nat, m: nat, q: nat, r: nat)
    requires m > 0 && r < m && a == m * q + r
    ensures a % m == r && a / m == q
  {
    QuotientUnique(m, q, r, a / m, a % m);
  }

  lemma QuotientUnique(m: nat, q: nat, r: nat, q': nat, r': nat)
    requires r < m && r' < m && m * q + r == m * q' + r'
    ensures q == q' && r == r'
  {
    if q < q' {
      MultipleGap(m, q, q');
    } else if q' < q {
      MultipleGap(m, q', q);
    }
  }

  lemma MultipleGap(m: nat, q: nat, q': nat)
    requires q < q'
    ensures m * q + m <= m * q'
  {
    assert m * q' == m * q + m * (q' - q);
    assert m * (q' - q) == m + m * (q' - q - 1);
  }

  lemma Pow2Of7()
    ensures Pow2(7) == 128
  {
    assert Pow2(4) == 16;
    assert Pow2(7) == 2 * (2 * (2 * Pow2(4)));
  }

  /** The masks of the varint and tag readers: 7F, 80 and the three wire-type bits. */
  lemma ByteMasks(b: byte, tag: nat)
    ensures BitAnd(b, 0x7F) == b % 128
    ensures BitAnd(b, 0x80) == 0 <==> b < 128
    ensures BitAnd(tag, 7) == tag % 8
    ensures ShiftRight(tag, 3) == tag / 8
  {
    assert Pow2(3) == 8;
    Pow2Of7();
    MaskIsRemainder(b, 7);
    MaskIsRemainder(tag, 3);
    HighBit(b);
  }

  lemma HighBit(b: byte)
    ensures BitAnd(b, 0x80) == 0 <==> b < 128
  {
    AndPower(b, 7);
    Pow2Of7();
    ShiftBy7(b);
  }

  lemma ShiftBy7(b: byte)
    ensures ShiftRight(b, 7) == b / 128
  {
    assert ShiftRight(b / 16, 3) == b / 128;
    assert ShiftRight(b, 7) == ShiftRight(b / 2 / 2 / 2 / 2, 3);
  }

  /** Testing bit k looks at the last bit of the number shifted down by k. */
  lemma {:induction false} AndPower(a: nat, k: nat)
    ensures BitAnd(a, Pow2(k)) == if ShiftRight(a, k) % 2 == 1 then Pow2(k) else 0
    decreases k
  {
    if k > 0 {
      AndPower(a / 2, k - 1);
    }
  }
}
