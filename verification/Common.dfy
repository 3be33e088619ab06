/** Shared vocabulary: results, bytes and a few facts about sequences. */
module Common {

  datatype Option<+T> = None | Some(value: T)

  datatype Result<+T, +E> = Ok(value: T) | Err(error: E) {
    predicate IsFailure() {
      Err?
    }
    function PropagateFailure<U>(): Result<U, E>
      requires Err?
    {
      Err(error)
    }
    function Extract(): T
      requires Ok?
    {
      value
    }
  }

  type byte = n: int | 0 <= n < 256

  function Min(a: int, b: int): int {
    if a <= b then a else b
  }

  function Max(a: int, b: int): int {
    if a >= b then a else b
  }

  /** Python's `s[n:]`: empty when `n` lies past the end. */
  function Drop<T>(s: seq<T>, n: nat): seq<T> {
    if n <= |s| then s[n..] else []
  }

  /** Python's `s[:n]`: silently short when `n` lies past the end. */
  function Take<T>(s: seq<T>, n: nat): seq<T> {
    if n <= |s| then s[..n] else s
  }

  /** Python's `s[i:j]` for i <= j. */
  function Slice<T>(s: seq<T>, i: nat, j: nat): seq<T>
    requires i <= j
  {
    Take(Drop(s, i), j - i)
  }

  // ---- Decimal numerals ----

  predicate IsDigit(c: char) {
    '0' <= c <= '9'
  }

  function DigitValue(c: char): nat
    requires IsDigit(c)
  {
    c as int - '0' as int
  }

  /** `int(s)`, for ASCII digits */
  function ToInt(s: string): nat
    requires forall i :: 0 <= i < |s| ==> IsDigit(s[i])
  {
    if s == "" then 0 else ToInt(s[..|s| - 1]) * 10 + DigitValue(s[|s| - 1])
  }

  /** `str(n)` */
  function Decimal(n: nat): (s: string)
    ensures s != "" && forall i :: 0 <= i < |s| ==> IsDigit(s[i])
  {
    if n < 10 then [('0' as int + n) as char]
    else Decimal(n / 10) + [('0' as int + n % 10) as char]
  }

  lemma {:induction false} DecimalRoundTrip(n: nat)
    ensures ToInt(Decimal(n)) == n
  {
    if n >= 10 {
      DecimalRoundTrip(n / 10);
      var s := Decimal(n);
      assert s[..|s| - 1] == Decimal(n / 10);
    } else {
      assert Decimal(n)[..0] == "";
      assert ToInt("") == 0;
    }
  }

  lemma {:induction false} DecimalLeads(n: nat)
    ensures n > 0 ==> Decimal(n)[0] != '0'
    ensures n == 0 ==> |Decimal(n)| == 1
  {
    if n >= 10 {
      DecimalLeads(n / 10);
    }
  }

  /** Some numerals, one with leading zeros. */
  lemma Numerals()
    ensures Decimal(0) == "0" && Decimal(9) == "9" && Decimal(4096) == "4096"
    ensures ToInt("00") == 0 && ToInt("04096") == 4096
  {
    var zeros, padded := "00", "04096";
    assert zeros[..1] == "0" && "0"[..0] == "";
    assert padded[..4] == "0409" && "0409"[..3] == "040" && "040"[..2] == "04" && "04"[..1] == "0";
  }
}
