/** Decimal text and two's-complement int64 arithmetic: strconv.FormatInt on the
    writing side, the accumulation loops of resp/bufio.go on the reading side. */
module Decimal {
  import opened Bytes

  const TWO_63: int := 0x8000_0000_0000_0000
  const TWO_64: int := 0x1_0000_0000_0000_0000
  const MAX_INT64: int := TWO_63 - 1
  const MIN_INT64: int := -TWO_63

  predicate IsInt64(n: int) { MIN_INT64 <= n <= MAX_INT64 }

  /** The int64 that an int64 expression with mathematical value `n` evaluates to. */
  function Wrap(n: int): (r: int)
    ensures IsInt64(r)
    ensures IsInt64(n) ==> r == n
  {
    (n + TWO_63) % TWO_64 - TWO_63
  }

  lemma WrapCongruent(a: int) returns (k: int)
    ensures Wrap(a) == a + k * TWO_64
  {
    k := -((a + TWO_63) / TWO_64);
  }

  lemma WrapShift(a: int, k: int)
    ensures Wrap(a + k * TWO_64) == Wrap(a)
  {
    var q, m := (a + TWO_63) / TWO_64, (a + TWO_63) % TWO_64;
    assert a + k * TWO_64 + TWO_63 == (q + k) * TWO_64 + m;
  }

  /** One turn of the accumulation loop: wrapping early or late is the same. */
  lemma WrapStep(v: int, d: int)
    ensures Wrap(Wrap(Wrap(v) * 10) + d) == Wrap(v * 10 + d)
  {
    var k := WrapCongruent(v);
    var j := WrapCongruent(Wrap(v) * 10);
    assert Wrap(Wrap(v) * 10) + d == v * 10 + d + (10 * k + j) * TWO_64;
    WrapShift(v * 10 + d, 10 * k + j);
  }

  lemma WrapNegate(v: int)
    ensures Wrap(-Wrap(v)) == Wrap(-v)
  {
    var k := WrapCongruent(v);
    assert -Wrap(v) == -v + (-k) * TWO_64;
    WrapShift(-v, -k);
  }

  predicate IsDigit(c: byte) { 48 <= c <= 57 }

  predicate AllDigits(s: bytes) { forall i :: 0 <= i < |s| ==> IsDigit(s[i]) }

  /** The number a run of digits denotes. */
  function Value(s: bytes): nat
    requires AllDigits(s)
  {
    if s == [] then 0 else Value(s[..|s| - 1]) * 10 + (s[|s| - 1] - 48)
  }

  function Digits(n: nat): (s: bytes)
    ensures |s| > 0 && AllDigits(s)
  {
    if n < 10 then [48 + n] else Digits(n / 10) + [48 + n % 10]
  }

  lemma {:induction false} ValueOfDigits(n: nat)
    ensures Value(Digits(n)) == n
  {
    if n >= 10 {
      ValueOfDigits(n / 10);
      assert Digits(n)[..|Digits(n)| - 1] == Digits(n / 10);
    } else {
      assert Value([48 + n]) == Value([]) * 10 + n by { assert [48 + n][..0] == []; }
    }
  }

  /** strconv.FormatInt(n, 10). */
  function FormatInt(n: int): (s: bytes)
    ensures |s| > 0
    ensures forall i :: 0 <= i < |s| ==> IsDigit(s[i]) || (i == 0 && s[i] == MINUS)
  {
    if n < 0 then [MINUS] + Digits(-n) else Digits(n)
  }
}
