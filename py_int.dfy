/** Python's `int(text)` restricted to ASCII decimal digit strings. */
module PyInt {
  import opened Results

  predicate IsDigit(c: char) {
    '0' <= c <= '9'
  }

  /** Every character is an ASCII digit (the empty string included). */
  predicate AllDigits(s: string) {
    forall k :: 0 <= k < |s| ==> IsDigit(s[k])
  }

  /** A non-empty string of ASCII digits: the texts `int()` accepts in this model. */
  predicate IsDigits(s: string) {
    |s| > 0 && AllDigits(s)
  }

  function Pow10(n: nat): (p: nat)
    ensures p >= 1
  {
    if n == 0 then 1 else 10 * Pow10(n - 1)
  }

  /** The value of a digit string read in base 10, most significant digit first. */
  function DecimalValue(s: string): (n: nat)
    requires AllDigits(s)
    ensures n < Pow10(|s|)
  {
    if s == [] then 0
    else 10 * DecimalValue(s[..|s| - 1]) + (s[|s| - 1] as int - '0' as int)
  }

  /** `int(text)`: the decimal value of a digit string, a ValueError otherwise. */
  function Int(text: string): (r: Result<int>)
    ensures r.Ok? <==> IsDigits(text)
    ensures r.Ok? ==> 0 <= r.value < Pow10(|text|)
  {
    if IsDigits(text) then Ok(DecimalValue(text)) else Err(IntError(text))
  }

  /** `str(n)` for a non-negative integer: the shortest decimal spelling of `n`. */
  function DecimalDigits(n: nat): (s: string)
    ensures IsDigits(s)
    ensures |s| > 1 ==> s[0] != '0'
  {
    if n < 10 then ['0' + n as char]
    else DecimalDigits(n / 10) + ['0' + (n % 10) as char]
  }

  /** `int(str(n)) == n`: reading back the decimal spelling of `n` gives `n`. */
  lemma {:induction false} IntRoundTrip(n: nat)
    ensures Int(DecimalDigits(n)) == Ok(n)
  {
    if n >= 10 {
      IntRoundTrip(n / 10);
      var s := DecimalDigits(n);
      assert s[..|s| - 1] == DecimalDigits(n / 10);
    }
  }

  /** Reading `a + b` shifts the value of `a` past the digits of `b`; in
      particular leading zeros do not change the value, as with `int("007")`. */
  lemma {:induction false} DecimalValueAppend(a: string, b: string)
    requires AllDigits(a) && AllDigits(b)
    ensures AllDigits(a + b)
    ensures DecimalValue(a + b) == DecimalValue(a) * Pow10(|b|) + DecimalValue(b)
  {
    assert AllDigits(a + b) by {
      forall k | 0 <= k < |a + b| ensures IsDigit((a + b)[k]) {
        if k < |a| { assert (a + b)[k] == a[k]; } else { assert (a + b)[k] == b[k - |a|]; }
      }
    }
    if b != [] {
      var b' := b[..|b| - 1];
      assert (a + b)[..|a + b| - 1] == a + b';
      DecimalValueAppend(a, b');
      var d := b[|b| - 1] as int - '0' as int;
      ShiftDigit(DecimalValue(a), Pow10(|b'|), DecimalValue(b'), d);
    } else {
      assert a + b == a;
    }
  }

  lemma ShiftDigit(va: int, p: int, vb: int, d: int)
    ensures 10 * (va * p + vb) + d == va * (10 * p) + (10 * vb + d)
  {
  }
}
