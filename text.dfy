/** The pieces of Go's standard library that the license check leans on:
    `strings.HasSuffix`, `bytes.HasPrefix`, and the `%d` verb of `fmt.Sprintf`
    for a non-negative count. */
module GoText {

  /** A byte of file content (Go's `byte`). */
  newtype byte = b: int | 0 <= b < 256

  /** `strings.HasSuffix(s, suffix)`: a literal, case-sensitive trailing match. */
  predicate HasSuffix<T(==)>(s: seq<T>, suffix: seq<T>)
  {
    |suffix| <= |s| && s[|s| - |suffix|..] == suffix
  }

  /** `bytes.HasPrefix(s, prefix)`: the first `|prefix|` elements of `s` are `prefix`. */
  predicate HasPrefix<T(==)>(s: seq<T>, prefix: seq<T>)
  {
    |prefix| <= |s| && s[..|prefix|] == prefix
  }

  predicate IsDigit(c: char)
  {
    '0' <= c <= '9'
  }

  function DigitChar(d: nat): (c: char)
    requires d < 10
    ensures IsDigit(c)
  {
    ('0' as int + d) as char
  }

  predicate AllDigits(s: string)
  {
    forall i :: 0 <= i < |s| ==> IsDigit(s[i])
  }

  /** The number a string of decimal digits denotes, read left to right. */
  function DecimalValue(s: string): int
  {
    if s == [] then 0
    else DecimalValue(s[..|s| - 1]) * 10 + (s[|s| - 1] as int - '0' as int)
  }

  /** What `fmt.Sprintf("%d", n)` prints for a non-negative `n`: the shortest
      run of decimal digits (no leading zero) that reads back as `n`. */
  function Decimal(n: nat): (s: string)
    ensures |s| >= 1 && AllDigits(s)
    ensures DecimalValue(s) == n
    ensures s[0] == '0' ==> n == 0
  {
    if n < 10 then [DigitChar(n)]
    else
      var front := Decimal(n / 10);
      var s := front + [DigitChar(n % 10)];
      assert s[..|s| - 1] == front;
      s
  }
}
