/**
 * The few pieces of PHP semantics the Heart engine relies on: exceptions as
 * values, `empty()` on a string, and the decimal text PHP produces when an
 * integer is concatenated into a string.
 */
module Php {

  datatype Option<+T> = None | Some(value: T)

  /** A thrown PHP object. `Exception` stands for every subclass of
      \Exception (RuntimeException, InvalidArgumentException, ...), which a
      `catch (\Exception $e)` intercepts; `Error` stands for \Error and its
      subclasses, which such a catch lets through. */
  datatype Throwable = Exception(message: string) | Error(message: string)

  /** The outcome of a PHP call: a returned value or a thrown object. */
  datatype Result<+T> = Ok(value: T) | Throw(thrown: Throwable)

  /** How a call that returns nothing (`void`) can end. */
  datatype Completion = Normal | Abrupt(thrown: Throwable)

  /** PHP `empty()` applied to a string: true for "" and for "0", and for no other string. */
  predicate Empty(s: string) {
    s == "" || s == "0"
  }

  lemma EmptyExactly(s: string)
    ensures Empty(s) <==> (|s| == 0 || (|s| == 1 && s[0] == '0'))
  {
  }

  function Digit(d: nat): (c: char)
    requires d < 10
    ensures '0' <= c <= '9' && (c as int) - ('0' as int) == d
  {
    "0123456789"[d]
  }

  predicate IsDigits(s: string) {
    forall i :: 0 <= i < |s| ==> '0' <= s[i] <= '9'
  }

  /** The text PHP gives a non-negative integer in a string context. */
  function DecimalString(n: nat): (s: string)
    ensures |s| >= 1 && IsDigits(s)
    ensures (s[0] == '0') <==> (n == 0)
    decreases n
  {
    if n < 10 then [Digit(n)] else DecimalString(n / 10) + [Digit(n % 10)]
  }

  /** The number a string of decimal digits denotes: an independent reading of `DecimalString`. */
  function DecimalValue(s: string): nat
    requires IsDigits(s)
    decreases |s|
  {
    if s == [] then 0
    else DecimalValue(s[..|s| - 1]) * 10 + ((s[|s| - 1] as int) - ('0' as int))
  }

  /** `DecimalString` loses nothing: reading its digits back yields the number. */
  lemma {:induction false} DecimalRoundTrip(n: nat)
    ensures DecimalValue(DecimalString(n)) == n
    decreases n
  {
    if n >= 10 {
      DecimalRoundTrip(n / 10);
      var s := DecimalString(n);
      assert s[..|s| - 1] == DecimalString(n / 10);
    }
  }

  /** Different counts never print alike. */
  lemma DecimalStringInjective(m: nat, n: nat)
    requires DecimalString(m) == DecimalString(n)
    ensures m == n
  {
    DecimalRoundTrip(m);
    DecimalRoundTrip(n);
  }
}
