/**
 * The few JavaScript value rules the gallery sound system depends on:
 * truthiness (`if (!c.id)`, `!!state.insideMuseum`) and the string
 * coercion `String(id)` used to key the audio map.
 */
module JsValues {

  datatype Option<+T> = None | Some(value: T)

  /** `Number.MAX_SAFE_INTEGER`, 2^53 - 1: the largest `n` such that every
      integer from `-n` to `n` is held exactly by a JavaScript number. */
  const MaxSafeInteger: int := 0x1F_FFFF_FFFF_FFFF

  /** The safe integers: the range in which every integer is exact. */
  type SafeInt = n: int | -MaxSafeInteger <= n <= MaxSafeInteger

  /** A primitive JavaScript value. Numbers are the safe integers here. */
  datatype JsVal =
    | Undefined
    | Null
    | Bool(b: bool)
    | Num(n: SafeInt)
    | Str(s: string)

  /** JavaScript truthiness: `undefined`, `null`, `false`, `0` and `""` are falsy. */
  predicate Truthy(v: JsVal) {
    match v
    case Undefined => false
    case Null => false
    case Bool(b) => b
    case Num(n) => n != 0
    case Str(s) => s != ""
  }

  function DigitChar(d: nat): (c: char)
    requires d < 10
    ensures '0' <= c <= '9'
    ensures c as int - '0' as int == d
  {
    "0123456789"[d]
  }

  /** Decimal digits of a natural number, most significant first. */
  function NatToDecimal(n: nat): (r: string)
    ensures |r| >= 1
    ensures forall i :: 0 <= i < |r| ==> '0' <= r[i] <= '9'
    decreases n
  {
    if n < 10 then [DigitChar(n)] else NatToDecimal(n / 10) + [DigitChar(n % 10)]
  }

  /** The number a string of decimal digits denotes, most significant first. */
  function DecimalValue(s: string): nat
    requires forall i :: 0 <= i < |s| ==> '0' <= s[i] <= '9'
    decreases |s|
  {
    if s == [] then 0
    else DecimalValue(s[..|s| - 1]) * 10 + (s[|s| - 1] as int - '0' as int)
  }

  /** Reading the digits back gives the number: `NatToDecimal` loses nothing. */
  lemma {:induction false} DecimalRoundTrip(n: nat)
    ensures DecimalValue(NatToDecimal(n)) == n
    decreases n
  {
    if n >= 10 {
      var s := NatToDecimal(n);
      assert s[..|s| - 1] == NatToDecimal(n / 10);
      DecimalRoundTrip(n / 10);
    }
  }

  /** `String(v)` on a primitive. Every safe integer is below 10^21, so it is
      written in plain decimal, never in exponent form. */
  function ToJsString(v: JsVal): (r: string)
    ensures v.Str? ==> r == v.s
    ensures v.Num? && v.n >= 0 ==> r != "" && '0' <= r[0] <= '9'
    ensures v.Num? && v.n < 0 ==> r != "" && r[0] == '-'
  {
    match v
    case Undefined => "undefined"
    case Null => "null"
    case Bool(b) => if b then "true" else "false"
    case Num(n) => if n < 0 then "-" + NatToDecimal(-n) else NatToDecimal(n)
    case Str(s) => s
  }

  /** Distinct numbers have distinct strings: reading the string back gives
      the number, its sign from a leading `-`. */
  lemma ToJsStringNumInjective(a: SafeInt, b: SafeInt)
    ensures ToJsString(Num(a)) == ToJsString(Num(b)) ==> a == b
  {
    if ToJsString(Num(a)) == ToJsString(Num(b)) {
      if a < 0 && b < 0 {
        NegativeDigitsInjective(-a, -b);
      } else if a >= 0 && b >= 0 {
        DecimalRoundTrip(a);
        DecimalRoundTrip(b);
      }
    }
  }

  lemma NegativeDigitsInjective(m: nat, k: nat)
    requires "-" + NatToDecimal(m) == "-" + NatToDecimal(k)
    ensures m == k
  {
    var dm, dk := NatToDecimal(m), NatToDecimal(k);
    assert dm == ("-" + dm)[1..] == ("-" + dk)[1..] == dk;
    DecimalRoundTrip(m);
    DecimalRoundTrip(k);
  }
}
