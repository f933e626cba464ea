/**
 * The few JavaScript built-ins the core relies on, with their ECMAScript
 * semantics written out: truthiness of an optional string, the `a || b`
 * fallback, `String.prototype.slice` with negative and out-of-range indices,
 * and the conversion of an integral Number to its decimal text.
 */
module Js {
  import opened Wrappers

  /** `!!v` for a value that is either `undefined`/`null` or a string. */
  predicate Truthy(v: Option<string>) {
    v.Some? && v.value != ""
  }

  /** `v || fallback` for an optional string. */
  function Or(v: Option<string>, fallback: string): (r: string)
    ensures Truthy(v) ==> r == v.value
    ensures !Truthy(v) ==> r == fallback
  {
    if Truthy(v) then v.value else fallback
  }

  /** How `slice` resolves a relative index against a string of length `len`. */
  function RelativeIndex(k: int, len: nat): (r: nat)
    ensures r <= len
    ensures 0 <= k <= len ==> r == k
    ensures k < 0 && len + k >= 0 ==> r == len + k
  {
    if k < 0 then (if len + k < 0 then 0 else len + k)
    else if k > len then len
    else k
  }

  /** `s.slice(start, end)`. */
  function Slice(s: string, start: int, end: int): string {
    var from := RelativeIndex(start, |s|);
    var to := RelativeIndex(end, |s|);
    if from < to then s[from..to] else []
  }

  /** `s.slice(start)`: the end defaults to the length. */
  function SliceFrom(s: string, start: int): string {
    Slice(s, start, |s|)
  }

  function Min(a: int, b: int): int {
    if a < b then a else b
  }

  function DigitChar(d: nat): char
    requires d < 10
  {
    "0123456789"[d]
  }

  function NatToDecimal(n: nat): (r: string)
    ensures r != []
    ensures forall i :: 0 <= i < |r| ==> '0' <= r[i] <= '9'
  {
    if n < 10 then [DigitChar(n)] else NatToDecimal(n / 10) + [DigitChar(n % 10)]
  }

  /** The number a string of decimal digits denotes, most significant digit first. */
  function DecimalValue(s: string): int {
    if s == [] then 0 else DecimalValue(s[..|s| - 1]) * 10 + (s[|s| - 1] as int - '0' as int)
  }

  /**
   * The digits `NatToDecimal` writes denote `n`, without leading zeros: the
   * text is the canonical decimal form of `n`.
   */
  lemma {:induction false} NatToDecimalValue(n: nat)
    ensures DecimalValue(NatToDecimal(n)) == n
    ensures NatToDecimal(n)[0] == '0' ==> n == 0
  {
    var r := NatToDecimal(n);
    if n < 10 {
      assert r[..0] == [];
    } else {
      NatToDecimalValue(n / 10);
      assert r[..|r| - 1] == NatToDecimal(n / 10);
      assert r[0] == NatToDecimal(n / 10)[0];
    }
  }

  /** `${n}` for an integral Number: optional minus sign, then decimal digits. */
  function IntToString(n: int): (r: string)
    ensures r != []
    ensures r[0] == '-' <==> n < 0
    ensures forall i :: 0 <= i < |r| ==> r[i] == '-' || '0' <= r[i] <= '9'
  {
    if n < 0 then "-" + NatToDecimal(-n) else NatToDecimal(n)
  }

  /** Different integers have different decimal texts. */
  lemma IntToStringInjective(a: int, b: int)
    ensures IntToString(a) == IntToString(b) <==> a == b
  {
    if IntToString(a) == IntToString(b) {
      if a < 0 && b < 0 {
        NegativeTextInjective(a, b);
      } else if a >= 0 && b >= 0 {
        NatToDecimalValue(a);
        NatToDecimalValue(b);
      }
    }
  }

  lemma NegativeTextInjective(a: int, b: int)
    requires a < 0 && b < 0 && IntToString(a) == IntToString(b)
    ensures a == b
  {
    var m, n: nat := -a, -b;
    NegativeText(a);
    NegativeText(b);
    assert NatToDecimal(m) == NatToDecimal(n);
    NatToDecimalValue(m);
    NatToDecimalValue(n);
  }

  /** The text of a negative integer is a minus sign, then the digits of its magnitude. */
  lemma NegativeText(n: int)
    requires n < 0
    ensures IntToString(n)[1..] == NatToDecimal(-n)
  {
    var d := NatToDecimal(-n);
    assert ("-" + d)[1..] == d;
  }
}
