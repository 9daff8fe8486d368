/** Shared vocabulary of the entity-component store that every rule below
    reads or writes: entity identifiers, the optional value, the two-valued
    run outcome, and the decimal rendering used by `format!("{}", n)`. */
module Ecs {

  /** An entity is an opaque, stable identifier into the store. */
  type Entity = nat

  /** Bevy's `Entity::PLACEHOLDER`: the entity whose index is `u32::MAX`. */
  const PLACEHOLDER: Entity := 0xFFFF_FFFF

  datatype Option<+T> = None | Some(value: T)

  /** The outcome carried by a run result: there is no "still running" value. */
  datatype RunResult = Success | Failure

  /** The digit character for a value below ten. */
  function DigitChar(d: nat): (c: char)
    requires d < 10
    ensures '0' <= c <= '9'
    ensures c as int - '0' as int == d
  {
    ['0', '1', '2', '3', '4', '5', '6', '7', '8', '9'][d]
  }

  /** Base-ten rendering of a natural number, without leading zeros. */
  function NatToDecimal(n: nat): (s: string)
    ensures |s| >= 1
    ensures forall i :: 0 <= i < |s| ==> '0' <= s[i] <= '9'
    ensures |s| > 1 ==> s[0] != '0'
    decreases n
  {
    if n < 10 then [DigitChar(n)] else NatToDecimal(n / 10) + [DigitChar(n % 10)]
  }

  /** The number a string of decimal digits denotes. */
  function DecimalValue(s: string): nat
    requires forall i :: 0 <= i < |s| ==> '0' <= s[i] <= '9'
  {
    if s == [] then 0 else DecimalValue(s[..|s| - 1]) * 10 + (s[|s| - 1] as int - '0' as int)
  }

  /** Reading back the rendering gives the number: distinct counts give distinct texts. */
  lemma {:induction false} DecimalRoundTrip(n: nat)
    ensures DecimalValue(NatToDecimal(n)) == n
    decreases n
  {
    if n >= 10 {
      var s := NatToDecimal(n);
      assert s[..|s| - 1] == NatToDecimal(n / 10);
      DecimalRoundTrip(n / 10);
    }
  }

  /** The run `lo, lo + 1, ..., lo + n - 1`. */
  function Consecutive(lo: nat, n: nat): (r: seq<nat>)
    ensures |r| == n && forall i :: 0 <= i < n ==> r[i] == lo + i
  {
    seq(n, i requires 0 <= i < n => lo + i)
  }

  lemma ConsecutiveAppend(lo: nat, n: nat, m: nat)
    ensures Consecutive(lo, n) + Consecutive(lo + n, m) == Consecutive(lo, n + m)
  {
  }
}
