/**
 * Form input validation. A form field reaches the app as a JavaScript number
 * (`+input.value`): a finite value, NaN (text that is not a number) or one of
 * the two infinities. The app accepts a list of inputs when every one of them
 * is finite and strictly positive.
 */
module Validation {

  /**
   * A JavaScript number, or the `null` that a number JSON cannot write comes
   * back as after a save and a reload. IEEE-754 rounding is not modelled: a
   * finite value is a real.
   */
  datatype Num = Finite(value: real) | NaN | PosInfinity | NegInfinity | JsonNull

  /** A value JSON can hold as it is: a finite number, or `null`. */
  predicate JsonSafe(x: Num) {
    x.Finite? || x.JsonNull?
  }

  /**
   * `JSON.parse(JSON.stringify(x))`: JSON has no NaN and no infinities and
   * writes them as `null`; every other value comes back as it was.
   */
  function ThroughJson(x: Num): (y: Num)
    ensures JsonSafe(y)
    ensures y == x <==> JsonSafe(x)
    ensures x.Finite? || y.JsonNull?
  {
    if JsonSafe(x) then x else JsonNull
  }

  /** `Number.isFinite(x) && x > 0`. */
  predicate IsPositiveFinite(x: Num) {
    x.Finite? && x.value > 0.0
  }

  /**
   * `_isValidInput(...inputs)`: `inputs.every(...)`, walked front to back as
   * `Array.prototype.every` does. It holds exactly when every input is
   * finite and strictly positive; the empty list is accepted.
   */
  function IsValidInput(inputs: seq<Num>): (ok: bool)
    ensures ok <==> forall i :: 0 <= i < |inputs| ==> inputs[i].Finite? && inputs[i].value > 0.0
    ensures ok ==> forall i :: 0 <= i < |inputs| ==> inputs[i] != NaN && inputs[i] != PosInfinity
    decreases |inputs|
  {
    if inputs == [] then true
    else IsPositiveFinite(inputs[0]) && IsValidInput(inputs[1..])
  }

  /** Zero, negative numbers, NaN and both infinities are each rejected, wherever they appear. */
  lemma RejectsBoundaryValues(before: seq<Num>, x: Num, after: seq<Num>)
    requires x == Finite(0.0) || (x.Finite? && x.value < 0.0) || x == NaN || x == PosInfinity || x == NegInfinity
    ensures !IsValidInput(before + [x] + after)
  {
    assert (before + [x] + after)[|before|] == x;
  }

  /** `_isValidInput(a, b)`. */
  lemma ValidPair(a: Num, b: Num)
    ensures IsValidInput([a, b]) <==> IsPositiveFinite(a) && IsPositiveFinite(b)
  {
  }

  /** `_isValidInput(a, b, c)`. */
  lemma ValidTriple(a: Num, b: Num, c: Num)
    ensures IsValidInput([a, b, c]) <==> IsPositiveFinite(a) && IsPositiveFinite(b) && IsPositiveFinite(c)
  {
    assert [a, b, c][1..] == [b, c];
    ValidPair(b, c);
  }
}
