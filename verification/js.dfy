/**
 * The few JavaScript value rules the normalisation helpers rely on:
 * truthiness of an optional string, `a || b` on strings and `a ?? b`.
 */
module Js {
  import opened Wrappers

  /** A JavaScript value that may be `undefined`, `null` or defined. */
  datatype Nullable<+T> = Undefined | Null | Defined(value: T)

  /** A string field is truthy when it is present and not the empty string. */
  predicate Truthy(s: Option<string>) {
    s.Some? && s.value != ""
  }

  /** `s || fallback` for an optional string field. */
  function OrElse(s: Option<string>, fallback: string): (r: string)
    ensures Truthy(s) ==> r == s.value
    ensures !Truthy(s) ==> r == fallback
  {
    if Truthy(s) then s.value else fallback
  }

  /** `x ?? undefined`: `null` becomes `undefined`, a defined value is kept. */
  function NullToUndefined<T>(x: Nullable<T>): (r: Option<T>)
    ensures r.Some? <==> x.Defined?
    ensures x.Defined? ==> r.value == x.value
  {
    match x
    case Defined(v) => Some(v)
    case _ => None
  }

  /**
   * The first truthy string of a preference list, or `''` when none is:
   * the value of `c0 || c1 || ... || ''`.
   */
  function FirstTruthy(candidates: seq<Option<string>>): (r: string)
    ensures r == "" <==> forall k :: 0 <= k < |candidates| ==> !Truthy(candidates[k])
    ensures r != "" ==> exists k :: 0 <= k < |candidates| && candidates[k] == Some(r)
                                    && forall j :: 0 <= j < k ==> !Truthy(candidates[j])
  {
    if candidates == [] then ""
    else if Truthy(candidates[0]) then candidates[0].value
    else
      var r := FirstTruthy(candidates[1..]);
      assert forall k :: 1 <= k < |candidates| ==> candidates[k] == candidates[1..][k - 1];
      r
  }
}
