/** The stock-status column of the two branch inventory listings: an
    ordered SQL `CASE` over `stock_actual` and `stock_minimo`. Both
    columns may be NULL; a comparison with NULL is unknown, so its `WHEN`
    does not fire and evaluation falls through to the next one. */
module Inventory {
  import opened Wrappers

  /** Which arm of the `CASE` fires. */
  datatype Level = Out | Low | Available

  /** SQL `a <= b` when either side may be NULL: true only when both are known. */
  predicate AtMost(a: Option<int>, b: Option<int>) {
    a.Some? && b.Some? && a.value <= b.value
  }

  /** The ordered rule: `stock_actual <= 0`, then `stock_actual <= stock_minimo`,
      else the last arm. Exactly one level applies and the first matching
      `WHEN` wins, so a stock that is both non-positive and below the minimum
      is `Out`, never `Low`. */
  function Classify(actual: Option<int>, minimum: Option<int>): (l: Level)
    ensures l == Out <==> actual.Some? && actual.value <= 0
    ensures l == Low <==> actual.Some? && 0 < actual.value && minimum.Some? && actual.value <= minimum.value
    ensures l == Available <==> actual.None? || (0 < actual.value && (minimum.None? || minimum.value < actual.value))
  {
    if AtMost(actual, Some(0)) then Out
    else if AtMost(actual, minimum) then Low
    else Available
  }

  /** The labels of the administrator's listing. */
  function AdminLabel(l: Level): string {
    match l
    case Out => "Agotado"
    case Low => "Bajo Stock"
    case Available => "Disponible"
  }

  /** The labels of the branch manager's listing. */
  function ManagerLabel(l: Level): string {
    match l
    case Out => "Sin Stock"
    case Low => "Bajo Stock"
    case Available => "Disponible"
  }

  /** The administrator's `estado` column. */
  function AdminStatus(actual: Option<int>, minimum: Option<int>): (text: string)
    ensures text == "Agotado" <==> actual.Some? && actual.value <= 0
    ensures text == "Bajo Stock" <==> Classify(actual, minimum) == Low
    ensures text == "Disponible" <==> Classify(actual, minimum) == Available
  {
    AdminLabel(Classify(actual, minimum))
  }

  /** The manager's `estado` column. */
  function ManagerStatus(actual: Option<int>, minimum: Option<int>): (text: string)
    ensures text == "Sin Stock" <==> actual.Some? && actual.value <= 0
    ensures text == "Bajo Stock" <==> Classify(actual, minimum) == Low
    ensures text == "Disponible" <==> Classify(actual, minimum) == Available
  {
    ManagerLabel(Classify(actual, minimum))
  }

  /** The two listings apply the same rule and disagree only in the wording
      of the out-of-stock arm. */
  lemma ListingsAgree(actual: Option<int>, minimum: Option<int>)
    ensures AdminStatus(actual, minimum) == ManagerStatus(actual, minimum)
            <==> !(actual.Some? && actual.value <= 0)
  {
  }

  function Rank(l: Level): nat {
    match l
    case Out => 0
    case Low => 1
    case Available => 2
  }

  /** With the minimum fixed, more stock never gives a worse status. */
  lemma MoreStockNotWorse(a: int, b: int, minimum: Option<int>)
    requires a <= b
    ensures Rank(Classify(Some(a), minimum)) <= Rank(Classify(Some(b), minimum))
  {
  }
}
