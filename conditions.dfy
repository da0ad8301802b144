/**
 * Conditions: one comparison of one fact slot against a constant.
 *
 * The Java code compares untyped `Object`s and relies on unboxing and casts;
 * the two ways that can throw are the `Error` cases below, and an evaluation
 * that throws yields `Err` instead of a boolean.
 */
module Conditions {
  import opened Facts

  datatype Operator = Equals | GreaterThan | LessThanOrEqual

  /** The exceptions a condition evaluation can raise. */
  datatype Error =
    | NullSlot(slot: string)     // NullPointerException: the fact has no such slot
    | NotAnInteger(value: Value) // ClassCastException: `(int)` applied to a non-Integer

  /** A boolean, or the exception that was thrown instead. */
  datatype Outcome = Ok(holds: bool) | Err(error: Error)

  /** Java's unboxing cast `(int) v` on a non-null value. */
  function CastToInt(v: Value): (r: Option<int>)
    ensures r.Some? <==> v.Int?
    ensures r.Some? ==> r.value == v.n
  {
    match v
    case Int(n) => Some(n)
    case Str(_) => None
  }

  datatype Condition = Condition(factSlot: string, operator: Operator, value: Value) {

    /**
     * The slot is read first. A missing slot throws for every operator
     * (`null.equals` or unboxing `null`). EQUALS is `Object.equals`, which is
     * structural on Integer and String and false across the two. The ordering
     * operators cast the fact's value first and the constant second.
     */
    function Evaluate(fact: Slots): (r: Outcome)
      ensures factSlot !in fact ==> r == Err(NullSlot(factSlot))
      ensures r.Err? <==>
        factSlot !in fact || (operator != Equals && (!fact[factSlot].Int? || !value.Int?))
      ensures r.Ok? && operator == Equals ==> (r.holds <==> fact[factSlot] == value)
      ensures r.Ok? && operator == GreaterThan ==> (r.holds <==> fact[factSlot].n > value.n)
      ensures r.Ok? && operator == LessThanOrEqual ==> (r.holds <==> fact[factSlot].n <= value.n)
      ensures r.Err? && factSlot in fact ==>
        r.error == NotAnInteger(if fact[factSlot].Int? then value else fact[factSlot])
    {
      match Lookup(fact, factSlot)
      case None => Err(NullSlot(factSlot))
      case Some(v) =>
        match operator
        case Equals => Ok(v == value)
        case GreaterThan =>
          (match (CastToInt(v), CastToInt(value))
           case (None, _) => Err(NotAnInteger(v))
           case (Some(_), None) => Err(NotAnInteger(value))
           case (Some(x), Some(y)) => Ok(x > y))
        case LessThanOrEqual =>
          (match (CastToInt(v), CastToInt(value))
           case (None, _) => Err(NotAnInteger(v))
           case (Some(_), None) => Err(NotAnInteger(value))
           case (Some(x), Some(y)) => Ok(x <= y))
    }
  }

  /**
   * For the same slot and constant, GREATER_THAN and LESS_THAN_OR_EQUAL
   * either both throw or give opposite answers.
   */
  lemma OrderingOperatorsDisagree(slot: string, c: Value, fact: Slots)
    ensures Condition(slot, GreaterThan, c).Evaluate(fact).Err?
        <==> Condition(slot, LessThanOrEqual, c).Evaluate(fact).Err?
    ensures Condition(slot, GreaterThan, c).Evaluate(fact).Ok? ==>
      Condition(slot, GreaterThan, c).Evaluate(fact).holds
        != Condition(slot, LessThanOrEqual, c).Evaluate(fact).holds
  {
  }

  /** A value never equals a value of the other kind, so EQUALS never throws on a present slot. */
  lemma EqualsAcrossKindsIsFalse(slot: string, n: int, s: string, fact: Slots)
    requires slot in fact
    ensures fact[slot].Int? ==> Condition(slot, Equals, Str(s)).Evaluate(fact) == Ok(false)
    ensures fact[slot].Str? ==> Condition(slot, Equals, Int(n)).Evaluate(fact) == Ok(false)
  {
  }
}
