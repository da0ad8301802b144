/**
 * Facts: the slot map a production rule is matched against.
 *
 * A Java `Fact` is an object holding a `HashMap<String, Object>`. Here the
 * values a slot can hold form the closed datatype `Value`, the map itself is
 * the value type `Slots` (what the engine stores once a fact is inserted), and
 * the mutable Java object is the class `Fact`, whose `SetSlot` updates its map
 * in place.
 */
module Facts {

  datatype Option<T> = None | Some(value: T)

  /** A slot value: a Java `Integer` or a Java `String`. */
  datatype Value = Int(n: int) | Str(s: string)

  /** The contents of a fact: slot name to value. */
  type Slots = map<string, Value>

  /**
   * `HashMap.get`: the value stored under `name`, or `None` (Java's `null`)
   * when the fact has no such slot.
   */
  function Lookup(slots: Slots, name: string): (r: Option<Value>)
    ensures r.Some? <==> name in slots
    ensures r.Some? ==> r.value == slots[name]
  {
    if name in slots then Some(slots[name]) else None
  }

  class Fact {
    var slots: Slots

    /** A fresh fact has no slots. */
    constructor ()
      ensures slots == map[]
      ensures forall name :: !HasSlot(name)
    {
      slots := map[];
    }

    /** Inserts or overwrites the value of one slot; every other slot is untouched. */
    method SetSlot(slotName: string, value: Value)
      modifies this
      ensures slots == old(slots)[slotName := value]
      ensures GetSlot(slotName) == Some(value) && HasSlot(slotName)
      ensures forall name :: name != slotName ==> GetSlot(name) == old(GetSlot(name))
      ensures forall name :: name != slotName ==> (HasSlot(name) <==> old(HasSlot(name)))
    {
      slots := slots[slotName := value];
    }

    function GetSlot(slotName: string): (r: Option<Value>)
      reads this
      ensures r.Some? <==> HasSlot(slotName)
      ensures r.Some? ==> r.value == slots[slotName]
    {
      Lookup(slots, slotName)
    }

    /** `HashMap.containsKey`: the slot is present exactly when `get` finds a value. */
    predicate HasSlot(slotName: string): (r: bool)
      reads this
      ensures r <==> Lookup(slots, slotName).Some?
    {
      slotName in slots
    }
  }
}
