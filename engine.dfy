/**
 * The engine (`ReteAlgoritmasi`): registered rules, one alpha memory per slot
 * name that some rule tests, and the beta memory of every inserted fact.
 *
 * An alpha memory is created, empty, by the first rule that tests its slot and
 * from then on receives every inserted fact that carries the slot; facts that
 * were inserted before it existed are never added to it. The ghost map
 * `indexedFrom` records the length of the beta memory at the moment each alpha
 * memory was created, which makes that rule an invariant: the alpha memory of
 * `k` is exactly the facts of the beta memory from `indexedFrom[k]` on that
 * carry `k`, in order.
 *
 * `runRules` evaluates every rule, in registration order, against the beta
 * memory and fires the ones that hold. An exception raised while evaluating a
 * rule is not caught and ends the pass; `Run` records the actions fired before
 * that and, in `failure`, the exception.
 */
module Engine {
  import opened Facts
  import opened Conditions
  import opened Rules

  /** The slot names a list of conditions tests. */
  function SlotsOf(conditions: seq<Condition>): set<string> {
    set i | 0 <= i < |conditions| :: conditions[i].factSlot
  }

  lemma SlotsOfSnoc(conditions: seq<Condition>, i: int)
    requires 0 <= i < |conditions|
    ensures SlotsOf(conditions[..i + 1]) == SlotsOf(conditions[..i]) + {conditions[i].factSlot}
  {
    assert conditions[..i + 1] == conditions[..i] + [conditions[i]];
  }

  /** The facts of a list that carry `slot`, in their order. */
  function WithSlot(facts: seq<Slots>, slot: string): (r: seq<Slots>)
    ensures |r| <= |facts|
    ensures forall i :: 0 <= i < |r| ==> slot in r[i]
    decreases |facts|
  {
    if facts == [] then []
    else
      var last := facts[|facts| - 1];
      WithSlot(facts[..|facts| - 1], slot) + (if slot in last then [last] else [])
  }

  /** A fact is among those carrying `slot` iff it is in the list and carries `slot`. */
  lemma {:induction false} WithSlotMembers(facts: seq<Slots>, slot: string, f: Slots)
    ensures f in WithSlot(facts, slot) <==> f in facts && slot in f
    decreases |facts|
  {
    if facts != [] {
      var init := facts[..|facts| - 1];
      WithSlotMembers(init, slot, f);
      assert facts == init + [facts[|facts| - 1]];
    }
  }

  /** Appending a fact extends the facts carrying `slot` by that fact iff it carries `slot`. */
  lemma WithSlotAppend(facts: seq<Slots>, fact: Slots, slot: string)
    ensures WithSlot(facts + [fact], slot) == WithSlot(facts, slot) + (if slot in fact then [fact] else [])
  {
    assert (facts + [fact])[..|facts|] == facts;
  }

  /** What an evaluation pass printed, and the exception that ended it early, if any. */
  datatype Run = Run(trace: seq<string>, failure: Option<Error>)

  /**
   * The evaluation pass over `rules`: each rule's action is emitted when the
   * rule holds, and the first rule that throws ends the pass.
   */
  function Fired(rules: seq<Rule>, memory: seq<Slots>): (r: Run)
    ensures |r.trace| <= |rules|
    decreases |rules|
  {
    if rules == [] then Run([], None)
    else
      match rules[0].Matches(memory)
      case Err(e) => Run([], Some(e))
      case Ok(b) =>
        var rest := Fired(rules[1..], memory);
        Run((if b then [rules[0].action] else []) + rest.trace, rest.failure)
  }

  /** One step of the pass, from rule `i` on. */
  lemma FiredStep(rules: seq<Rule>, memory: seq<Slots>, i: int, outcome: Outcome)
    requires 0 <= i < |rules| && outcome == rules[i].Matches(memory)
    ensures Fired(rules[i..], memory) ==
      match outcome
      case Err(e) => Run([], Some(e))
      case Ok(b) =>
        Run((if b then [rules[i].action] else []) + Fired(rules[i + 1..], memory).trace,
            Fired(rules[i + 1..], memory).failure)
  {
    assert rules[i..][0] == rules[i] && rules[i..][1..] == rules[i + 1..];
  }

  /** A pass completes iff no rule throws. */
  lemma {:induction false} FiredCompletesIff(rules: seq<Rule>, memory: seq<Slots>)
    ensures Fired(rules, memory).failure.None? <==> forall i :: 0 <= i < |rules| ==> rules[i].Matches(memory).Ok?
    decreases |rules|
  {
    if rules != [] {
      FiredCompletesIff(rules[1..], memory);
      if rules[0].Matches(memory).Ok? {
        forall i | 1 <= i < |rules| ensures rules[i] == rules[1..][i - 1] { }
      }
    }
  }

  /** Every action in the trace is that of a rule that holds. */
  lemma {:induction false} FiredTraceSound(rules: seq<Rule>, memory: seq<Slots>, a: string)
    requires a in Fired(rules, memory).trace
    ensures exists i :: 0 <= i < |rules| && rules[i].action == a && rules[i].Matches(memory) == Ok(true)
    decreases |rules|
  {
    var rest := Fired(rules[1..], memory);
    if !(rules[0].Matches(memory) == Ok(true) && a == rules[0].action) {
      assert a in rest.trace;
      FiredTraceSound(rules[1..], memory, a);
      var i :| 0 <= i < |rules[1..]| && rules[1..][i].action == a && rules[1..][i].Matches(memory) == Ok(true);
      assert rules[i + 1] == rules[1..][i];
    }
  }

  /**
   * A pass that fails carries the exception of the first rule that throws;
   * every rule before it was evaluated without throwing.
   */
  lemma {:induction false} FiredFailureIsFirstThrow(rules: seq<Rule>, memory: seq<Slots>)
    requires Fired(rules, memory).failure.Some?
    ensures exists i :: 0 <= i < |rules| && rules[i].Matches(memory) == Err(Fired(rules, memory).failure.value) &&
                        forall j :: 0 <= j < i ==> rules[j].Matches(memory).Ok?
    decreases |rules|
  {
    if rules[0].Matches(memory).Ok? {
      var e := Fired(rules, memory).failure.value;
      FiredFailureIsFirstThrow(rules[1..], memory);
      var i :| 0 <= i < |rules[1..]| && rules[1..][i].Matches(memory) == Err(e) &&
        forall j :: 0 <= j < i ==> rules[1..][j].Matches(memory).Ok?;
      assert rules[i + 1] == rules[1..][i];
      forall j | 0 <= j < i + 1 ensures rules[j].Matches(memory).Ok? {
        if j > 0 { assert rules[j] == rules[1..][j - 1]; }
      }
    }
  }

  /**
   * A rule that holds has its action emitted whenever no rule before it
   * throws, so a pass that fails keeps the actions fired before the failure.
   */
  lemma {:induction false} FiredEmitsEverySatisfiedRule(rules: seq<Rule>, memory: seq<Slots>, i: int)
    requires 0 <= i < |rules| && rules[i].Matches(memory) == Ok(true)
    requires forall j :: 0 <= j < i ==> rules[j].Matches(memory).Ok?
    ensures rules[i].action in Fired(rules, memory).trace
    decreases |rules|
  {
    if i > 0 {
      assert rules[0].Matches(memory).Ok?;
      assert rules[1..][i - 1] == rules[i];
      forall j | 0 <= j < i - 1 ensures rules[1..][j].Matches(memory).Ok? {
        assert rules[1..][j] == rules[j + 1];
      }
      FiredEmitsEverySatisfiedRule(rules[1..], memory, i - 1);
    }
  }

  /** A completed pass emits the action of every rule that holds. */
  lemma CompletedPassEmitsEverySatisfiedRule(rules: seq<Rule>, memory: seq<Slots>, i: int)
    requires Fired(rules, memory).failure.None?
    requires 0 <= i < |rules| && rules[i].Matches(memory) == Ok(true)
    ensures rules[i].action in Fired(rules, memory).trace
  {
    FiredCompletesIff(rules, memory);
    FiredEmitsEverySatisfiedRule(rules, memory, i);
  }

  /**
   * A pass over two lists of rules is the pass over the first, followed, when
   * that one completes, by the pass over the second: the trace lists the
   * actions in registration order.
   */
  lemma {:induction false} FiredAppend(first: seq<Rule>, second: seq<Rule>, memory: seq<Slots>)
    ensures Fired(first + second, memory) ==
      if Fired(first, memory).failure.Some? then Fired(first, memory)
      else Run(Fired(first, memory).trace + Fired(second, memory).trace, Fired(second, memory).failure)
    decreases |first|
  {
    if first == [] {
      assert first + second == second;
    } else {
      assert (first + second)[0] == first[0];
      assert (first + second)[1..] == first[1..] + second;
      FiredAppend(first[1..], second, memory);
    }
  }

  /**
   * The indexing invariant on values: each alpha memory is exactly the facts
   * of the beta memory from its creation point on that carry its slot.
   */
  ghost predicate Indexed(alpha: map<string, seq<Slots>>, from: map<string, nat>, beta: seq<Slots>) {
    && from.Keys == alpha.Keys
    && forall k :: k in from ==> from[k] <= |beta| && alpha[k] == WithSlot(beta[from[k]..], k)
  }

  /** Every slot tested by a rule has an alpha memory. */
  ghost predicate Covers(rules: seq<Rule>, keys: set<string>) {
    forall r :: r in rules ==> SlotsOf(r.conditions) <= keys
  }

  /** A rule whose slots all have alpha memories may be added to a covered list of rules. */
  lemma CoversAfterRule(rules: seq<Rule>, rule: Rule, keys: set<string>, keys': set<string>)
    requires Covers(rules, keys) && keys <= keys' && SlotsOf(rule.conditions) <= keys'
    ensures Covers(rules + [rule], keys')
  {
  }

  /** Routing a new fact to the alpha memories of its slots keeps the index exact. */
  lemma IndexedAfterFact(alpha: map<string, seq<Slots>>, alpha': map<string, seq<Slots>>,
                         from: map<string, nat>, beta: seq<Slots>, fact: Slots)
    requires Indexed(alpha, from, beta)
    requires alpha'.Keys == alpha.Keys
    requires forall k :: k in alpha ==> alpha'[k] == alpha[k] + (if k in fact then [fact] else [])
    ensures Indexed(alpha', from, beta + [fact])
  {
    forall k | k in from
      ensures from[k] <= |beta + [fact]| && alpha'[k] == WithSlot((beta + [fact])[from[k]..], k)
    {
      assert (beta + [fact])[from[k]..] == beta[from[k]..] + [fact];
      WithSlotAppend(beta[from[k]..], fact, k);
    }
  }

  /** New, empty alpha memories created at the current end of the beta memory keep the index exact. */
  lemma IndexedAfterNewMemories(alpha: map<string, seq<Slots>>, alpha': map<string, seq<Slots>>,
                                from: map<string, nat>, from': map<string, nat>, beta: seq<Slots>)
    requires Indexed(alpha, from, beta)
    requires from'.Keys == alpha'.Keys && alpha.Keys <= alpha'.Keys
    requires forall k :: k in alpha ==> alpha'[k] == alpha[k] && from'[k] == from[k]
    requires forall k :: k in alpha' && k !in alpha ==> alpha'[k] == [] && from'[k] == |beta|
    ensures Indexed(alpha', from', beta)
  {
    forall k | k in from' && k !in from
      ensures alpha'[k] == WithSlot(beta[from'[k]..], k)
    {
      assert beta[from'[k]..] == [];
    }
  }

  /**
   * The loop of `addRule` over the rule's conditions: `putIfAbsent` of an
   * empty alpha memory for each slot tested; memories that exist are kept.
   */
  method ProvisionAlphaMemories(alphaMemories: map<string, seq<Slots>>, conditions: seq<Condition>)
    returns (alpha: map<string, seq<Slots>>)
    ensures alpha.Keys == alphaMemories.Keys + SlotsOf(conditions)
    ensures forall k :: k in alphaMemories ==> alpha[k] == alphaMemories[k]
    ensures forall k :: k in alpha && k !in alphaMemories ==> alpha[k] == []
  {
    alpha := alphaMemories;
    var i := 0;
    while i < |conditions|
      invariant 0 <= i <= |conditions|
      invariant alpha.Keys == alphaMemories.Keys + SlotsOf(conditions[..i])
      invariant forall k :: k in alphaMemories ==> alpha[k] == alphaMemories[k]
      invariant forall k :: k in alpha && k !in alphaMemories ==> alpha[k] == []
    {
      var slot := conditions[i].factSlot;
      if slot !in alpha {
        alpha := alpha[slot := []];
      }
      SlotsOfSnoc(conditions, i);
      i := i + 1;
    }
    assert conditions[..i] == conditions;
  }

  /**
   * The loop of `addFact` over the alpha memories' entries (in no particular
   * order): the fact is appended to the memory of each slot it carries.
   */
  method RouteToAlphaMemories(alphaMemories: map<string, seq<Slots>>, fact: Slots)
    returns (alpha: map<string, seq<Slots>>)
    ensures alpha.Keys == alphaMemories.Keys
    ensures forall k :: k in alpha ==> alpha[k] == alphaMemories[k] + (if k in fact then [fact] else [])
  {
    alpha := alphaMemories;
    var keys := alpha.Keys;
    while keys != {}
      invariant keys <= alpha.Keys == alphaMemories.Keys
      invariant forall k :: k in alpha && k !in keys ==>
        alpha[k] == alphaMemories[k] + (if k in fact then [fact] else [])
      invariant forall k :: k in keys ==> alpha[k] == alphaMemories[k]
      decreases keys
    {
      var k :| k in keys;
      if k in fact {
        alpha := alpha[k := alpha[k] + [fact]];
      }
      keys := keys - {k};
    }
  }

  class ReteAlgoritmasi {
    var rules: seq<Rule>
    var alphaMemories: map<string, seq<Slots>>
    var betaMemory: seq<Slots>
    /** For each alpha memory, the length of the beta memory when it was created. */
    ghost var indexedFrom: map<string, nat>

    ghost predicate Valid()
      reads this
    {
      && Indexed(alphaMemories, indexedFrom, betaMemory)
      && Covers(rules, alphaMemories.Keys)
    }

    constructor ()
      ensures Valid()
      ensures rules == [] && alphaMemories == map[] && betaMemory == []
    {
      rules := [];
      alphaMemories := map[];
      betaMemory := [];
      indexedFrom := map[];
    }

    /**
     * Appends the rule (a duplicate is appended again) and creates an empty
     * alpha memory for each slot it tests that has none; nothing is copied
     * into a new alpha memory from the beta memory.
     */
    method AddRule(rule: Rule)
      requires Valid()
      modifies this
      ensures Valid()
      ensures rules == old(rules) + [rule]
      ensures betaMemory == old(betaMemory)
      ensures alphaMemories.Keys == old(alphaMemories).Keys + SlotsOf(rule.conditions)
      ensures forall k :: k in old(alphaMemories) ==> alphaMemories[k] == old(alphaMemories)[k]
      ensures forall k :: k in alphaMemories && k !in old(alphaMemories) ==>
        alphaMemories[k] == [] && indexedFrom[k] == |betaMemory|
      ensures forall k :: k in old(indexedFrom) ==> indexedFrom[k] == old(indexedFrom)[k]
    {
      var alpha := ProvisionAlphaMemories(alphaMemories, rule.conditions);
      ghost var from := map k | k in alpha :: if k in indexedFrom then indexedFrom[k] else |betaMemory|;
      CoversAfterRule(rules, rule, alphaMemories.Keys, alpha.Keys);
      IndexedAfterNewMemories(alphaMemories, alpha, indexedFrom, from, betaMemory);
      rules := rules + [rule];
      alphaMemories := alpha;
      indexedFrom := from;
    }

    /**
     * Appends the fact to the alpha memory of every slot it carries, the
     * others keep their contents, and then appends it to the beta memory.
     * The fact is stored as the value of its slots at this moment.
     */
    method AddFact(fact: Fact)
      requires Valid()
      modifies this
      ensures Valid()
      ensures rules == old(rules)
      ensures alphaMemories.Keys == old(alphaMemories).Keys
      ensures forall k :: k in alphaMemories ==>
        alphaMemories[k] == old(alphaMemories)[k] + (if fact.HasSlot(k) then [fact.slots] else [])
      ensures betaMemory == old(betaMemory) + [fact.slots]
      ensures indexedFrom == old(indexedFrom)
    {
      var slots := fact.slots;
      var alpha := RouteToAlphaMemories(alphaMemories, slots);
      IndexedAfterFact(alphaMemories, alpha, indexedFrom, betaMemory, slots);
      alphaMemories := alpha;
      betaMemory := betaMemory + [slots];
    }

    /**
     * Evaluates every rule against the beta memory in registration order and
     * fires (emits the action of) each one that holds; an exception ends the
     * pass. Nothing in the engine changes.
     */
    method RunRules() returns (run: Run)
      ensures run == Fired(rules, betaMemory)
    {
      var trace: seq<string> := [];
      var i := 0;
      while i < |rules|
        invariant 0 <= i <= |rules|
        invariant Fired(rules, betaMemory) ==
          Run(trace + Fired(rules[i..], betaMemory).trace, Fired(rules[i..], betaMemory).failure)
      {
        var holds := rules[i].Evaluate(betaMemory);
        FiredStep(rules, betaMemory, i, holds);
        if holds.Err? {
          assert trace + [] == trace;
          return Run(trace, Some(holds.error));
        }
        if holds.holds {
          assert (trace + [rules[i].action]) + Fired(rules[i + 1..], betaMemory).trace
            == trace + ([rules[i].action] + Fired(rules[i + 1..], betaMemory).trace);
          trace := trace + [rules[i].action];
        } else {
          assert [] + Fired(rules[i + 1..], betaMemory).trace == Fired(rules[i + 1..], betaMemory).trace;
        }
        i := i + 1;
      }
      assert rules[i..] == [] && trace + [] == trace;
      run := Run(trace, None);
    }
  }

  /**
   * An alpha memory holds exactly the facts inserted since it was created
   * that carry its slot; when every rule was registered before the first
   * fact, that is every fact of the beta memory carrying the slot.
   */
  lemma AlphaMemoryMembers(engine: ReteAlgoritmasi, k: string, f: Slots)
    requires engine.Valid() && k in engine.alphaMemories
    ensures f in engine.alphaMemories[k] <==>
      exists j :: engine.indexedFrom[k] <= j < |engine.betaMemory| && engine.betaMemory[j] == f && k in f
    ensures engine.indexedFrom[k] == 0 ==>
      (f in engine.alphaMemories[k] <==> f in engine.betaMemory && k in f)
  {
    var from := engine.indexedFrom[k];
    var tail := engine.betaMemory[from..];
    WithSlotMembers(tail, k, f);
    assert f in tail <==> exists j :: from <= j < |engine.betaMemory| && engine.betaMemory[j] == f by {
      if f in tail {
        var j :| 0 <= j < |tail| && tail[j] == f;
        assert engine.betaMemory[from + j] == f;
      }
    }
    if from == 0 {
      assert tail == engine.betaMemory;
    }
  }
}
