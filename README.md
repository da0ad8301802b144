# A forward-chaining rule engine (`ReteAlgoritmasi`), modelled in Dafny

The Java program is a small production-rule engine.

- A **fact** is a map from slot names to values.
- A **condition** compares one slot of a fact with a constant. It uses one of three operators: `EQUALS`, `GREATER_THAN` or `LESS_THAN_OR_EQUAL`.
- A **rule** is a conjunction of conditions plus an action string.
- The **engine** keeps:
  - the registered rules;
  - one *alpha memory* per slot name that some rule tests;
  - a *beta memory* holding every inserted fact.
- `runRules` evaluates the rules in registration order against the beta memory. It *fires* every rule that holds, which prints the rule's action.

The model has five modules, one file each:

| file | module | what it holds |
|---|---|---|
| `facts.dfy` | `Facts` | The slot value `Value = Int(n) \| Str(s)` and the map `Slots`. The class `Fact`, whose `SetSlot` updates its map in place. |
| `conditions.dfy` | `Conditions` | `Operator`, the two exceptions a condition can raise (`Error`), the result type `Outcome = Ok(holds) \| Err(error)`, and `Condition.Evaluate`. |
| `rules.dfy` | `Rules` | Two functions: `CheckFact` (the conditions in order on one fact) and `Rule.Matches` (the scan of the beta memory). The method `Rule.Evaluate` runs the Java nested loop, with its `break` and early `return`, and is proved equal to `Matches`. |
| `engine.dfy` | `Engine` | The class `ReteAlgoritmasi`, with the fields `rules`, `alphaMemories` and `betaMemory`. Its methods `AddRule`, `AddFact` and `RunRules`. The function `Fired`, which specifies one evaluation pass. The ghost indexing invariant `Valid`. |
| `scenario.dfy` | `Scenario` | The program of `main`, plus variations that show the edge cases. |

`AlphaMemory` and `BetaMemory` are append-only lists in the source. Here they are sequences: the map `alphaMemories` and the field `betaMemory`.

The engine keeps an invariant about the alpha memories. It holds because of the ghost map `indexedFrom`, which records the length of the beta memory when each alpha memory was created. The invariant: the alpha memory of slot `k` is exactly the facts of the beta memory from position `indexedFrom[k]` on that carry `k`, in insertion order.

In four places the engine is less forgiving than one might expect, and the model does what the code does:

- **Missing slot.** A missing slot is an error (`NullSlot`), not a lenient false. `getSlot` returns `null`, and `null.equals` or unboxing `(int) null` throws.
- **No backfill.** `addRule` does not backfill. `putIfAbsent` creates an empty alpha memory, and facts inserted earlier never reach it.
- **No recovery.** `runRules` does not recover from a rule that throws. The exception ends the pass.
- **Duplicates.** A rule registered twice is evaluated twice.

## Model

| member | source | states |
|---|---|---|
| `Facts.Lookup` | ReteAlgoritmasi.java:77-79 | `HashMap.get`: a value exactly when the name is a key, and then the stored value; otherwise `None` (Java `null`). |
| `Facts.Fact.constructor` | ReteAlgoritmasi.java:69-71 | A new fact has no slots. |
| `Facts.Fact.SetSlot` | ReteAlgoritmasi.java:73-75 | The map is updated at `slotName` only. Afterwards `GetSlot(slotName)` is `Some(value)` and `HasSlot(slotName)` holds. Every other slot keeps its old value and its presence. |
| `Facts.Fact.GetSlot` | ReteAlgoritmasi.java:77-83 | `getSlot` returns a value iff `hasSlot` holds for that name, and then the value stored under it. |
| `Facts.Fact.HasSlot` | ReteAlgoritmasi.java:81-83 | `HashMap.containsKey`: holds iff the name is a key of the slot map, that is, iff `get` finds a value. |
| `Conditions.CastToInt` | ReteAlgoritmasi.java:106-108 | The cast `(int) v` succeeds exactly on an integer and gives its value; on a string it fails. |
| `Conditions.Condition.Evaluate` | ReteAlgoritmasi.java:101-111 | A missing slot throws `NullSlot` whatever the operator. Evaluation throws iff the slot is missing, or an ordering operator meets a non-integer on either side. It is then `NotAnInteger` of the fact's value if that is not an integer, else of the constant. When it does not throw: `EQUALS` holds iff the stored value equals the constant, `GREATER_THAN` iff stored > constant, `LESS_THAN_OR_EQUAL` iff stored ≤ constant. |
| `Conditions.OrderingOperatorsDisagree` | ReteAlgoritmasi.java:105-109 | For the same slot and constant, `GREATER_THAN` and `LESS_THAN_OR_EQUAL` both throw or neither does; when they do not, they give opposite answers. |
| `Conditions.EqualsAcrossKindsIsFalse` | ReteAlgoritmasi.java:103-104 | On a present slot, `EQUALS` between an integer and a string is false and does not throw. |
| `Rules.CheckFact` | ReteAlgoritmasi.java:135-141 | A fact checked against no conditions passes. |
| `Rules.CheckFactFirstNotTrue` | ReteAlgoritmasi.java:135-141 | A fact passes iff every condition is true on it. Otherwise the answer is the outcome of the first condition that is not true: false, or the exception it throws. |
| `Rules.ShortCircuit` | ReteAlgoritmasi.java:136-140 | After a false condition, whatever follows (a condition that would throw included) is not evaluated; the fact's answer is false. |
| `Rules.Rule.Matches` | ReteAlgoritmasi.java:133-147 | A rule never holds on an empty memory. |
| `Rules.Rule.Evaluate` | ReteAlgoritmasi.java:133-147 | The nested loop, with its `break` and early `return`, computes `Matches` and changes nothing. |
| `Rules.MatchesFirstNotFalse` | ReteAlgoritmasi.java:134-146 | The scan answers false iff every fact fails without throwing. Otherwise the answer is the outcome of the first fact that does not fail: true, or that fact's exception. |
| `Rules.MatchesIffSomeFactSatisfies` | ReteAlgoritmasi.java:133-147 | When the scan does not throw, the rule holds iff some fact in the memory makes every condition true. |
| `Rules.NoThrowMatchesOk` | ReteAlgoritmasi.java:133-147 | If no condition throws on any fact, the scan does not throw. |
| `Rules.NoConditionsHoldsIffNonEmpty` | ReteAlgoritmasi.java:133-147 | A rule with no conditions holds exactly when the memory is non-empty. |
| `Engine.WithSlot` | ReteAlgoritmasi.java:27-31 | The memory a slot's routing builds: no more facts than the list, and every one of them carries the slot. |
| `Engine.WithSlotMembers` | ReteAlgoritmasi.java:27-31 | A fact is among those carrying `slot` iff it is in the list and carries `slot`. |
| `Engine.WithSlotAppend` | ReteAlgoritmasi.java:28-29 | Appending a fact adds it to the facts carrying `slot` iff it carries `slot`. |
| `Engine.ProvisionAlphaMemories` | ReteAlgoritmasi.java:21-23 | The keys grow by exactly the slots the conditions test. Existing memories keep their contents; new ones are empty. |
| `Engine.RouteToAlphaMemories` | ReteAlgoritmasi.java:27-31 | The keys are unchanged. The fact is appended to the memory of key `k` iff it carries `k`; other memories are unchanged. |
| `Engine.ReteAlgoritmasi.constructor` | ReteAlgoritmasi.java:13-17 | A new engine has no rules, no alpha memories and an empty beta memory, and satisfies the invariant. |
| `Engine.ReteAlgoritmasi.AddRule` | ReteAlgoritmasi.java:19-24 | The invariant is kept. The rule is appended at the end, even if it is a duplicate. The keys become the old keys plus every slot the rule tests. Existing alpha memories are unchanged. New ones are empty, with no backfill: their creation point is the current end of the beta memory. The beta memory is unchanged. |
| `Engine.ReteAlgoritmasi.AddFact` | ReteAlgoritmasi.java:26-33 | The invariant is kept. Rules and alpha keys are unchanged. The memory of key `k` gains the fact at its end iff the fact has slot `k`. The beta memory gains the fact exactly once, at its end. |
| `Engine.Fired` | ReteAlgoritmasi.java:35-41 | A pass emits at most one action per rule. |
| `Engine.FiredStep` | ReteAlgoritmasi.java:36-39 | One step of the pass, from rule `i` on, in terms of that rule's outcome. |
| `Engine.ReteAlgoritmasi.RunRules` | ReteAlgoritmasi.java:35-41 | The loop computes `Fired(rules, betaMemory)` and changes nothing, so two consecutive passes give the same result. |
| `Engine.FiredCompletesIff` | ReteAlgoritmasi.java:35-41 | A pass completes iff no rule throws. |
| `Engine.FiredTraceSound` | ReteAlgoritmasi.java:36-39 | Every emitted action is the action of a rule that holds. |
| `Engine.FiredEmitsEverySatisfiedRule` | ReteAlgoritmasi.java:36-39 | A rule that holds has its action emitted whenever no rule before it throws; a failed pass keeps every action fired before the failure. |
| `Engine.CompletedPassEmitsEverySatisfiedRule` | ReteAlgoritmasi.java:35-41 | A completed pass emits the action of every rule that holds. |
| `Engine.FiredFailureIsFirstThrow` | ReteAlgoritmasi.java:35-41 | A failed pass carries the exception of the first rule that throws; every rule before it was evaluated without throwing. |
| `Engine.FiredAppend` | ReteAlgoritmasi.java:36-40 | A pass over two lists of rules is the pass over the first, followed, when that completes, by the pass over the second. The trace is in registration order. |
| `Engine.IndexedAfterFact` | ReteAlgoritmasi.java:26-33 | Routing a fact to the alpha memories of its slots, and appending it to the beta memory, keeps the index exact. |
| `Engine.IndexedAfterNewMemories` | ReteAlgoritmasi.java:21-23 | Creating empty alpha memories at the current end of the beta memory keeps the index exact. |
| `Engine.CoversAfterRule` | ReteAlgoritmasi.java:20-23 | After `addRule`, every slot tested by a registered rule has an alpha memory. |
| `Engine.AlphaMemoryMembers` | ReteAlgoritmasi.java:19-33 | A fact is in the alpha memory of `k` iff it was inserted since that memory was created and carries `k`. When every rule was registered before the first fact, that is every fact of the beta memory carrying `k`. |
| `Scenario.LoanRuleSlots` | ReteAlgoritmasi.java:47-52 | Rule1 tests `income` and `creditHistory`; Rule2 tests `income`. |
| `Scenario.PassOfTwo` | ReteAlgoritmasi.java:35-41 | A pass over two rules that do not throw emits the action of each one that holds, in order. |
| `Scenario.LoanRulesOnPerson` | ReteAlgoritmasi.java:47-57 | On the fact of `main`, Rule1 holds and Rule2 does not. |
| `Scenario.LoanRulesOnPoorApplicant` | ReteAlgoritmasi.java:47-52 | On income 4000 with a poor credit history, Rule1 fails and Rule2 holds. |
| `Scenario.LoanRulesOnLowIncomeOnly` | ReteAlgoritmasi.java:47-52 | On income 4000 without a credit history, Rule1 fails at its first condition and does not throw; Rule2 holds. |
| `Scenario.Rule1OnHighIncomeOnly` | ReteAlgoritmasi.java:101-104 | On income 6000 without a credit history, Rule1 throws `NullSlot("creditHistory")`. |
| `Scenario.Rule2OnBothIncomes` | ReteAlgoritmasi.java:133-147 | Rule2 fails on income 6000, holds on the later income 100, and fires once. |
| `Scenario.DuplicateRule2Pass` | ReteAlgoritmasi.java:35-41 | Rule2 registered twice fires twice. |
| `Scenario.LoanEngine` | ReteAlgoritmasi.java:44-52 | The two loan rules, registered in order. No facts yet, and empty `income` and `creditHistory` memories. |
| `Scenario.MainScenario` | ReteAlgoritmasi.java:43-63 | `main` emits exactly `["Approved"]` without failure, and a second pass emits the same. |
| `Scenario.PoorCreditScenario` | ReteAlgoritmasi.java:44-62 | Income 4000 with a poor credit history emits exactly `["Denied"]`. |
| `Scenario.MissingSlotAfterFalseScenario` | ReteAlgoritmasi.java:136-140 | With the credit history missing and income 4000, the short-circuit avoids the `null` read: exactly `["Denied"]`. |
| `Scenario.MissingSlotThrowsScenario` | ReteAlgoritmasi.java:101-104 | With the credit history missing and income 6000, Rule1 throws. The pass ends with nothing emitted and does not reach Rule2. |
| `Scenario.TypeMismatchScenario` | ReteAlgoritmasi.java:105-106 | `GREATER_THAN` on a string slot throws the cast failure and ends the pass, although a later rule would fire. |
| `Scenario.NoBackfillScenario` | ReteAlgoritmasi.java:19-33 | A fact inserted before its rule never reaches the new alpha memory. That memory holds only the later fact. Evaluation still sees both facts and emits `["Denied"]`. |
| `Scenario.DuplicateRuleScenario` | ReteAlgoritmasi.java:19-41 | A rule registered twice is evaluated, and fires, twice: `["Denied", "Denied"]`. |

## Left out

- `Rule.fire` prints `"Action: " + action` to standard output. The model records the action string in the `trace` of the `Run` that `RunRules` returns, without the prefix and without console I/O.
- `addFact` iterates over a `HashMap` in an unspecified order. The updates of different alpha memories are independent. The model picks the keys in an arbitrary order (`:|`), and the contract is stated per key.
- Java's untyped `Object` slot values, autoboxing and casts are replaced by the closed datatype `Value` (integers and strings). The two exceptions they can raise become the `Error` cases `NullSlot` (`NullPointerException`) and `NotAnInteger` (`ClassCastException`). Other value classes are not modelled.
- A slot set to Java `null` is not modelled: a present slot always holds an integer or a string.
- A `null` condition constant is not modelled: `Condition.value` is always a `Value`. In Java, `EQUALS` against it gives false on a present slot. Under an ordering operator the fact's value is cast first, so a missing slot or a String value throws as it does here, and the cast of the `null` constant throws `NullPointerException` only when the fact's value is an Integer.
- `addRule(null)` is not modelled: the parameter is a `Rule` value. In Java the null is appended to `rules` and then `getConditions` throws.
- `addFact(null)` is not modelled: the parameter is a `Fact` reference that is never null. In Java `hasSlot` throws at the first alpha memory, or, with no alpha memories, the null reaches the beta memory, and `runRules` throws as soon as a condition reads a slot of it.
- The final `return false` of `Condition.evaluate` (:110) is reached only with a `null` operator. That is not modelled, because `Condition.operator` is always an `Operator`. In Java such a condition is false on every fact and never throws, even when the slot is missing.
- Facts are Java references. A `setSlot` after `addFact` would be visible through the memories. The engine stores the fact's slot map as a value at insertion, so such later changes, and aliasing between memories, are not modelled.
- Java integers are 32-bit. Values here are unbounded `int`. The source only compares integers and never does arithmetic on them, so no result depends on the width.
- `Rule.name` is stored but never read by the source or the model.
- `getConditions` and the `getFacts` getters are plain field reads; the model reads the fields directly.
