/**
 * Rules: a conjunction of conditions with an action string.
 *
 * `Rule.evaluate` scans the beta memory fact by fact; per fact it checks the
 * conditions in order and gives up on that fact at the first false one; it
 * answers true at the first fact that passes every condition. An exception
 * thrown by a condition leaves the scan at once. `CheckFact` and `Matches`
 * state that protocol as functions and the method `Rule.Evaluate` runs it as
 * the Java loops do.
 */
module Rules {
  import opened Facts
  import opened Conditions

  /**
   * The conditions checked in order against one fact, stopping at the first
   * one that is false or throws.
   */
  function CheckFact(conditions: seq<Condition>, fact: Slots): (r: Outcome)
    ensures conditions == [] ==> r == Ok(true)
    decreases |conditions|
  {
    if conditions == [] then Ok(true)
    else
      match conditions[0].Evaluate(fact)
      case Err(e) => Err(e)
      case Ok(b) => if b then CheckFact(conditions[1..], fact) else Ok(false)
  }

  /** The first `n` conditions all evaluate to true on the fact. */
  ghost predicate PassesBefore(conditions: seq<Condition>, fact: Slots, n: int)
    requires n <= |conditions|
  {
    forall j :: 0 <= j < n ==> conditions[j].Evaluate(fact) == Ok(true)
  }

  /**
   * A fact passes iff every condition is true on it; otherwise the answer is
   * the outcome (false or the exception) of the first condition that is not
   * true.
   */
  lemma {:induction false} CheckFactFirstNotTrue(conditions: seq<Condition>, fact: Slots)
    ensures CheckFact(conditions, fact) == Ok(true) <==> PassesBefore(conditions, fact, |conditions|)
    ensures CheckFact(conditions, fact) != Ok(true) ==>
      exists i :: 0 <= i < |conditions| && PassesBefore(conditions, fact, i) &&
        conditions[i].Evaluate(fact) != Ok(true) && CheckFact(conditions, fact) == conditions[i].Evaluate(fact)
    decreases |conditions|
  {
    if conditions != [] {
      var rest := conditions[1..];
      CheckFactFirstNotTrue(rest, fact);
      if conditions[0].Evaluate(fact) == Ok(true) {
        assert PassesBefore(conditions, fact, |conditions|) <==> PassesBefore(rest, fact, |rest|) by {
          forall j | 1 <= j < |conditions| ensures conditions[j] == rest[j - 1] { }
        }
        if CheckFact(conditions, fact) != Ok(true) {
          var i :| 0 <= i < |rest| && PassesBefore(rest, fact, i) &&
            rest[i].Evaluate(fact) != Ok(true) && CheckFact(rest, fact) == rest[i].Evaluate(fact);
          assert conditions[i + 1] == rest[i];
          assert PassesBefore(conditions, fact, i + 1) by {
            forall j | 1 <= j < i + 1 ensures conditions[j] == rest[j - 1] { }
          }
        }
      } else {
        assert PassesBefore(conditions, fact, 0);
      }
    }
  }

  /**
   * A condition behind the first false one is never evaluated, so whatever
   * it would do (throw included) cannot change the answer.
   */
  lemma {:induction false} ShortCircuit(prefix: seq<Condition>, c: Condition, rest: seq<Condition>, fact: Slots)
    requires PassesBefore(prefix, fact, |prefix|)
    requires c.Evaluate(fact) == Ok(false)
    ensures CheckFact(prefix + [c] + rest, fact) == Ok(false)
    decreases |prefix|
  {
    if prefix == [] {
      assert (prefix + [c] + rest)[0] == c;
    } else {
      assert (prefix + [c] + rest)[0] == prefix[0];
      assert (prefix + [c] + rest)[1..] == prefix[1..] + [c] + rest;
      assert prefix[0].Evaluate(fact) == Ok(true);
      assert PassesBefore(prefix[1..], fact, |prefix| - 1) by {
        forall j | 0 <= j < |prefix| - 1 ensures prefix[1..][j] == prefix[j + 1] { }
      }
      ShortCircuit(prefix[1..], c, rest, fact);
    }
  }

  datatype Rule = Rule(name: string, conditions: seq<Condition>, action: string) {

    /**
     * The scan of the beta memory: the first fact whose check is not
     * `Ok(false)` decides the answer.
     */
    function Matches(memory: seq<Slots>): (r: Outcome)
      ensures memory == [] ==> r == Ok(false)
      decreases |memory|
    {
      if memory == [] then Ok(false)
      else
        match CheckFact(conditions, memory[0])
        case Err(e) => Err(e)
        case Ok(b) => if b then Ok(true) else Matches(memory[1..])
    }

    /**
     * `Rule.evaluate(betaMemory)`: the nested scan with its `break` and early
     * `return`; it reads the memory and changes nothing.
     */
    method Evaluate(memory: seq<Slots>) returns (r: Outcome)
      ensures r == Matches(memory)
    {
      var f := 0;
      while f < |memory|
        invariant 0 <= f <= |memory|
        invariant Matches(memory) == Matches(memory[f..])
      {
        var fact := memory[f];
        var allConditionsMet := true;
        var i := 0;
        while i < |conditions|
          invariant 0 <= i <= |conditions|
          invariant allConditionsMet
          invariant CheckFact(conditions, fact) == CheckFact(conditions[i..], fact)
        {
          var c := conditions[i].Evaluate(fact);
          if c.Err? {
            assert memory[f..][0] == fact;
            return c;
          }
          if !c.holds {
            allConditionsMet := false;
            break;
          }
          assert conditions[i..][1..] == conditions[i + 1..];
          i := i + 1;
        }
        assert memory[f..][0] == fact;
        if allConditionsMet {
          return Ok(true);
        }
        assert memory[f..][1..] == memory[f + 1..];
        f := f + 1;
      }
      r := Ok(false);
    }
  }

  /** The first `n` facts of the memory all fail the rule without throwing. */
  ghost predicate FailsBefore(rule: Rule, memory: seq<Slots>, n: int)
    requires n <= |memory|
  {
    forall k :: 0 <= k < n ==> CheckFact(rule.conditions, memory[k]) == Ok(false)
  }

  /**
   * The scan answers false iff every fact fails; otherwise its answer is the
   * outcome (true or the exception) of the first fact that does not fail.
   */
  lemma {:induction false} MatchesFirstNotFalse(rule: Rule, memory: seq<Slots>)
    ensures rule.Matches(memory) == Ok(false) <==> FailsBefore(rule, memory, |memory|)
    ensures rule.Matches(memory) != Ok(false) ==>
      exists j :: 0 <= j < |memory| && FailsBefore(rule, memory, j) &&
        CheckFact(rule.conditions, memory[j]) != Ok(false) &&
        rule.Matches(memory) == CheckFact(rule.conditions, memory[j])
    decreases |memory|
  {
    if memory != [] {
      var rest := memory[1..];
      MatchesFirstNotFalse(rule, rest);
      if CheckFact(rule.conditions, memory[0]) == Ok(false) {
        assert FailsBefore(rule, memory, |memory|) <==> FailsBefore(rule, rest, |rest|) by {
          forall k | 1 <= k < |memory| ensures memory[k] == rest[k - 1] { }
        }
        if rule.Matches(memory) != Ok(false) {
          var j :| 0 <= j < |rest| && FailsBefore(rule, rest, j) &&
            CheckFact(rule.conditions, rest[j]) != Ok(false) &&
            rule.Matches(rest) == CheckFact(rule.conditions, rest[j]);
          assert memory[j + 1] == rest[j];
          assert FailsBefore(rule, memory, j + 1) by {
            forall k | 1 <= k < j + 1 ensures memory[k] == rest[k - 1] { }
          }
        }
      } else {
        assert FailsBefore(rule, memory, 0);
      }
    }
  }

  /** A fact satisfies a rule when every condition of the rule evaluates to true on it. */
  ghost predicate SatisfiedBy(rule: Rule, fact: Slots) {
    PassesBefore(rule.conditions, fact, |rule.conditions|)
  }

  /**
   * Whenever the scan does not throw, the rule holds iff some fact in memory
   * satisfies every condition.
   */
  lemma MatchesIffSomeFactSatisfies(rule: Rule, memory: seq<Slots>)
    requires rule.Matches(memory).Ok?
    ensures rule.Matches(memory).holds <==> exists j :: 0 <= j < |memory| && SatisfiedBy(rule, memory[j])
  {
    MatchesFirstNotFalse(rule, memory);
    if rule.Matches(memory).holds {
      var j :| 0 <= j < |memory| && FailsBefore(rule, memory, j) &&
        rule.Matches(memory) == CheckFact(rule.conditions, memory[j]);
      CheckFactFirstNotTrue(rule.conditions, memory[j]);
    } else {
      forall j | 0 <= j < |memory| ensures !SatisfiedBy(rule, memory[j]) {
        CheckFactFirstNotTrue(rule.conditions, memory[j]);
      }
    }
  }

  /** A rule whose conditions throw on no fact of the memory never throws. */
  lemma NoThrowMatchesOk(rule: Rule, memory: seq<Slots>)
    requires forall j, i :: 0 <= j < |memory| && 0 <= i < |rule.conditions| ==>
      rule.conditions[i].Evaluate(memory[j]).Ok?
    ensures rule.Matches(memory).Ok?
  {
    MatchesFirstNotFalse(rule, memory);
    if rule.Matches(memory).Err? {
      var j :| 0 <= j < |memory| && rule.Matches(memory) == CheckFact(rule.conditions, memory[j]);
      CheckFactFirstNotTrue(rule.conditions, memory[j]);
    }
  }

  /** A rule without conditions holds exactly when the memory is non-empty. */
  lemma NoConditionsHoldsIffNonEmpty(name: string, action: string, memory: seq<Slots>)
    ensures Rule(name, [], action).Matches(memory) == Ok(memory != [])
  {
  }
}
