/**
 * The loan-approval program of `ReteAlgoritmasi.main`, and variations of it
 * that show the engine's edge cases: the short-circuit that lets a missing
 * slot go unnoticed, the exceptions that end a pass, the alpha memory that is
 * not backfilled, and a rule registered twice.
 */
module Scenario {
  import opened Facts
  import opened Conditions
  import opened Rules
  import opened Engine

  /** Approve when income exceeds 5000 and the credit history is excellent. */
  const Rule1: Rule :=
    Rule("Rule1", [Condition("income", GreaterThan, Int(5000)),
                   Condition("creditHistory", Equals, Str("excellent"))], "Approved")

  /** Deny when income is at most 5000. */
  const Rule2: Rule := Rule("Rule2", [Condition("income", LessThanOrEqual, Int(5000))], "Denied")

  /** The slots each loan rule tests. */
  lemma LoanRuleSlots()
    ensures "income" in SlotsOf(Rule1.conditions) && "creditHistory" in SlotsOf(Rule1.conditions)
    ensures "income" in SlotsOf(Rule2.conditions)
  {
    assert Rule1.conditions[0].factSlot == "income" && Rule1.conditions[1].factSlot == "creditHistory";
    assert Rule2.conditions[0].factSlot == "income";
  }

  /** A pass over two rules that do not throw. */
  lemma PassOfTwo(r1: Rule, r2: Rule, memory: seq<Slots>)
    requires r1.Matches(memory).Ok? && r2.Matches(memory).Ok?
    ensures Fired([r1, r2], memory) ==
      Run((if r1.Matches(memory).holds then [r1.action] else []) +
          (if r2.Matches(memory).holds then [r2.action] else []), None)
  {
    assert [r1, r2][0] == r1 && [r1, r2][1..] == [r2];
    assert [r2][0] == r2 && [r2][1..] == [];
    assert Fired([r2], memory) == Run(if r2.Matches(memory).holds then [r2.action] else [], None);
  }

  /** The fact of `main`. */
  const Person: Slots := map["income" := Int(6000), "creditHistory" := Str("excellent")]

  lemma LoanRulesOnPerson()
    ensures Rule1.Matches([Person]) == Ok(true) && Rule2.Matches([Person]) == Ok(false)
  {
    assert Rule1.conditions[0].Evaluate(Person) == Ok(true);
    assert Rule1.conditions[1].Evaluate(Person) == Ok(true);
    assert CheckFact(Rule1.conditions[1..], Person) == Ok(true) by {
      assert Rule1.conditions[1..][1..] == [];
    }
    assert CheckFact(Rule1.conditions, Person) == Ok(true);
    assert CheckFact(Rule2.conditions, Person) == Ok(false);
    assert [Person][1..] == [];
  }

  /** Income 4000, poor credit history. */
  const PoorApplicant: Slots := map["income" := Int(4000), "creditHistory" := Str("poor")]

  lemma LoanRulesOnPoorApplicant()
    ensures Rule1.Matches([PoorApplicant]) == Ok(false) && Rule2.Matches([PoorApplicant]) == Ok(true)
  {
    assert CheckFact(Rule1.conditions, PoorApplicant) == Ok(false);
    assert Rule2.conditions[0].Evaluate(PoorApplicant) == Ok(true);
    assert CheckFact(Rule2.conditions, PoorApplicant) == Ok(true) by {
      assert Rule2.conditions[1..] == [];
    }
    assert [PoorApplicant][1..] == [];
  }

  /** Income 4000 and no credit history. */
  const LowIncomeOnly: Slots := map["income" := Int(4000)]

  lemma LoanRulesOnLowIncomeOnly()
    ensures Rule1.Matches([LowIncomeOnly]) == Ok(false) && Rule2.Matches([LowIncomeOnly]) == Ok(true)
  {
    assert CheckFact(Rule1.conditions, LowIncomeOnly) == Ok(false);
    assert Rule2.conditions[0].Evaluate(LowIncomeOnly) == Ok(true);
    assert CheckFact(Rule2.conditions, LowIncomeOnly) == Ok(true) by {
      assert Rule2.conditions[1..] == [];
    }
    assert [LowIncomeOnly][1..] == [];
  }

  /** Income 6000 and no credit history. */
  const HighIncomeOnly: Slots := map["income" := Int(6000)]

  lemma Rule1OnHighIncomeOnly()
    ensures Rule1.Matches([HighIncomeOnly]) == Err(NullSlot("creditHistory"))
  {
    assert Rule1.conditions[0].Evaluate(HighIncomeOnly) == Ok(true);
    assert Rule1.conditions[1].Evaluate(HighIncomeOnly) == Err(NullSlot("creditHistory"));
    assert CheckFact(Rule1.conditions[1..], HighIncomeOnly) == Err(NullSlot("creditHistory"));
  }

  /** Income 100 and nothing else. */
  const SmallIncome: Slots := map["income" := Int(100)]

  /** Rule2 fails on the first fact and holds on the second. */
  lemma Rule2OnBothIncomes()
    ensures Fired([Rule2], [HighIncomeOnly, SmallIncome]) == Run(["Denied"], None)
  {
    var memory := [HighIncomeOnly, SmallIncome];
    assert CheckFact(Rule2.conditions, HighIncomeOnly) == Ok(false);
    assert Rule2.conditions[0].Evaluate(SmallIncome) == Ok(true);
    assert CheckFact(Rule2.conditions, SmallIncome) == Ok(true) by {
      assert Rule2.conditions[1..] == [];
    }
    assert memory[1..] == [SmallIncome] && memory[1..][1..] == [];
    assert Rule2.Matches(memory) == Ok(true);
    assert [Rule2][0] == Rule2 && [Rule2][1..] == [];
  }

  /** An engine with the two loan rules and no facts. */
  method LoanEngine() returns (engine: ReteAlgoritmasi)
    ensures fresh(engine) && engine.Valid()
    ensures engine.rules == [Rule1, Rule2] && engine.betaMemory == []
    ensures "income" in engine.alphaMemories && "creditHistory" in engine.alphaMemories
    ensures engine.alphaMemories["income"] == [] && engine.alphaMemories["creditHistory"] == []
  {
    engine := new ReteAlgoritmasi();
    LoanRuleSlots();
    engine.AddRule(Rule1);
    engine.AddRule(Rule2);
  }

  /**
   * `main`: one applicant with income 6000 and an excellent credit history.
   * Only Rule1 fires, and a second pass fires the same.
   */
  method MainScenario() returns (first: Run, second: Run)
    ensures first == Run(["Approved"], None)
    ensures second == first
  {
    var engine := LoanEngine();
    var personFact := new Fact();
    personFact.SetSlot("income", Int(6000));
    personFact.SetSlot("creditHistory", Str("excellent"));
    assert personFact.slots == Person;
    engine.AddFact(personFact);
    assert engine.rules == [Rule1, Rule2] && engine.betaMemory == [Person];
    LoanRulesOnPerson();
    PassOfTwo(Rule1, Rule2, [Person]);
    first := engine.RunRules();
    assert first == Run(["Approved"], None);
    second := engine.RunRules();
  }

  /** Income 4000 and a poor credit history: only Rule2 fires. */
  method PoorCreditScenario() returns (run: Run)
    ensures run == Run(["Denied"], None)
  {
    var engine := LoanEngine();
    var applicant := new Fact();
    applicant.SetSlot("income", Int(4000));
    applicant.SetSlot("creditHistory", Str("poor"));
    assert applicant.slots == PoorApplicant;
    engine.AddFact(applicant);
    assert engine.rules == [Rule1, Rule2] && engine.betaMemory == [PoorApplicant];
    LoanRulesOnPoorApplicant();
    PassOfTwo(Rule1, Rule2, [PoorApplicant]);
    run := engine.RunRules();
  }

  /**
   * Income 4000 and no credit history: Rule1 stops at its false income
   * condition, so the missing slot is never read, and Rule2 fires.
   */
  method MissingSlotAfterFalseScenario() returns (run: Run)
    ensures run == Run(["Denied"], None)
  {
    var engine := LoanEngine();
    var applicant := new Fact();
    applicant.SetSlot("income", Int(4000));
    assert applicant.slots == LowIncomeOnly;
    engine.AddFact(applicant);
    assert engine.rules == [Rule1, Rule2] && engine.betaMemory == [LowIncomeOnly];
    LoanRulesOnLowIncomeOnly();
    PassOfTwo(Rule1, Rule2, [LowIncomeOnly]);
    run := engine.RunRules();
  }

  /**
   * Income 6000 and no credit history: Rule1 reads the missing slot and
   * throws, which ends the pass before Rule2 is evaluated.
   */
  method MissingSlotThrowsScenario() returns (run: Run)
    ensures run == Run([], Some(NullSlot("creditHistory")))
  {
    var engine := LoanEngine();
    var applicant := new Fact();
    applicant.SetSlot("income", Int(6000));
    assert applicant.slots == HighIncomeOnly;
    engine.AddFact(applicant);
    assert engine.rules == [Rule1, Rule2] && engine.betaMemory == [HighIncomeOnly];
    Rule1OnHighIncomeOnly();
    run := engine.RunRules();
  }

  /**
   * An ordering condition on a string slot throws a cast failure; the pass
   * ends there, even though a later rule would have fired.
   */
  method TypeMismatchScenario() returns (run: Run)
    ensures run == Run([], Some(NotAnInteger(Str("forty"))))
  {
    var engine := new ReteAlgoritmasi();
    var ageRule := Rule("AgeRule", [Condition("age", GreaterThan, Int(5000))], "Senior");
    engine.AddRule(ageRule);
    engine.AddRule(Rule2);
    var applicant := new Fact();
    applicant.SetSlot("age", Str("forty"));
    applicant.SetSlot("income", Int(4000));
    engine.AddFact(applicant);
    var a := applicant.slots;
    assert ageRule.Matches([a]) == Err(NotAnInteger(Str("forty")));
    run := engine.RunRules();
  }

  /**
   * A fact inserted before any rule reaches no alpha memory: the memory that
   * a later rule creates starts empty and only receives later facts. Rule
   * evaluation still sees both facts in the beta memory.
   */
  method NoBackfillScenario() returns (incomeMemory: seq<Slots>, run: Run)
    ensures incomeMemory == [SmallIncome]
    ensures run == Run(["Denied"], None)
  {
    var engine := new ReteAlgoritmasi();
    var early := new Fact();
    early.SetSlot("income", Int(6000));
    assert early.slots == HighIncomeOnly;
    engine.AddFact(early);
    assert engine.rules == [] && engine.betaMemory == [HighIncomeOnly];
    LoanRuleSlots();
    engine.AddRule(Rule2);
    assert engine.alphaMemories["income"] == [];
    var late := new Fact();
    late.SetSlot("income", Int(100));
    assert late.slots == SmallIncome;
    engine.AddFact(late);
    assert engine.rules == [Rule2] && engine.betaMemory == [HighIncomeOnly, SmallIncome];
    incomeMemory := engine.alphaMemories["income"];
    Rule2OnBothIncomes();
    run := engine.RunRules();
  }

  lemma DuplicateRule2Pass()
    ensures Fired([Rule2, Rule2], [LowIncomeOnly]) == Run(["Denied", "Denied"], None)
  {
    LoanRulesOnLowIncomeOnly();
    PassOfTwo(Rule2, Rule2, [LowIncomeOnly]);
  }

  /** A rule registered twice is evaluated, and fires, twice. */
  method DuplicateRuleScenario() returns (run: Run)
    ensures run == Run(["Denied", "Denied"], None)
  {
    var engine := new ReteAlgoritmasi();
    engine.AddRule(Rule2);
    engine.AddRule(Rule2);
    assert engine.rules == [Rule2, Rule2] && engine.betaMemory == [];
    var applicant := new Fact();
    applicant.SetSlot("income", Int(4000));
    assert applicant.slots == LowIncomeOnly;
    engine.AddFact(applicant);
    assert engine.rules == [Rule2, Rule2] && engine.betaMemory == [LowIncomeOnly];
    DuplicateRule2Pass();
    run := engine.RunRules();
  }
}
