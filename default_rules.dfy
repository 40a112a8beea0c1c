/**
 * The five rules the program ships with, and the decisions they give for
 * the situations the scholarship advisor is built around.
 */
module DefaultRules {
  import opened Wrappers
  import opened Conditions
  import opened Rules

  function Cond(field: string, op: string, x: real): Condition {
    [Text(field), Text(op), Num(x)]
  }

  const TopMerit := Rule(
    Some("Top merit candidate"), Some(100.0),
    Some([Cond("cgpa", ">=", 3.7), Cond("co_curricular_score", ">=", 80.0),
          Cond("family_income", "<=", 8000.0), Cond("disciplinary_actions", "==", 0.0)]),
    Some(Action("AWARD_FULL", "Excellent academic & co-curricular performance, with acceptable need")))

  const GoodCandidate := Rule(
    Some("Good candidate - partial scholarship"), Some(80.0),
    Some([Cond("cgpa", ">=", 3.3), Cond("co_curricular_score", ">=", 60.0),
          Cond("family_income", "<=", 12000.0), Cond("disciplinary_actions", "<=", 1.0)]),
    Some(Action("AWARD_PARTIAL", "Good academic & involvement record with moderate need")))

  const NeedBased := Rule(
    Some("Need-based review"), Some(70.0),
    Some([Cond("cgpa", ">=", 2.5), Cond("family_income", "<=", 4000.0)]),
    Some(Action("REVIEW", "High need but borderline academic score")))

  const LowCgpa := Rule(
    Some("Low CGPA - not eligible"), Some(95.0),
    Some([Cond("cgpa", "<", 2.5)]),
    Some(Action("REJECT", "CGPA below minimum scholarship requirement")))

  const Disciplinary := Rule(
    Some("Serious disciplinary record"), Some(90.0),
    Some([Cond("disciplinary_actions", ">=", 2.0)]),
    Some(Action("REJECT", "Too many disciplinary records")))

  /** `DEFAULT_RULES_JSON`, in file order. */
  const Defaults: seq<Rule> := [TopMerit, GoodCandidate, NeedBased, LowCgpa, Disciplinary]

  /** Every literal of the default rules is a number. */
  lemma DefaultsNumeric()
    ensures NumericLiterals(Defaults)
  {
  }

  /** For the default rules `apply_rules` returns the decision of the best matching rule. */
  lemma DefaultsDecide(facts: Facts)
    ensures ApplyRules(Defaults, facts) ==
              Returns(match BestRule(Defaults, facts)
                      case None => Decision(None, None)
                      case Some(r) => Decision(r.action, r.name))
  {
    DefaultsNumeric();
    NumericRulesNeverRaise(Defaults, facts);
    ApplyRulesPicksBest(Defaults, facts);
  }

  lemma AtLeast(field: string, x: real, facts: Facts)
    requires field in facts
    ensures EvaluateCondition(Cond(field, ">=", x), facts) == Returns(facts[field] >= x)
  {
    NumericLiteralCompares(field, Text(">="), x, facts);
  }

  lemma AtMost(field: string, x: real, facts: Facts)
    requires field in facts
    ensures EvaluateCondition(Cond(field, "<=", x), facts) == Returns(facts[field] <= x)
  {
    NumericLiteralCompares(field, Text("<="), x, facts);
  }

  lemma Below(field: string, x: real, facts: Facts)
    requires field in facts
    ensures EvaluateCondition(Cond(field, "<", x), facts) == Returns(facts[field] < x)
  {
    NumericLiteralCompares(field, Text("<"), x, facts);
  }

  lemma EqualTo(field: string, x: real, facts: Facts)
    requires field in facts
    ensures EvaluateCondition(Cond(field, "==", x), facts) == Returns(facts[field] == x)
  {
    NumericLiteralCompares(field, Text("=="), x, facts);
  }

  /** A rule whose literals are numbers comes out false once one of its conditions is not true. */
  lemma FailsAt(r: Rule, facts: Facts, i: nat)
    requires forall c: Condition :: c in ConditionsOf(r) && |c| == 3 ==> c[2].Num?
    requires i < |ConditionsOf(r)| && EvaluateCondition(ConditionsOf(r)[i], facts) != Returns(true)
    ensures RuleHolds(r, facts) == Returns(false)
  {
    AllHoldMeaning(ConditionsOf(r), facts);
    NumericRuleNeverRaises(r, facts);
    assert RuleHolds(r, facts) != Returns(true);
    assert !RuleHolds(r, facts).value;
  }

  /** A strong all-round applicant with acceptable need gets the full award. */
  lemma TopMeritScenario()
    ensures ApplyRules(Defaults, map["cgpa" := 3.8, "co_curricular_score" := 85.0,
                                     "family_income" := 5000.0, "disciplinary_actions" := 0.0]) ==
            Returns(Decision(Some(Action("AWARD_FULL", "Excellent academic & co-curricular performance, with acceptable need")),
                             Some("Top merit candidate")))
  {
    var facts := map["cgpa" := 3.8, "co_curricular_score" := 85.0,
                     "family_income" := 5000.0, "disciplinary_actions" := 0.0];
    AtLeast("cgpa", 3.7, facts);
    AtLeast("co_curricular_score", 80.0, facts);
    AtMost("family_income", 8000.0, facts);
    EqualTo("disciplinary_actions", 0.0, facts);
    AllHoldMeaning(ConditionsOf(TopMerit), facts);
    BestIs(Defaults, facts, 0);
    DefaultsDecide(facts);
  }

  /**
   * Any applicant with a CGPA below 2.5 is rejected by the low-CGPA rule: the
   * only rule of higher priority needs a CGPA of at least 3.7.
   */
  lemma LowCgpaScenario(facts: Facts)
    requires "cgpa" in facts && facts["cgpa"] < 2.5
    ensures ApplyRules(Defaults, facts) ==
            Returns(Decision(Some(Action("REJECT", "CGPA below minimum scholarship requirement")),
                             Some("Low CGPA - not eligible")))
  {
    AtLeast("cgpa", 3.7, facts);
    FailsAt(TopMerit, facts, 0);
    Below("cgpa", 2.5, facts);
    AllHoldMeaning(ConditionsOf(LowCgpa), facts);
    BestIs(Defaults, facts, 3);
    DefaultsDecide(facts);
  }

  /**
   * An applicant with a passing CGPA and two or more disciplinary actions is
   * rejected by the disciplinary rule, whatever the grades: the merit rule,
   * the only one of higher priority that could match, needs a clean record.
   */
  lemma DisciplinaryScenario(facts: Facts)
    requires "cgpa" in facts && facts["cgpa"] >= 2.5
    requires "disciplinary_actions" in facts && facts["disciplinary_actions"] >= 2.0
    ensures ApplyRules(Defaults, facts) ==
            Returns(Decision(Some(Action("REJECT", "Too many disciplinary records")),
                             Some("Serious disciplinary record")))
  {
    EqualTo("disciplinary_actions", 0.0, facts);
    FailsAt(TopMerit, facts, 3);
    Below("cgpa", 2.5, facts);
    FailsAt(LowCgpa, facts, 0);
    AtLeast("disciplinary_actions", 2.0, facts);
    AllHoldMeaning(ConditionsOf(Disciplinary), facts);
    BestIs(Defaults, facts, 4);
    DefaultsDecide(facts);
  }

  /**
   * A good applicant short of the merit rule's CGPA, with moderate need and at
   * most one disciplinary action, gets the partial award.
   */
  lemma GoodCandidateScenario(facts: Facts)
    requires "cgpa" in facts && 3.3 <= facts["cgpa"] < 3.7
    requires "co_curricular_score" in facts && facts["co_curricular_score"] >= 60.0
    requires "family_income" in facts && facts["family_income"] <= 12000.0
    requires "disciplinary_actions" in facts && facts["disciplinary_actions"] <= 1.0
    ensures ApplyRules(Defaults, facts) ==
            Returns(Decision(Some(Action("AWARD_PARTIAL", "Good academic & involvement record with moderate need")),
                             Some("Good candidate - partial scholarship")))
  {
    GoodCandidateRules(facts);
    BestIs(Defaults, facts, 1);
    DefaultsDecide(facts);
  }

  lemma GoodCandidateRules(facts: Facts)
    requires "cgpa" in facts && 3.3 <= facts["cgpa"] < 3.7
    requires "co_curricular_score" in facts && facts["co_curricular_score"] >= 60.0
    requires "family_income" in facts && facts["family_income"] <= 12000.0
    requires "disciplinary_actions" in facts && facts["disciplinary_actions"] <= 1.0
    ensures !Matches(TopMerit, facts) && !Matches(LowCgpa, facts) && !Matches(Disciplinary, facts)
    ensures Matches(GoodCandidate, facts)
  {
    AtLeast("cgpa", 3.7, facts);
    FailsAt(TopMerit, facts, 0);
    Below("cgpa", 2.5, facts);
    FailsAt(LowCgpa, facts, 0);
    AtLeast("disciplinary_actions", 2.0, facts);
    FailsAt(Disciplinary, facts, 0);
    AtLeast("cgpa", 3.3, facts);
    AtLeast("co_curricular_score", 60.0, facts);
    AtMost("family_income", 12000.0, facts);
    AtMost("disciplinary_actions", 1.0, facts);
    AllHoldMeaning(ConditionsOf(GoodCandidate), facts);
  }

  /**
   * A passing CGPA below the partial award's threshold, a family income of at
   * most 4000 and fewer than two disciplinary actions send the application to
   * review.
   */
  lemma NeedBasedScenario(facts: Facts)
    requires "cgpa" in facts && 2.5 <= facts["cgpa"] < 3.3
    requires "family_income" in facts && facts["family_income"] <= 4000.0
    requires "disciplinary_actions" in facts && facts["disciplinary_actions"] < 2.0
    ensures ApplyRules(Defaults, facts) ==
            Returns(Decision(Some(Action("REVIEW", "High need but borderline academic score")),
                             Some("Need-based review")))
  {
    NeedBasedRules(facts);
    BestIs(Defaults, facts, 2);
    DefaultsDecide(facts);
  }

  lemma NeedBasedRules(facts: Facts)
    requires "cgpa" in facts && 2.5 <= facts["cgpa"] < 3.3
    requires "family_income" in facts && facts["family_income"] <= 4000.0
    requires "disciplinary_actions" in facts && facts["disciplinary_actions"] < 2.0
    ensures !Matches(TopMerit, facts) && !Matches(GoodCandidate, facts)
    ensures !Matches(LowCgpa, facts) && !Matches(Disciplinary, facts)
    ensures Matches(NeedBased, facts)
  {
    AtLeast("cgpa", 3.7, facts);
    FailsAt(TopMerit, facts, 0);
    AtLeast("cgpa", 3.3, facts);
    FailsAt(GoodCandidate, facts, 0);
    Below("cgpa", 2.5, facts);
    FailsAt(LowCgpa, facts, 0);
    AtLeast("disciplinary_actions", 2.0, facts);
    FailsAt(Disciplinary, facts, 0);
    AtLeast("cgpa", 2.5, facts);
    AtMost("family_income", 4000.0, facts);
    AllHoldMeaning(ConditionsOf(NeedBased), facts);
  }

  /**
   * An applicant with a CGPA from 2.5 up to (not including) 3.3, a family
   * income above 4000 and fewer than two disciplinary actions meets none of
   * the five rules, and the engine gives no decision.
   */
  lemma NoRuleScenario(facts: Facts)
    requires "cgpa" in facts && 2.5 <= facts["cgpa"] < 3.3
    requires "family_income" in facts && facts["family_income"] > 4000.0
    requires "disciplinary_actions" in facts && facts["disciplinary_actions"] < 2.0
    ensures ApplyRules(Defaults, facts) == Returns(Decision(None, None))
  {
    NoDefaultMatches(facts);
    NoneHoldsNoDecision(Defaults, facts);
  }

  lemma NoDefaultMatches(facts: Facts)
    requires "cgpa" in facts && 2.5 <= facts["cgpa"] < 3.3
    requires "family_income" in facts && facts["family_income"] > 4000.0
    requires "disciplinary_actions" in facts && facts["disciplinary_actions"] < 2.0
    ensures forall r :: r in Defaults ==> RuleHolds(r, facts) == Returns(false)
  {
    AtLeast("cgpa", 3.7, facts);
    FailsAt(TopMerit, facts, 0);
    AtLeast("cgpa", 3.3, facts);
    FailsAt(GoodCandidate, facts, 0);
    AtMost("family_income", 4000.0, facts);
    FailsAt(NeedBased, facts, 1);
    Below("cgpa", 2.5, facts);
    FailsAt(LowCgpa, facts, 0);
    AtLeast("disciplinary_actions", 2.0, facts);
    FailsAt(Disciplinary, facts, 0);
  }

  /** The form's defaults with a CGPA of 2.7 and an income of 20000 match no rule. */
  lemma NoRuleExample()
    ensures ApplyRules(Defaults, map["cgpa" := 2.7, "family_income" := 20000.0,
                                     "co_curricular_score" := 70.0, "community_service_hours" := 50.0,
                                     "current_semester" := 5.0, "disciplinary_actions" := 0.0]) ==
            Returns(Decision(None, None))
  {
    var facts := map["cgpa" := 2.7, "family_income" := 20000.0,
                     "co_curricular_score" := 70.0, "community_service_hours" := 50.0,
                     "current_semester" := 5.0, "disciplinary_actions" := 0.0];
    assert facts["cgpa"] == 2.7 && facts["family_income"] == 20000.0 && facts["disciplinary_actions"] == 0.0;
    NoRuleScenario(facts);
  }
}
