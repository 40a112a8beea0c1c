# Scholarship rule engine — a Dafny model

`SD23041_LR3.py` is a Streamlit "University Scholarship Decision Support
System". At its centre is a small forward rule engine:

- A **condition** is the list `[field, op, literal]`. `evaluate_condition`
  looks the field up in the applicant's facts and coerces the literal. A
  number stays a number. A string is stripped, and converted by `float()`
  when it contains a dot or is all digits once its dashes and dots are
  removed. The coerced literal is then compared with one of `==`, `!=`, `>`,
  `>=`, `<`, `<=`.
- A **rule** has a name, a priority (default 0), a list of conditions
  (default empty) and an action (a decision tag and a reason).
- `apply_rules` sorts the rules by priority, highest first. Python's sort is
  stable, so rules of equal priority keep their order. It returns the action
  and name of the first rule whose conditions all hold, or `(None, None)`.
- `DEFAULT_RULES_JSON` is the ruleset the program ships with: five rules
  (full award, partial award, need-based review, and two rejections).

The model is pure: datatypes, functions and lemmas, as the source is.

- `Wrappers` (`wrappers.dfy`): `Option`, and `Outcome`. An `Outcome` is
  either a value or a raised `TypeError`; the source lets a `TypeError`
  escape from the comparison lines.
- `PyText` (`pytext.dfy`): the Python text operations the coercion uses,
  namely `str.strip()`, `str.replace(c, '')`, `str.isdigit()` and `float()`.
- `Conditions` (`conditions.dfy`): condition values, literal coercion,
  operator dispatch, and `EvaluateCondition`.
- `Rules` (`rules.dfy`): rules, the stable descending sort `SortByPriority`,
  the scan `FirstMatch`, and `ApplyRules`. It also holds an independent
  reference definition `Best`: the matching rule of highest priority, the
  earliest among equals. The main theorem, `SelectIsBest`, proves that
  whenever sorting and then taking the first match returns, it selects
  exactly `Best`; the selection can instead raise when a rule's conditions
  raise (`FirstMatchRaisesIff`, `RaiseHidesLowerMatch`).
- `DefaultRules` (`default_rules.dfy`): the five shipped rules as constants,
  and the decision each kind of applicant gets from them.
- `Seqs` (`seqs.dfy`): generic sequence facts used by the proofs.

### Where the code and its stated intent differ

The model follows the code in each of these cases.

- The docstring of `evaluate_condition` (SD23041_LR3.py:121) says it safely
  handles text, integer and float literals, and the comment at :143 says
  that all values are floats by the time they are compared. In the code, a
  string literal that fails the numeric test stays text (`"abc"`, `"+5"`,
  `"1e5"`, `""`), as the comment at :139 allows. An ordering operator then
  compares a float with a `str`. That raises `TypeError` outside the `try`,
  so it escapes `apply_rules`. The model gives `RaisesTypeError` there, and
  `==` / `!=` give false / true.
- The numeric test at :136 removes dashes but not plus signs, so a leading
  `+` does not pass it, although `float()` accepts one. An exponent without
  a dot (`"1e5"`) does not pass it either. Both stay text.
- Text that passes the numeric test but that `float()` rejects (`"1.2.3"`,
  `"5-"`, `"--5"`) makes the condition false, through the `except` at
  :140-141. The empty string is not such text: it fails the numeric test and
  stays text.

## Model

| member | source | states |
|---|---|---|
| PyText.IsSpace | SD23041_LR3.py:135 | the whitespace set `strip()` removes, Python's `str.isspace()` set; described by `Strip` and `StripSurrounded` |
| PyText.Strip | SD23041_LR3.py:135 | `strip()` never lengthens the text; the result is empty or starts and ends with a non-space character |
| PyText.StripSurrounded | SD23041_LR3.py:135 | stripping whitespace-only padding from around a text that does not itself start or end with whitespace gives exactly that text |
| PyText.RemoveAll | SD23041_LR3.py:136 | `replace(c, '')` keeps every character except `c`, with the same multiplicities, and removes every `c` |
| PyText.IsDigits | SD23041_LR3.py:136 | `str.isdigit()`: non-empty and all ASCII digits (non-ASCII digits: see `## Left out`); described by `Conditions.DashDigitsShape`, `Conditions.StrayCharNotNumeric` and `Conditions.DashesAndDigitsNumeric` |
| PyText.ParseFloat | SD23041_LR3.py:137 | `float()` on stripped text, `None` where it raises `ValueError`; described by `FloatOfDigits`, `FloatStrayChar`, `FloatTwoDots` and `Conditions.DashDigitsConvert` |
| PyText.DigitsParse | SD23041_LR3.py:137 | the unsigned part of `float()` reads a run of ASCII digits as the integer the digits spell |
| PyText.StrayCharDoesNotParse | SD23041_LR3.py:137 | without an exponent marker, a character other than a digit or a dot makes the unsigned part of `float()` fail |
| PyText.TwoDotsDoNotParse | SD23041_LR3.py:137 | without an exponent marker, two dots make the unsigned part of `float()` fail |
| PyText.FloatOfDigits | SD23041_LR3.py:137 | `float()` of a run of ASCII digits is the integer the digits spell |
| PyText.FloatStrayChar | SD23041_LR3.py:137 | without an exponent marker, a character other than a digit or a dot makes `float()` fail, unless it is the leading sign |
| PyText.FloatTwoDots | SD23041_LR3.py:137 | without an exponent marker, two dots make `float()` fail, signed or not |
| PyText.DecimalParseUnsigned | SD23041_LR3.py:137 | the unsigned part of `float()` reads `w.f`, for any digit runs `w` and `f` not both empty, as `w` plus `f` over ten to the length of `f` |
| PyText.FloatOfSigned | SD23041_LR3.py:137 | `float()` negates what the unsigned part reads under a leading `-` and keeps it under a leading `+` |
| PyText.FloatOfDecimal | SD23041_LR3.py:137 | `float()` of `w.f`, `-w.f` and `+w.f`, for any digit runs not both empty, is `w` plus `f` over ten to the length of `f`, negated under `-` |
| Conditions.EvaluateCondition | SD23041_LR3.py:118-150 | `evaluate_condition`; described by `WrongArityIsFalse`, `MissingFieldIsFalse`, `UnknownOperatorIsFalse`, `NumericLiteralCompares`, `NumericTextIsNumber`, `GarbledNumberIsFalse`, `TextLiteralCompares` and `RaisesOnlyForOrderingOnText` |
| Conditions.FieldKey | SD23041_LR3.py:125-126 | the key `str(field)` looks up; described by `MissingFieldIsFalse` |
| Conditions.ParseOp | SD23041_LR3.py:144-150 | the operator line that fires: it picks an operator only for that operator's own string; described by `ParseOpOfText`, `UnknownOperatorIsFalse` and `NumericLiteralCompares` |
| Conditions.ParseOpOfText | SD23041_LR3.py:144-149 | each of the six operator strings selects its own operator; with the ensures of `ParseOp`, a text names an operator exactly when it is that operator's string |
| Conditions.LooksNumeric | SD23041_LR3.py:136 | the numeric test; described by `DashDigitsShape`, `StrayCharNotNumeric` and `DashesAndDigitsNumeric` |
| Conditions.CoerceLiteral | SD23041_LR3.py:130-141 | the coercion inside the `try`; described by `CoercedToText`, `NumericTextIsNumber` and `GarbledNumberIsFalse` |
| Conditions.Compare | SD23041_LR3.py:144-150 | the six comparisons; described by `CompareRaises` and `NumericLiteralCompares` |
| Conditions.WrongArityIsFalse | SD23041_LR3.py:123-124 | a condition whose length is not three is false |
| Conditions.MissingFieldIsFalse | SD23041_LR3.py:125-128 | a condition on a field the facts do not hold is false, whatever its operator and literal |
| Conditions.UnknownOperatorIsFalse | SD23041_LR3.py:144-150 | an operator other than the six is false, whatever the field and literal |
| Conditions.NumericLiteralCompares | SD23041_LR3.py:131-149 | with a numeric literal and a present field, each operator is exactly its numeric comparison; an unknown operator is false |
| Conditions.NumericTextIsNumber | SD23041_LR3.py:134-137 | a string that passes the numeric test and converts behaves exactly like the number it converts to |
| Conditions.GarbledNumberIsFalse | SD23041_LR3.py:136-141 | a string that passes the numeric test but that `float()` rejects makes the condition false |
| Conditions.TextLiteralCompares | SD23041_LR3.py:138-150 | on a field the facts hold, a literal kept as text: `==` is false, `!=` is true, the four orderings raise `TypeError`, an unknown operator is false |
| Conditions.CoercedToText | SD23041_LR3.py:131-139 | the coercion yields text exactly when the literal is a string whose stripped form fails the numeric test |
| Conditions.CompareRaises | SD23041_LR3.py:144-149 | a comparison raises exactly when the literal is text and the operator is an ordering |
| Conditions.RaisesOnlyForOrderingOnText | SD23041_LR3.py:123-150 | the evaluator raises if and only if the condition has three elements, its field is present, its literal stays text and its operator is an ordering |
| Conditions.NumericLiteralNeverRaises | SD23041_LR3.py:123-150 | a condition whose literal is a number always returns a boolean |
| Conditions.DashDigitsConvert | SD23041_LR3.py:136-137 | a dot-free string that passes the numeric test converts if and only if it is digits with at most one leading dash, and then to that integer or its negation |
| Conditions.DashDigitsShape | SD23041_LR3.py:136 | a dot-free string that passes the numeric test is made only of digits and dashes and holds at least one digit; with `DashesAndDigitsNumeric` this is an if-and-only-if |
| Conditions.StrayCharNotNumeric | SD23041_LR3.py:136 | a dot-free string holding a character other than a digit or dash fails the numeric test |
| Conditions.DashesAndDigitsNumeric | SD23041_LR3.py:136 | a dot-free string of digits and dashes with at least one digit passes the numeric test |
| Conditions.TwoDotsExample | SD23041_LR3.py:136-141 | `"1.2.3"` makes any condition false |
| Conditions.TrailingDashExample | SD23041_LR3.py:136-141 | `"5-"` makes any condition false |
| Conditions.ThresholdExample | SD23041_LR3.py:131-147 | a fact of 3.8 meets `>= "3.7"`: the string literal is converted and compared as 3.7 |
| Conditions.PaddedDecimalExample | SD23041_LR3.py:135-149 | `" 3.5 "` compares as the number 3.5 under every operator |
| Conditions.NegativeIntegerExample | SD23041_LR3.py:136-149 | `"-2"` compares as the number -2 under every operator |
| Conditions.PlusSignExample | SD23041_LR3.py:136-150 | on a field the facts hold, `"+5"` stays text: `==` false, `!=` true, orderings raise |
| Conditions.WordExample | SD23041_LR3.py:138-150 | on a field the facts hold, `"abc"` stays text: `==` false, `!=` true, orderings raise |
| Rules.ConditionsOf | SD23041_LR3.py:160 | `rule.get("conditions", [])`; described by `NoConditionsMatches` |
| Rules.AllHold | SD23041_LR3.py:161 | the short-circuiting `all()`; described by `AllHoldMeaning` |
| Rules.RuleHolds | SD23041_LR3.py:160-161 | the outcome of one rule's `if all(...)` test; described by `AllHoldMeaning`, `NoConditionsMatches` and `FirstMatchFound` |
| Rules.Matches | SD23041_LR3.py:160-161 | the `if all(...)` test succeeds without raising; described by `FirstMatchFound`, `Best` and `SelectIsBest` |
| Rules.AllHoldMeaning | SD23041_LR3.py:160-161 | a rule's conditions hold if and only if each of them returns true; checking them cannot raise when none of them raises |
| Rules.NoConditionsMatches | SD23041_LR3.py:160-161 | a rule with a missing or empty condition list matches any facts |
| Rules.Priority | SD23041_LR3.py:158 | `rule.get("priority", 0)`, the sort key; described by `SortByPriority`, `InsertionPoint` and `SortIsStable` |
| Rules.Insert | SD23041_LR3.py:158 | one step of the stable descending sort; described by `InsertKeeps`, `InsertAt` and `InsertStable` |
| Rules.InsertKeeps | SD23041_LR3.py:158 | inserting a rule keeps a sorted list sorted and adds exactly that rule |
| Rules.InsertionPoint | SD23041_LR3.py:158 | the rule goes after every rule of strictly higher priority and before the first one of no higher priority |
| Rules.InsertAt | SD23041_LR3.py:158 | insertion places the rule at its insertion point and leaves the list around it unchanged |
| Rules.SortByPriority | SD23041_LR3.py:158 | the sorted list is ordered by priority, highest first, and is a permutation of the input |
| Rules.InsertStable | SD23041_LR3.py:158 | an inserted rule goes in front of the rules of its own priority and changes nothing else among them |
| Rules.SortIsStable | SD23041_LR3.py:158 | for every priority, the sorted list holds the rules of that priority in their input order |
| Rules.FirstMatch | SD23041_LR3.py:159-163 | the loop over the sorted rules; described by `FirstMatchFound`, `FirstMatchNoneIff`, `FirstMatchRaises`, `FirstMatchRaisesIff` and `FirstMatchAppend` |
| Rules.FirstMatchFound | SD23041_LR3.py:159-162 | a rule the scan returns is in the list and matches, and every rule before it is false |
| Rules.FirstMatchNoneIff | SD23041_LR3.py:159-163 | the scan finds nothing if and only if every rule is false |
| Rules.FirstMatchRaises | SD23041_LR3.py:159-163 | the scan raises only when some rule raised, and returns whenever no rule raises |
| Rules.FirstMatchRaisesIff | SD23041_LR3.py:159-163 | the scan raises if and only if it reaches a rule whose conditions raise, every rule before it being false |
| Rules.ScanRaisesAt | SD23041_LR3.py:159-163 | a rule whose conditions raise, with no matching rule before it in the list, makes the scan raise |
| Rules.FirstMatchMeaning | SD23041_LR3.py:159-163 | those three facts about the scan together |
| Rules.FirstMatchAppend | SD23041_LR3.py:159-163 | scanning two lists in a row reaches the second only when the first has no match |
| Rules.Best | SD23041_LR3.py:153-156 | the reference choice is a matching rule of the list |
| Rules.BestNoneIff | SD23041_LR3.py:153-156 | the reference picks nothing if and only if no rule matches |
| Rules.BestIsMaximal | SD23041_LR3.py:153-156 | no matching rule has higher priority than the reference pick |
| Rules.BestIsEarliest | SD23041_LR3.py:153-156 | every matching rule before the reference pick has strictly lower priority |
| Rules.BestIsHighestEarliest | SD23041_LR3.py:153-156 | those three facts about the reference together |
| Rules.BestIs | SD23041_LR3.py:153-156 | a matching rule of maximal priority with no earlier equal match is the reference pick |
| Rules.Select | SD23041_LR3.py:157-162 | the rule that sort-then-scan fires; described by `SelectIsBest`, `SelectNoneIff`, `SelectRaisesOnlyFromARule` and `RaiseHidesLowerMatch` |
| Rules.ApplyRules | SD23041_LR3.py:152-163 | `apply_rules`; described by `ApplyRulesPicksBest`, `NoneHoldsNoDecision` and `NumericRulesNeverRaise` |
| Rules.SelectIsBest | SD23041_LR3.py:157-163 | whenever the sort-then-scan returns, it returns the reference pick: highest priority, earliest among equals, nothing when no rule matches |
| Rules.SelectRaisesOnlyFromARule | SD23041_LR3.py:157-163 | the selection raises only when some rule's conditions raise, and returns when none does |
| Rules.RaiseHidesLowerMatch | SD23041_LR3.py:157-163 | a rule that raises, with no rule of at least its priority matching, makes `apply_rules` raise, so a lower-priority match is never returned |
| Rules.SelectNoneIff | SD23041_LR3.py:157-163 | nothing is selected if and only if every rule's conditions come out false |
| Rules.ApplyRulesPicksBest | SD23041_LR3.py:152-163 | `apply_rules` returns the action and name of the reference pick, or `(None, None)`; it returns whenever no rule raises and raises only when some rule does |
| Rules.NumericRuleNeverRaises | SD23041_LR3.py:159-161 | a rule whose literals are all numbers never raises |
| Rules.NumericRulesNeverRaise | SD23041_LR3.py:152-163 | a ruleset whose literals are all numbers never makes `apply_rules` raise |
| Rules.NoneHoldsNoDecision | SD23041_LR3.py:163 | when every rule's conditions come out false, the result is `(None, None)` |
| Rules.CatchAllAlwaysFires | SD23041_LR3.py:160-162 | with a rule that has no conditions in the list, some rule fires unless a condition raises |
| DefaultRules.Defaults | SD23041_LR3.py:11-76 | `DEFAULT_RULES_JSON`, its five rules in file order; described by `DefaultsNumeric`, `DefaultsDecide` and the scenario lemmas below |
| DefaultRules.TopMerit | SD23041_LR3.py:13-26 | the "Top merit candidate" rule, priority 100; described by `TopMeritScenario` |
| DefaultRules.GoodCandidate | SD23041_LR3.py:27-40 | the "Good candidate - partial scholarship" rule, priority 80; described by `GoodCandidateScenario` |
| DefaultRules.NeedBased | SD23041_LR3.py:41-52 | the "Need-based review" rule, priority 70; described by `NeedBasedScenario` |
| DefaultRules.LowCgpa | SD23041_LR3.py:53-63 | the "Low CGPA - not eligible" rule, priority 95; described by `LowCgpaScenario` |
| DefaultRules.Disciplinary | SD23041_LR3.py:64-74 | the "Serious disciplinary record" rule, priority 90; described by `DisciplinaryScenario` |
| DefaultRules.DefaultsNumeric | SD23041_LR3.py:11-76 | every literal of the shipped rules is a number |
| DefaultRules.DefaultsDecide | SD23041_LR3.py:11-76 | for the shipped rules, `apply_rules` never raises and gives the reference pick's decision |
| DefaultRules.TopMeritScenario | SD23041_LR3.py:13-26 | CGPA 3.8, co-curricular 85, income 5000 and no disciplinary actions give AWARD_FULL by "Top merit candidate" |
| DefaultRules.GoodCandidateScenario | SD23041_LR3.py:27-40 | CGPA from 3.3 to below 3.7, co-curricular at least 60, income at most 12000 and at most one disciplinary action give AWARD_PARTIAL |
| DefaultRules.NeedBasedScenario | SD23041_LR3.py:41-52 | CGPA from 2.5 to below 3.3, income at most 4000 and fewer than two disciplinary actions give REVIEW |
| DefaultRules.LowCgpaScenario | SD23041_LR3.py:53-63 | any CGPA below 2.5 gives REJECT by "Low CGPA - not eligible", whatever the other facts |
| DefaultRules.DisciplinaryScenario | SD23041_LR3.py:64-74 | a CGPA of at least 2.5 with two or more disciplinary actions gives REJECT by "Serious disciplinary record" |
| DefaultRules.NoRuleScenario | SD23041_LR3.py:11-76 | CGPA from 2.5 to below 3.3, income above 4000 and fewer than two disciplinary actions match no rule: `(None, None)` |
| DefaultRules.NoDefaultMatches | SD23041_LR3.py:11-76 | under those facts each of the five rules comes out false |
| DefaultRules.NoRuleExample | SD23041_LR3.py:98-105 | the form's facts with CGPA 2.7 and income 20000 match no rule |

## Left out

- The Streamlit page is not modelled: the form, the sidebar rule editor, the
  messages, the colour map and the "No rule matched – Default: REJECT"
  banner. Building the facts dictionary from the form is not modelled
  either; facts are a parameter. These are I/O.
- `json.loads` and its error message are not modelled. A ruleset is given as
  a value, and the display never calls the engine with an empty list.
- The "Matching Facts" display, which finds a rule's conditions by parsing
  an index out of the rule's name, is outside the engine.
- Facts and numbers are exact rationals (`real`), not IEEE doubles. Rounding,
  infinities and NaN are not modelled. `json.loads` accepts the literal
  `NaN`, against which `==` and the orderings are false and `!=` is true;
  no `real` behaves like that. `float()` accepts only the ASCII decimal
  form: an optional sign, digits with at most one dot, and an optional
  exponent. Any text with a dot reaches `float()`, so some literals that
  Python converts are rejected by the model and make the condition false.
  Examples are underscores between digits (`"1_0.5"`, which Python reads as
  10.5) and non-ASCII digits. `isdigit()` is ASCII only. So a dot-free
  literal of non-ASCII digits stays text in the model (`==` false, `!=` true,
  orderings raise), where Python converts `"٣"` to 3.0 and makes the
  condition false for `"²"`, which passes `isdigit()` but not `float()`.
- `OverflowError` is not modelled. Python's `float()` raises it for an
  integer literal too large for a double, and the `try` does not catch it.
- Condition elements are numbers or strings. JSON `true`/`false` (which
  Python counts as the numbers 1 and 0), `null`, nested lists and objects are
  not modelled.
- Conditions.FieldKey: a numeric field name is treated as absent from the
  facts. Python would look up `str(field)`, such as `"5"` or `"5.0"`. That
  string rendering is not modelled.
- Rules.Priority: priorities are numbers. A string priority, which makes
  Python's sort raise when it is compared with a number, is not modelled.
- A `conditions` value that is not a list (JSON `null`, a string) is not
  modelled; conditions are missing or a list.
- "The caller's list is not reordered": the model's rules are immutable
  sequence values, so `SortByPriority` builds a new list, as `sorted` does,
  and the caller's list cannot change. No separate lemma states this.
