/**
 * The condition evaluator: one condition `[field, op, literal]` checked
 * against the applicant's facts, with the literal coercion and operator
 * dispatch of `evaluate_condition`.
 */
module Conditions {
  import opened Wrappers
  import opened PyText

  /** A condition element as it comes out of the rules' JSON: a number or a string. */
  datatype Value = Num(n: real) | Text(s: string)

  /** A condition is a JSON list; only a list of exactly three elements is evaluated. */
  type Condition = seq<Value>

  /** The applicant's facts: field name to number. */
  type Facts = map<string, real>

  /** The six comparison operators the evaluator dispatches on. */
  datatype Op = Eq | Ne | Gt | Ge | Lt | Le

  /** The operator string the source tests for. */
  function OpText(o: Op): string {
    match o
    case Eq => "=="
    case Ne => "!="
    case Gt => ">"
    case Ge => ">="
    case Lt => "<"
    case Le => "<="
  }

  /** `op == "=="`, …, `op == "<="`: a number never equals an operator string. */
  function ParseOp(v: Value): (r: Option<Op>)
    ensures r.Some? ==> v == Text(OpText(r.value))
  {
    match v
    case Num(_) => None
    case Text(s) =>
      if s == "==" then Some(Eq)
      else if s == "!=" then Some(Ne)
      else if s == ">" then Some(Gt)
      else if s == ">=" then Some(Ge)
      else if s == "<" then Some(Lt)
      else if s == "<=" then Some(Le)
      else None
  }

  /** `str(field)` as a key of the facts map, for a text field. */
  function FieldKey(v: Value): Option<string> {
    match v
    case Text(s) => Some(s)
    case Num(_) => None
  }

  /**
   * The test that decides whether a stripped string literal is handed to
   * `float()`: it contains a dot, or it is all digits once the dashes and dots
   * are removed.
   */
  predicate LooksNumeric(t: string) {
    '.' in t || IsDigits(RemoveAll(RemoveAll(t, '-'), '.'))
  }

  /**
   * The literal after the coercion in the `try` block: a number, the stripped
   * text, or `None` when `float()` raised `ValueError` (the condition is then false).
   */
  function CoerceLiteral(v: Value): Option<Value> {
    match v
    case Num(n) => Some(Num(n))
    case Text(s) =>
      var t := Strip(s);
      if LooksNumeric(t) then
        match ParseFloat(t)
        case Some(x) => Some(Num(x))
        case None => None
      else Some(Text(t))
  }

  /** The comparison a numeric literal stands for, as the source's six operator lines state it. */
  predicate NumericHolds(fact: real, op: Op, x: real) {
    match op
    case Eq => fact == x
    case Ne => fact != x
    case Gt => fact > x
    case Ge => fact >= x
    case Lt => fact < x
    case Le => fact <= x
  }

  /**
   * The comparison of a fact with the coerced literal. Against text, `==` is
   * false, `!=` is true and an ordering raises `TypeError`.
   */
  function Compare(fact: real, op: Op, lit: Value): Outcome<bool> {
    match lit
    case Num(x) => Returns(NumericHolds(fact, op, x))
    case Text(_) =>
      match op
      case Eq => Returns(false)
      case Ne => Returns(true)
      case _ => RaisesTypeError
  }

  /** `evaluate_condition(condition, facts)`. */
  function EvaluateCondition(c: Condition, facts: Facts): Outcome<bool> {
    if |c| != 3 then Returns(false)
    else
      match FieldKey(c[0])
      case None => Returns(false)
      case Some(key) =>
        if key !in facts then Returns(false)
        else
          match CoerceLiteral(c[2])
          case None => Returns(false)
          case Some(lit) =>
            match ParseOp(c[1])
            case None => Returns(false)
            case Some(op) => Compare(facts[key], op, lit)
  }

  /** Each operator's own string selects it, so with the ensures of `ParseOp` an operator text means exactly its operator. */
  lemma ParseOpOfText(o: Op)
    ensures ParseOp(Text(OpText(o))) == Some(o)
  {
  }

  /** A condition of any length other than three is false. */
  lemma WrongArityIsFalse(c: Condition, facts: Facts)
    requires |c| != 3
    ensures EvaluateCondition(c, facts) == Returns(false)
  {
  }

  /** A condition on a field the facts do not hold is false, whatever its operator and literal. */
  lemma MissingFieldIsFalse(field: string, op: Value, lit: Value, facts: Facts)
    requires field !in facts
    ensures EvaluateCondition([Text(field), op, lit], facts) == Returns(false)
  {
  }

  /** An operator outside the six is false, whatever the literal. */
  lemma UnknownOperatorIsFalse(field: Value, op: Value, lit: Value, facts: Facts)
    requires ParseOp(op).None?
    ensures EvaluateCondition([field, op, lit], facts) == Returns(false)
  {
  }

  /** With a numeric literal, each operator is exactly the corresponding comparison. */
  lemma NumericLiteralCompares(field: string, op: Value, x: real, facts: Facts)
    requires field in facts
    ensures EvaluateCondition([Text(field), op, Num(x)], facts) ==
            Returns(ParseOp(op).Some? && NumericHolds(facts[field], ParseOp(op).value, x))
  {
  }

  /**
   * A string literal that passes the numeric test and converts is the same
   * condition as the number it converts to.
   */
  lemma NumericTextIsNumber(field: Value, op: Value, s: string, facts: Facts)
    requires LooksNumeric(Strip(s)) && ParseFloat(Strip(s)).Some?
    ensures EvaluateCondition([field, op, Text(s)], facts) ==
            EvaluateCondition([field, op, Num(ParseFloat(Strip(s)).value)], facts)
  {
  }

  /** A string literal that passes the numeric test but does not convert makes the condition false. */
  lemma GarbledNumberIsFalse(field: Value, op: Value, s: string, facts: Facts)
    requires LooksNumeric(Strip(s)) && ParseFloat(Strip(s)).None?
    ensures EvaluateCondition([field, op, Text(s)], facts) == Returns(false)
  {
  }

  /**
   * A string literal kept as text: `==` is false, `!=` is true, and the four
   * orderings raise `TypeError` (they lie outside the `try`).
   */
  lemma TextLiteralCompares(field: string, op: Value, s: string, facts: Facts)
    requires field in facts && !LooksNumeric(Strip(s))
    ensures var r := EvaluateCondition([Text(field), op, Text(s)], facts);
            && (ParseOp(op) == Some(Eq) ==> r == Returns(false))
            && (ParseOp(op) == Some(Ne) ==> r == Returns(true))
            && (ParseOp(op).Some? && IsOrdering(ParseOp(op).value) ==> r == RaisesTypeError)
            && (ParseOp(op).None? ==> r == Returns(false))
  {
    var c := [Text(field), op, Text(s)];
    assert c[0] == Text(field) && c[1] == op && c[2] == Text(s);
    assert CoerceLiteral(c[2]) == Some(Text(Strip(s)));
    assert EvaluateCondition(c, facts) ==
           match ParseOp(op)
           case None => Returns(false)
           case Some(o) => Compare(facts[field], o, Text(Strip(s)));
  }

  /** The four ordering operators, which raise against text. */
  predicate IsOrdering(op: Op) {
    op.Gt? || op.Ge? || op.Lt? || op.Le?
  }

  lemma CoercedToText(v: Value)
    ensures (CoerceLiteral(v).Some? && CoerceLiteral(v).value.Text?) <==> (v.Text? && !LooksNumeric(Strip(v.s)))
  {
  }

  lemma CompareRaises(fact: real, op: Op, lit: Value)
    ensures Compare(fact, op, lit).RaisesTypeError? <==> lit.Text? && IsOrdering(op)
  {
  }

  /**
   * The evaluator raises exactly when an ordering operator meets a literal
   * kept as text on a field the facts hold; every other case is a boolean.
   */
  lemma RaisesOnlyForOrderingOnText(c: Condition, facts: Facts)
    ensures EvaluateCondition(c, facts).RaisesTypeError? <==>
            && |c| == 3
            && FieldKey(c[0]).Some? && FieldKey(c[0]).value in facts
            && c[2].Text? && !LooksNumeric(Strip(c[2].s))
            && ParseOp(c[1]).Some? && IsOrdering(ParseOp(c[1]).value)
  {
    if |c| == 3 && FieldKey(c[0]).Some? && FieldKey(c[0]).value in facts {
      var fact := facts[FieldKey(c[0]).value];
      CoercedToText(c[2]);
      match CoerceLiteral(c[2])
      case None =>
      case Some(lit) =>
        match ParseOp(c[1])
        case None =>
        case Some(op) =>
          CompareRaises(fact, op, lit);
    }
  }

  /** A condition whose literal is a number never raises. */
  lemma NumericLiteralNeverRaises(c: Condition, facts: Facts)
    requires |c| == 3 ==> c[2].Num?
    ensures EvaluateCondition(c, facts).Returns?
  {
  }

  /**
   * A dot-free literal that passes the numeric test converts exactly when it
   * is one optional leading dash followed by digits; every other such literal
   * (`5-`, `--5`, `1-2`) makes the condition false.
   */
  lemma {:induction false} DashDigitsConvert(t: string)
    requires '.' !in t && LooksNumeric(t)
    ensures ParseFloat(t).Some? <==> (IsDigits(t) || (|t| > 0 && t[0] == '-' && IsDigits(t[1..])))
    ensures IsDigits(t) ==> ParseFloat(t) == Some(DigitsValue(t) as real)
    ensures |t| > 0 && t[0] == '-' && IsDigits(t[1..]) ==> ParseFloat(t) == Some(-(DigitsValue(t[1..]) as real))
  {
    DashDigitsShape(t);
    assert forall i :: 0 <= i < |t| ==> t[i] != 'e' && t[i] != 'E';
    if t[0] == '-' {
      var u := t[1..];
      if IsDigits(u) {
        DigitsParse(u);
      } else if |u| == 0 {
        assert false;
      } else {
        var i :| 0 <= i < |u| && !IsDigit(u[i]);
        assert u[i] == t[i + 1];
        StrayCharDoesNotParse(u, i);
      }
    } else if IsDigits(t) {
      DigitsParse(t);
    } else {
      var i :| 0 <= i < |t| && !IsDigit(t[i]);
      StrayCharDoesNotParse(t, i);
    }
  }

  /** A dot-free literal that passes the numeric test is a mix of digits and dashes with at least one digit. */
  lemma DashDigitsShape(t: string)
    requires '.' !in t && LooksNumeric(t)
    ensures |t| > 0
    ensures forall i :: 0 <= i < |t| ==> IsDigit(t[i]) || t[i] == '-'
    ensures exists i :: 0 <= i < |t| && IsDigit(t[i])
  {
    var r := RemoveAll(t, '-');
    assert '.' !in r by {
      assert multiset(r)['.'] == multiset(t)['.'] == 0;
    }
    NoDotRemoved(r);
    forall i | 0 <= i < |t| && t[i] != '-'
      ensures IsDigit(t[i])
    {
      assert t[i] in multiset(t);
      assert t[i] in multiset(r);
      var j :| 0 <= j < |r| && r[j] == t[i];
    }
    assert r[0] in multiset(r);
    assert r[0] in multiset(t);
    var k :| 0 <= k < |t| && t[k] == r[0];
  }

  /** Removing dots from a text without dots changes nothing. */
  lemma {:induction false} NoDotRemoved(t: string)
    requires '.' !in t
    ensures RemoveAll(t, '.') == t
  {
    if t != [] {
      assert '.' !in t[1..];
      NoDotRemoved(t[1..]);
      assert t == [t[0]] + t[1..];
    }
  }


  /** A character other than a digit, a dash or a dot makes the numeric test fail on a dot-free text. */
  lemma StrayCharNotNumeric(t: string, i: nat)
    requires '.' !in t && i < |t| && !IsDigit(t[i]) && t[i] != '-' && t[i] != '.'
    ensures !LooksNumeric(t)
  {
    var r := RemoveAll(RemoveAll(t, '-'), '.');
    assert t[i] in multiset(t);
    assert t[i] in multiset(r);
    var j :| 0 <= j < |r| && r[j] == t[i];
  }

  /** A dot-free text made of digits and dashes, with at least one digit, passes the numeric test. */
  lemma DashesAndDigitsNumeric(t: string, i: nat)
    requires '.' !in t && i < |t| && IsDigit(t[i])
    requires forall k :: 0 <= k < |t| ==> IsDigit(t[k]) || t[k] == '-'
    ensures LooksNumeric(t)
  {
    var r := RemoveAll(RemoveAll(t, '-'), '.');
    assert t[i] in multiset(t);
    assert t[i] in multiset(r);
    forall j | 0 <= j < |r| ensures IsDigit(r[j]) {
      assert r[j] in multiset(r);
      assert r[j] in multiset(t);
      var k :| 0 <= k < |t| && t[k] == r[j];
    }
  }

  // The examples below take each string literal as a parameter fixed by a
  // `requires lit == "..."` rather than writing it inline. A term built only
  // from literals is unfolded by the verifier without any bound, which makes
  // Strip, RemoveAll and ParseFloat on them far too expensive; through a
  // parameter these functions unfold only as far as the proof asks.

  /** The text facts the `"1.2.3"` example needs. */
  lemma TwoDotsText(lit: string)
    requires lit == "1.2.3"
    ensures Strip(lit) == lit && LooksNumeric(lit)
  {
    VisibleIsNotSpace('1');
    VisibleIsNotSpace('3');
    StripKeeps(lit);
  }

  lemma TwoDotsParse(lit: string)
    requires lit == "1.2.3"
    ensures ParseFloat(lit).None?
  {
    TwoDotsDoNotParse(lit, 1, 3);
  }

  /** `"1.2.3"` passes the numeric test, `float()` rejects it, and the condition is false. */
  lemma TwoDotsExample(field: Value, op: Value, lit: string, facts: Facts)
    requires lit == "1.2.3"
    ensures EvaluateCondition([field, op, Text(lit)], facts) == Returns(false)
  {
    TwoDotsText(lit);
    TwoDotsParse(lit);
    GarbledNumberIsFalse(field, op, lit, facts);
  }

  /** The text facts the `"5-"` example needs. */
  lemma TrailingDashText(lit: string)
    requires lit == "5-"
    ensures Strip(lit) == lit && LooksNumeric(lit)
  {
    VisibleIsNotSpace('5');
    VisibleIsNotSpace('-');
    StripKeeps(lit);
    DashesAndDigitsNumeric(lit, 0);
  }

  lemma TrailingDashParse(lit: string)
    requires lit == "5-"
    ensures ParseFloat(lit).None?
  {
    StrayCharDoesNotParse(lit, 1);
  }

  /** `"5-"` passes the numeric test, `float()` rejects it, and the condition is false. */
  lemma TrailingDashExample(field: Value, op: Value, lit: string, facts: Facts)
    requires lit == "5-"
    ensures EvaluateCondition([field, op, Text(lit)], facts) == Returns(false)
  {
    TrailingDashText(lit);
    TrailingDashParse(lit);
    GarbledNumberIsFalse(field, op, lit, facts);
  }

  /** The text facts the `" 3.5 "` example needs. */
  lemma PaddedDecimalText(lit: string)
    requires lit == " 3.5 "
    ensures Strip(lit) == "3.5"
  {
    VisibleIsNotSpace('3');
    VisibleIsNotSpace('5');
    assert AllSpace(" ");
    StripSurrounded(" ", "3.5", " ");
    assert " " + "3.5" + " " == lit;
  }

  lemma DecimalParse(t: string)
    requires t == "3.5"
    ensures LooksNumeric(t) && ParseFloat(t) == Some(3.5)
  {
    assert IndexOfExponent(t) == |t|;
    assert IndexOf(t, '.') == 1;
    assert t[..1] == "3" && t[2..] == "5";
    assert DigitsValue(['3']) == 3;
    assert DigitsValue(['5']) == 5;
  }

  /** A decimal string padded with spaces compares as the number it spells. */
  lemma PaddedDecimalExample(field: string, op: Value, lit: string, facts: Facts)
    requires field in facts && lit == " 3.5 "
    ensures EvaluateCondition([Text(field), op, Text(lit)], facts) ==
            Returns(ParseOp(op).Some? && NumericHolds(facts[field], ParseOp(op).value, 3.5))
  {
    PaddedDecimalText(lit);
    DecimalParse(Strip(lit));
    NumericTextIsNumber(Text(field), op, lit, facts);
    NumericLiteralCompares(field, op, 3.5, facts);
  }

  lemma ThresholdText(t: string)
    requires t == "3.7"
    ensures Strip(t) == t && LooksNumeric(t)
  {
    VisibleIsNotSpace('3');
    VisibleIsNotSpace('7');
    StripKeeps(t);
    assert t[1] == '.';
  }

  lemma ThresholdParse(t: string)
    requires t == "3.7"
    ensures ParseFloat(t) == Some(3.7)
  {
    var w, f := t[..1], t[2..];
    assert w == ['3'] && f == ['7'];
    assert t == w + "." + f;
    FloatOfDecimal(w, f);
    assert DigitsValue(w) == 3 && DigitsValue(f) == 7;
  }

  /** A CGPA of 3.8 meets the condition `[field, ">=", "3.7"]`: the string literal is compared as 3.7. */
  lemma ThresholdExample(field: string, op: Value, lit: string, facts: Facts)
    requires field in facts && facts[field] == 3.8 && op == Text(">=") && lit == "3.7"
    ensures EvaluateCondition([Text(field), op, Text(lit)], facts) == Returns(true)
  {
    ThresholdText(lit);
    ThresholdParse(lit);
    NumericTextIsNumber(Text(field), op, lit, facts);
    NumericLiteralCompares(field, op, 3.7, facts);
  }

  /** The text facts the `"-2"` example needs. */
  lemma NegativeIntegerText(lit: string)
    requires lit == "-2"
    ensures Strip(lit) == lit && LooksNumeric(lit)
  {
    VisibleIsNotSpace('-');
    VisibleIsNotSpace('2');
    StripKeeps(lit);
    DashesAndDigitsNumeric(lit, 1);
  }

  lemma NegativeIntegerParse(lit: string)
    requires lit == "-2" && LooksNumeric(lit)
    ensures ParseFloat(lit) == Some(-2.0)
  {
    DashDigitsConvert(lit);
    assert lit[1..] == ['2'];
    assert DigitsValue(['2']) == 2;
  }

  /** A negative integer string compares as the number it spells. */
  lemma NegativeIntegerExample(field: string, op: Value, lit: string, facts: Facts)
    requires field in facts && lit == "-2"
    ensures EvaluateCondition([Text(field), op, Text(lit)], facts) ==
            Returns(ParseOp(op).Some? && NumericHolds(facts[field], ParseOp(op).value, -2.0))
  {
    NegativeIntegerText(lit);
    NegativeIntegerParse(lit);
    NumericTextIsNumber(Text(field), op, lit, facts);
    NumericLiteralCompares(field, op, -2.0, facts);
  }

  /** `"+5"` fails the numeric test (a plus sign is not removed) and is compared as text. */
  lemma PlusSignExample(field: string, op: Value, lit: string, facts: Facts)
    requires field in facts && lit == "+5"
    ensures var r := EvaluateCondition([Text(field), op, Text(lit)], facts);
            && (ParseOp(op) == Some(Eq) ==> r == Returns(false))
            && (ParseOp(op) == Some(Ne) ==> r == Returns(true))
            && (ParseOp(op).Some? && IsOrdering(ParseOp(op).value) ==> r == RaisesTypeError)
  {
    VisibleIsNotSpace('+');
    VisibleIsNotSpace('5');
    StripKeeps(lit);
    StrayCharNotNumeric(lit, 0);
    TextLiteralCompares(field, op, lit, facts);
  }

  /** A word is compared as text: it equals no number, and an ordering against it raises. */
  lemma WordExample(field: string, op: Value, lit: string, facts: Facts)
    requires field in facts && lit == "abc"
    ensures var r := EvaluateCondition([Text(field), op, Text(lit)], facts);
            && (ParseOp(op) == Some(Eq) ==> r == Returns(false))
            && (ParseOp(op) == Some(Ne) ==> r == Returns(true))
            && (ParseOp(op).Some? && IsOrdering(ParseOp(op).value) ==> r == RaisesTypeError)
  {
    VisibleIsNotSpace('a');
    VisibleIsNotSpace('c');
    StripKeeps(lit);
    StrayCharNotNumeric(lit, 0);
    TextLiteralCompares(field, op, lit, facts);
  }
}
