/**
 * The rule selector of `apply_rules`: a stable sort of the rules by priority,
 * highest first, then the first rule whose conditions all hold.
 */
module Rules {
  import opened Wrappers
  import opened Conditions
  import Seqs

  /** The payload a rule fires: a decision tag and a reason for the applicant. */
  datatype Action = Action(decision: string, reason: string)

  /** A rule record; every key may be missing from the JSON object. */
  datatype Rule = Rule(
    name: Option<string>,
    priority: Option<real>,
    conditions: Option<seq<Condition>>,
    action: Option<Action>)

  /** What `apply_rules` returns: `(action, name)` of the rule that fired, or `(None, None)`. */
  datatype Decision = Decision(action: Option<Action>, ruleName: Option<string>)

  /** `rule.get("priority", 0)`. */
  function Priority(r: Rule): real {
    match r.priority
    case Some(p) => p
    case None => 0.0
  }

  /** `rule.get("conditions", [])`. */
  function ConditionsOf(r: Rule): seq<Condition> {
    match r.conditions
    case Some(cs) => cs
    case None => []
  }

  /**
   * `all(evaluate_condition(cond, facts) for cond in conditions)`: stops at the
   * first false condition, and lets a `TypeError` of an evaluated condition through.
   */
  function AllHold(conds: seq<Condition>, facts: Facts): Outcome<bool> {
    if conds == [] then Returns(true)
    else
      match EvaluateCondition(conds[0], facts)
      case RaisesTypeError => RaisesTypeError
      case Returns(false) => Returns(false)
      case Returns(true) => AllHold(conds[1..], facts)
  }

  /**
   * A rule's conditions hold exactly when each of them is true, and checking
   * them cannot raise when none of them raises.
   */
  lemma {:induction false} AllHoldMeaning(conds: seq<Condition>, facts: Facts)
    ensures AllHold(conds, facts) == Returns(true) <==>
              forall i :: 0 <= i < |conds| ==> EvaluateCondition(conds[i], facts) == Returns(true)
    ensures (forall i :: 0 <= i < |conds| ==> EvaluateCondition(conds[i], facts).Returns?) ==>
              AllHold(conds, facts).Returns?
  {
    if conds != [] {
      AllHoldMeaning(conds[1..], facts);
      assert forall i :: 1 <= i < |conds| ==> conds[i] == conds[1..][i - 1];
    }
  }

  /** The outcome of checking one rule's conditions. */
  function RuleHolds(r: Rule, facts: Facts): Outcome<bool> {
    AllHold(ConditionsOf(r), facts)
  }

  /** The rule's conditions all hold (and none of them raised). */
  predicate Matches(r: Rule, facts: Facts) {
    RuleHolds(r, facts) == Returns(true)
  }

  // ---------------------------------------------------------------------------
  // sorted(rules, key=lambda x: x.get("priority", 0), reverse=True)

  predicate SortedByPriority(s: seq<Rule>) {
    forall i, j :: 0 <= i < j < |s| ==> Priority(s[i]) >= Priority(s[j])
  }

  /** A rule of at least the priority of every rule of a sorted list can go in front of it. */
  lemma ConsSorted(y: Rule, u: seq<Rule>)
    requires SortedByPriority(u)
    requires forall i :: 0 <= i < |u| ==> Priority(u[i]) <= Priority(y)
    ensures SortedByPriority([y] + u)
  {
    var r := [y] + u;
    assert forall i :: 0 < i < |r| ==> r[i] == u[i - 1];
  }

  /**
   * Puts `x` into `t` in front of every rule of no higher priority, so that it
   * stays ahead of the equal-priority rules that followed it in the input.
   */
  function Insert(x: Rule, t: seq<Rule>): seq<Rule> {
    if t == [] || Priority(t[0]) <= Priority(x) then [x] + t
    else [t[0]] + Insert(x, t[1..])
  }

  /** Insert keeps a sorted list sorted, and adds `x` and nothing else. */
  lemma {:induction false} InsertKeeps(x: Rule, t: seq<Rule>)
    ensures SortedByPriority(t) ==> SortedByPriority(Insert(x, t))
    ensures multiset(Insert(x, t)) == multiset(t) + multiset{x}
  {
    if t == [] || Priority(t[0]) <= Priority(x) {
      if SortedByPriority(t) { ConsSorted(x, t); }
    } else {
      var r' := Insert(x, t[1..]);
      InsertKeeps(x, t[1..]);
      assert t == [t[0]] + t[1..];
      if SortedByPriority(t) {
        forall i | 0 <= i < |r'| ensures Priority(r'[i]) <= Priority(t[0]) {
          assert r'[i] in multiset(t[1..]) + multiset{x};
          if r'[i] != x {
            var j :| 0 <= j < |t[1..]| && t[1..][j] == r'[i];
            assert t[j + 1] == r'[i];
          }
        }
        ConsSorted(t[0], r');
      }
    }
  }

  /** Where Insert puts `x`: after the rules of higher priority, before all others. */
  function InsertionPoint(x: Rule, t: seq<Rule>): (k: nat)
    ensures k <= |t|
    ensures forall i :: 0 <= i < k ==> Priority(t[i]) > Priority(x)
    ensures k < |t| ==> Priority(t[k]) <= Priority(x)
  {
    if t == [] || Priority(t[0]) <= Priority(x) then 0
    else 1 + InsertionPoint(x, t[1..])
  }

  lemma {:induction false} InsertAt(x: Rule, t: seq<Rule>)
    ensures Insert(x, t) == t[..InsertionPoint(x, t)] + ([x] + t[InsertionPoint(x, t)..])
  {
    if t == [] || Priority(t[0]) <= Priority(x) {
      Seqs.SliceEnds(t);
      Seqs.EmptyAppend([x] + t);
    } else {
      var u := t[1..];
      InsertAt(x, u);
      var k := InsertionPoint(x, u);
      assert Insert(x, t) == [t[0]] + Insert(x, u);
      assert InsertionPoint(x, t) == k + 1;
      Seqs.SliceTail(t, k);
      Seqs.AppendAssoc([t[0]], u[..k], [x] + u[k..]);
    }
  }

  /**
   * Python's `sorted(rules, key=lambda x: x.get("priority", 0), reverse=True)`:
   * a new list, highest priority first, holding exactly the input's rules.
   */
  function SortByPriority(s: seq<Rule>): (r: seq<Rule>)
    ensures SortedByPriority(r)
    ensures multiset(r) == multiset(s)
  {
    if s == [] then []
    else
      assert s == [s[0]] + s[1..];
      InsertKeeps(s[0], SortByPriority(s[1..]));
      Insert(s[0], SortByPriority(s[1..]))
  }

  /** The rules of priority `p`, in order. */
  function WithPriority(s: seq<Rule>, p: real): seq<Rule> {
    if s == [] then []
    else (if Priority(s[0]) == p then [s[0]] else []) + WithPriority(s[1..], p)
  }

  /** Inserting a rule adds it, and nothing else, to the front of the rules of its own priority. */
  lemma {:induction false} InsertStable(x: Rule, t: seq<Rule>, p: real)
    ensures WithPriority(Insert(x, t), p) == (if Priority(x) == p then [x] else []) + WithPriority(t, p)
  {
    if t == [] || Priority(t[0]) <= Priority(x) {
      Seqs.ConsTail(x, t);
    } else {
      InsertStable(x, t[1..], p);
      Seqs.ConsTail(t[0], Insert(x, t[1..]));
    }
  }

  /**
   * The sort is stable: for every priority, the rules of that priority come
   * out in their original order.
   */
  lemma {:induction false} SortIsStable(s: seq<Rule>, p: real)
    ensures WithPriority(SortByPriority(s), p) == WithPriority(s, p)
  {
    if s != [] {
      SortIsStable(s[1..], p);
      InsertStable(s[0], SortByPriority(s[1..]), p);
    }
  }

  // ---------------------------------------------------------------------------
  // for rule in sorted_rules: if all(...): return rule.get("action"), rule.get("name")

  /** The first rule whose conditions hold, `None` when none does; a `TypeError` stops the scan. */
  function FirstMatch(s: seq<Rule>, facts: Facts): Outcome<Option<Rule>> {
    if s == [] then Returns(None)
    else
      match RuleHolds(s[0], facts)
      case RaisesTypeError => RaisesTypeError
      case Returns(true) => Returns(Some(s[0]))
      case Returns(false) => FirstMatch(s[1..], facts)
  }

  /** A rule the scan returns matches, and every rule before it is false. */
  lemma {:induction false} FirstMatchFound(s: seq<Rule>, facts: Facts)
    ensures var r := FirstMatch(s, facts);
            r.Returns? && r.value.Some? ==>
              exists i :: 0 <= i < |s| && s[i] == r.value.value && Matches(s[i], facts) &&
                          forall j :: 0 <= j < i ==> RuleHolds(s[j], facts) == Returns(false)
  {
    if s != [] {
      var r := FirstMatch(s, facts);
      if r.Returns? && r.value.Some? {
        if RuleHolds(s[0], facts) == Returns(false) {
          var t := s[1..];
          FirstMatchFound(t, facts);
          var i :| 0 <= i < |t| && t[i] == r.value.value && Matches(t[i], facts) &&
                   forall j :: 0 <= j < i ==> RuleHolds(t[j], facts) == Returns(false);
          assert s[i + 1] == t[i];
          forall j | 0 <= j < i + 1 ensures RuleHolds(s[j], facts) == Returns(false) {
            if j > 0 { assert s[j] == t[j - 1]; }
          }
        } else {
          assert Matches(s[0], facts) && s[0] == r.value.value;
        }
      }
    }
  }

  /** The scan finds nothing exactly when every rule is false. */
  lemma {:induction false} FirstMatchNoneIff(s: seq<Rule>, facts: Facts)
    ensures FirstMatch(s, facts) == Returns(None) <==> forall i :: 0 <= i < |s| ==> RuleHolds(s[i], facts) == Returns(false)
  {
    if s != [] {
      var t := s[1..];
      FirstMatchNoneIff(t, facts);
      assert forall i :: 1 <= i < |s| ==> s[i] == t[i - 1];
    }
  }

  /** The scan raises only when some rule raised, and never when none can. */
  lemma {:induction false} FirstMatchRaises(s: seq<Rule>, facts: Facts)
    ensures (forall i :: 0 <= i < |s| ==> RuleHolds(s[i], facts).Returns?) ==> FirstMatch(s, facts).Returns?
    ensures FirstMatch(s, facts).RaisesTypeError? ==> exists i :: 0 <= i < |s| && RuleHolds(s[i], facts).RaisesTypeError?
  {
    if s != [] {
      var t := s[1..];
      FirstMatchRaises(t, facts);
      assert forall i :: 1 <= i < |s| ==> s[i] == t[i - 1];
      if FirstMatch(s, facts).RaisesTypeError? && !RuleHolds(s[0], facts).RaisesTypeError? {
        var i :| 0 <= i < |t| && RuleHolds(t[i], facts).RaisesTypeError?;
        assert s[i + 1] == t[i];
      }
    }
  }

  /** A scan that raises has reached a rule that raises, every rule before it being false. */
  lemma {:induction false} FirstMatchRaisedAt(s: seq<Rule>, facts: Facts)
    requires FirstMatch(s, facts).RaisesTypeError?
    ensures exists i :: 0 <= i < |s| && RuleHolds(s[i], facts).RaisesTypeError? &&
                        forall j :: 0 <= j < i ==> RuleHolds(s[j], facts) == Returns(false)
  {
    if RuleHolds(s[0], facts) == Returns(false) {
      var t := s[1..];
      FirstMatchRaisedAt(t, facts);
      var i :| 0 <= i < |t| && RuleHolds(t[i], facts).RaisesTypeError? &&
               forall j :: 0 <= j < i ==> RuleHolds(t[j], facts) == Returns(false);
      assert s[i + 1] == t[i];
      forall j | 0 <= j < i + 1 ensures RuleHolds(s[j], facts) == Returns(false) {
        if j > 0 { assert s[j] == t[j - 1]; }
      }
    } else {
      assert RuleHolds(s[0], facts).RaisesTypeError?;
    }
  }

  /** The scan raises exactly when it reaches a rule that raises, every rule before it being false. */
  lemma FirstMatchRaisesIff(s: seq<Rule>, facts: Facts)
    ensures FirstMatch(s, facts).RaisesTypeError? <==>
            exists i :: 0 <= i < |s| && RuleHolds(s[i], facts).RaisesTypeError? &&
                        forall j :: 0 <= j < i ==> RuleHolds(s[j], facts) == Returns(false)
  {
    if FirstMatch(s, facts).RaisesTypeError? {
      FirstMatchRaisedAt(s, facts);
    }
    if exists i :: 0 <= i < |s| && RuleHolds(s[i], facts).RaisesTypeError? &&
                   forall j :: 0 <= j < i ==> RuleHolds(s[j], facts) == Returns(false) {
      var i :| 0 <= i < |s| && RuleHolds(s[i], facts).RaisesTypeError? &&
               forall j :: 0 <= j < i ==> RuleHolds(s[j], facts) == Returns(false);
      ScanRaisesAt(s, facts, i);
    }
  }

  /**
   * What the scan returns: a rule of the list whose conditions hold, every
   * rule before it false; nothing, exactly when every rule is false; a
   * `TypeError` only when some rule raised, and never when none can.
   */
  lemma FirstMatchMeaning(s: seq<Rule>, facts: Facts)
    ensures var r := FirstMatch(s, facts);
            r.Returns? && r.value.Some? ==>
              exists i :: 0 <= i < |s| && s[i] == r.value.value && Matches(s[i], facts) &&
                          forall j :: 0 <= j < i ==> RuleHolds(s[j], facts) == Returns(false)
    ensures FirstMatch(s, facts) == Returns(None) <==> forall i :: 0 <= i < |s| ==> RuleHolds(s[i], facts) == Returns(false)
    ensures (forall i :: 0 <= i < |s| ==> RuleHolds(s[i], facts).Returns?) ==> FirstMatch(s, facts).Returns?
    ensures FirstMatch(s, facts).RaisesTypeError? ==> exists i :: 0 <= i < |s| && RuleHolds(s[i], facts).RaisesTypeError?
  {
    FirstMatchFound(s, facts);
    FirstMatchNoneIff(s, facts);
    FirstMatchRaises(s, facts);
  }

  /** The scan of a list split in two: the second part is reached only when the first has no match. */
  lemma {:induction false} FirstMatchAppend(a: seq<Rule>, b: seq<Rule>, facts: Facts)
    ensures FirstMatch(a + b, facts) == if FirstMatch(a, facts) == Returns(None) then FirstMatch(b, facts) else FirstMatch(a, facts)
  {
    if a == [] {
      Seqs.EmptyAppend(b);
    } else {
      Seqs.AppendTail(a, b);
      FirstMatchAppend(a[1..], b, facts);
    }
  }

  /** The rule `apply_rules` fires, before it is taken apart into action and name. */
  function Select(rules: seq<Rule>, facts: Facts): Outcome<Option<Rule>> {
    FirstMatch(SortByPriority(rules), facts)
  }

  /** `apply_rules(rules, facts)`. */
  function ApplyRules(rules: seq<Rule>, facts: Facts): Outcome<Decision> {
    match Select(rules, facts)
    case RaisesTypeError => RaisesTypeError
    case Returns(None) => Returns(Decision(None, None))
    case Returns(Some(r)) => Returns(Decision(r.action, r.name))
  }

  // ---------------------------------------------------------------------------
  // The rule that ought to fire, defined without sorting

  /**
   * Index of the matching rule of highest priority, the earliest one among
   * equals: a rule beats every later rule of no higher priority.
   */
  function Best(s: seq<Rule>, facts: Facts): (b: Option<nat>)
    ensures b.Some? ==> b.value < |s| && Matches(s[b.value], facts)
  {
    if s == [] then None
    else
      var b := Best(s[1..], facts);
      if Matches(s[0], facts) && (b.None? || Priority(s[1..][b.value]) <= Priority(s[0])) then Some(0)
      else if b.None? then None
      else Some(b.value + 1)
  }

  function BestRule(s: seq<Rule>, facts: Facts): Option<Rule> {
    match Best(s, facts)
    case None => None
    case Some(i) => Some(s[i])
  }

  /** Best picks nothing exactly when no rule matches. */
  lemma {:induction false} BestNoneIff(s: seq<Rule>, facts: Facts)
    ensures Best(s, facts).None? <==> forall i :: 0 <= i < |s| ==> !Matches(s[i], facts)
  {
    if s != [] {
      BestNoneIff(s[1..], facts);
      if Best(s, facts).None? {
        forall i | 0 <= i < |s| ensures !Matches(s[i], facts) {
          if i > 0 { assert s[i] == s[1..][i - 1]; }
        }
      }
    }
  }

  /** No matching rule has higher priority than the one Best picks. */
  lemma {:induction false} BestIsMaximal(s: seq<Rule>, facts: Facts)
    ensures Best(s, facts).Some? ==>
              forall j :: 0 <= j < |s| && Matches(s[j], facts) ==> Priority(s[j]) <= Priority(s[Best(s, facts).value])
  {
    if s != [] && Best(s, facts).Some? {
      var t := s[1..];
      var v := Best(s, facts).value;
      BestIsMaximal(t, facts);
      BestNoneIff(t, facts);
      forall j | 0 <= j < |s| && Matches(s[j], facts)
        ensures Priority(s[j]) <= Priority(s[v])
      {
        if j > 0 {
          assert s[j] == t[j - 1];
          assert Priority(s[j]) <= Priority(t[Best(t, facts).value]);
          if v > 0 {
            assert s[v] == t[v - 1];
          }
        }
      }
    }
  }

  /** When Best skips the head, it picks one past the tail's pick, which beats any matching head. */
  lemma BestOfTail(s: seq<Rule>, facts: Facts)
    requires s != [] && Best(s, facts).Some? && Best(s, facts).value > 0
    ensures Best(s[1..], facts) == Some(Best(s, facts).value - 1)
    ensures s[Best(s, facts).value] == s[1..][Best(s, facts).value - 1]
    ensures Matches(s[0], facts) ==> Priority(s[0]) < Priority(s[Best(s, facts).value])
  {
  }

  /** Every matching rule before the one Best picks has strictly lower priority. */
  lemma {:induction false} BestIsEarliest(s: seq<Rule>, facts: Facts)
    ensures Best(s, facts).Some? ==>
              forall j :: 0 <= j < Best(s, facts).value && Matches(s[j], facts) ==> Priority(s[j]) < Priority(s[Best(s, facts).value])
  {
    if s != [] && Best(s, facts).Some? && Best(s, facts).value > 0 {
      var t := s[1..];
      var v := Best(s, facts).value;
      BestOfTail(s, facts);
      BestIsEarliest(t, facts);
      assert forall j :: 1 <= j < v ==> s[j] == t[j - 1];
    }
  }

  /**
   * Best picks a matching rule of maximal priority, and no earlier rule of the
   * same priority matches; it picks nothing exactly when no rule matches.
   */
  lemma BestIsHighestEarliest(s: seq<Rule>, facts: Facts)
    ensures Best(s, facts).None? <==> forall i :: 0 <= i < |s| ==> !Matches(s[i], facts)
    ensures Best(s, facts).Some? ==>
              forall j :: 0 <= j < |s| && Matches(s[j], facts) ==> Priority(s[j]) <= Priority(s[Best(s, facts).value])
    ensures Best(s, facts).Some? ==>
              forall j :: 0 <= j < Best(s, facts).value && Matches(s[j], facts) ==> Priority(s[j]) < Priority(s[Best(s, facts).value])
  {
    BestNoneIff(s, facts);
    BestIsMaximal(s, facts);
    BestIsEarliest(s, facts);
  }

  /** The three properties of BestIsHighestEarliest single out one index. */
  lemma BestIs(s: seq<Rule>, facts: Facts, i: nat)
    requires i < |s| && Matches(s[i], facts)
    requires forall j :: 0 <= j < |s| && Matches(s[j], facts) ==> Priority(s[j]) <= Priority(s[i])
    requires forall j :: 0 <= j < i && Matches(s[j], facts) ==> Priority(s[j]) < Priority(s[i])
    ensures Best(s, facts) == Some(i)
  {
    BestIsHighestEarliest(s, facts);
  }

  /** The sorted rules are the sorted tail with the head put at its insertion point. */
  lemma SortSplit(rules: seq<Rule>)
    requires rules != []
    ensures var t := SortByPriority(rules[1..]);
            var k := InsertionPoint(rules[0], t);
            && SortByPriority(rules) == t[..k] + ([rules[0]] + t[k..])
            && t == t[..k] + t[k..]
  {
    var t := SortByPriority(rules[1..]);
    InsertAt(rules[0], t);
    Seqs.SplitAt(t, InsertionPoint(rules[0], t));
  }

  /** A head rule loses to the best of the tail when that one has higher priority. */
  lemma BestKeepsHigher(x: Rule, rest: seq<Rule>, facts: Facts, y: Rule)
    requires BestRule(rest, facts) == Some(y) && Priority(y) > Priority(x)
    ensures BestRule([x] + rest, facts) == Some(y)
  {
    Seqs.ConsTail(x, rest);
  }

  /** A matching head rule wins when no matching rule of the tail has higher priority. */
  lemma BestTakesFirst(x: Rule, rest: seq<Rule>, facts: Facts)
    requires Matches(x, facts)
    requires forall y :: y in rest && Matches(y, facts) ==> Priority(y) <= Priority(x)
    ensures BestRule([x] + rest, facts) == Some(x)
  {
    Seqs.ConsTail(x, rest);
    var b := Best(rest, facts);
    if b.Some? {
      assert rest[b.value] in rest;
    }
  }

  /** A head rule that does not match leaves the choice to the tail. */
  lemma BestSkipsFailed(x: Rule, rest: seq<Rule>, facts: Facts)
    requires !Matches(x, facts)
    ensures BestRule([x] + rest, facts) == BestRule(rest, facts)
  {
    Seqs.ConsTail(x, rest);
  }

  /** Induction step, when a rule of higher priority than the new head fires first. */
  lemma StepHigherFires(x: Rule, rest: seq<Rule>, t: seq<Rule>, facts: Facts)
    requires FirstMatch(t, facts).Returns? ==> FirstMatch(t, facts).value == BestRule(rest, facts)
    requires FirstMatch(t[..InsertionPoint(x, t)], facts) != Returns(None)
    ensures var k := InsertionPoint(x, t);
            var u := FirstMatch(t[..k] + ([x] + t[k..]), facts);
            u.Returns? ==> u.value == BestRule([x] + rest, facts)
  {
    var k := InsertionPoint(x, t);
    var pre, post := t[..k], t[k..];
    Seqs.SplitAt(t, k);
    FirstMatchAppend(pre, [x] + post, facts);
    FirstMatchAppend(pre, post, facts);
    FirstMatchMeaning(pre, facts);
    var m := FirstMatch(pre, facts);
    if m.Returns? {
      var y := m.value.value;
      var j :| 0 <= j < |pre| && pre[j] == y && Matches(pre[j], facts) &&
               forall i :: 0 <= i < j ==> RuleHolds(pre[i], facts) == Returns(false);
      BestKeepsHigher(x, rest, facts, y);
    }
  }

  /** The rules of a sorted list from the insertion point of `x` on have no higher priority than `x`. */
  lemma FromInsertionPoint(x: Rule, t: seq<Rule>)
    requires SortedByPriority(t)
    ensures forall j :: InsertionPoint(x, t) <= j < |t| ==> Priority(t[j]) <= Priority(x)
  {
  }

  /** A scan that finds nothing saw only rules that do not match. */
  lemma NoneFoundNoneMatch(t: seq<Rule>, k: nat, facts: Facts)
    requires k <= |t| && FirstMatch(t[..k], facts) == Returns(None)
    ensures forall j :: 0 <= j < k ==> !Matches(t[j], facts)
  {
    FirstMatchNoneIff(t[..k], facts);
    assert forall j :: 0 <= j < k ==> t[..k][j] == t[j];
  }

  /**
   * When no rule before the insertion point of `x` in the sorted tail
   * matches, no matching rule of the tail has higher priority than `x`.
   */
  lemma NoHigherMatch(x: Rule, rest: seq<Rule>, t: seq<Rule>, facts: Facts)
    requires SortedByPriority(t) && multiset(t) == multiset(rest)
    requires FirstMatch(t[..InsertionPoint(x, t)], facts) == Returns(None)
    ensures forall y :: y in rest && Matches(y, facts) ==> Priority(y) <= Priority(x)
  {
    var k := InsertionPoint(x, t);
    NoneFoundNoneMatch(t, k, facts);
    FromInsertionPoint(x, t);
    forall y | y in rest && Matches(y, facts)
      ensures Priority(y) <= Priority(x)
    {
      assert y in multiset(t);
      var j :| 0 <= j < |t| && t[j] == y;
      assert k <= j;
    }
  }

  /** Induction step, when no rule of higher priority than the new head fires. */
  lemma StepReachesHead(x: Rule, rest: seq<Rule>, t: seq<Rule>, facts: Facts)
    requires SortedByPriority(t) && multiset(t) == multiset(rest)
    requires FirstMatch(t, facts).Returns? ==> FirstMatch(t, facts).value == BestRule(rest, facts)
    requires FirstMatch(t[..InsertionPoint(x, t)], facts) == Returns(None)
    ensures var k := InsertionPoint(x, t);
            var u := FirstMatch(t[..k] + ([x] + t[k..]), facts);
            u.Returns? ==> u.value == BestRule([x] + rest, facts)
  {
    var k := InsertionPoint(x, t);
    var pre, post := t[..k], t[k..];
    Seqs.SplitAt(t, k);
    FirstMatchAppend(pre, [x] + post, facts);
    FirstMatchAppend(pre, post, facts);
    Seqs.ConsTail(x, post);
    if Matches(x, facts) {
      NoHigherMatch(x, rest, t, facts);
      BestTakesFirst(x, rest, facts);
    } else {
      BestSkipsFailed(x, rest, facts);
    }
  }

  /**
   * Whenever the scan of the sorted rules returns, it returns the rule Best
   * names: sorting and then taking the first match selects the highest
   * priority match, the earliest one among equals.
   */
  lemma {:induction false} SelectIsBest(rules: seq<Rule>, facts: Facts)
    ensures Select(rules, facts).Returns? ==> Select(rules, facts).value == BestRule(rules, facts)
  {
    if rules != [] {
      var x, rest := rules[0], rules[1..];
      var t := SortByPriority(rest);
      assert rules == [x] + rest;
      SelectIsBest(rest, facts);
      SortSplit(rules);
      if FirstMatch(t[..InsertionPoint(x, t)], facts) != Returns(None) {
        StepHigherFires(x, rest, t, facts);
      } else {
        StepReachesHead(x, rest, t, facts);
      }
    }
  }

  /**
   * The scan raises only because some rule's conditions raised, and it
   * returns whenever no rule's conditions raise.
   */
  lemma SelectRaisesOnlyFromARule(rules: seq<Rule>, facts: Facts)
    ensures Select(rules, facts).RaisesTypeError? ==> exists r :: r in rules && RuleHolds(r, facts).RaisesTypeError?
    ensures (forall r :: r in rules ==> RuleHolds(r, facts).Returns?) ==> Select(rules, facts).Returns?
  {
    var t := SortByPriority(rules);
    FirstMatchMeaning(t, facts);
    assert forall i :: 0 <= i < |t| ==> t[i] in multiset(rules);
  }

  /** A rule that raises, with no matching rule before it, makes the scan raise. */
  lemma ScanRaisesAt(s: seq<Rule>, facts: Facts, m: nat)
    requires m < |s| && RuleHolds(s[m], facts).RaisesTypeError?
    requires forall i :: 0 <= i < m ==> !Matches(s[i], facts)
    ensures FirstMatch(s, facts).RaisesTypeError?
  {
    FirstMatchNoneIff(s, facts);
    FirstMatchFound(s, facts);
  }

  /**
   * A rule whose conditions raise, with no rule of at least its priority
   * matching, makes the whole selection raise: a lower-priority rule that
   * matches is never reached.
   */
  lemma RaiseHidesLowerMatch(rules: seq<Rule>, facts: Facts, r: Rule)
    requires r in rules && RuleHolds(r, facts).RaisesTypeError?
    requires forall q :: q in rules && Priority(q) >= Priority(r) ==> !Matches(q, facts)
    ensures Select(rules, facts).RaisesTypeError?
  {
    var t := SortByPriority(rules);
    assert r in multiset(t);
    var m :| 0 <= m < |t| && t[m] == r;
    forall i | 0 <= i < m ensures !Matches(t[i], facts) {
      assert t[i] in multiset(rules);
    }
    ScanRaisesAt(t, facts, m);
  }

  /** No rule fires exactly when every rule's conditions come out false. */
  lemma SelectNoneIff(rules: seq<Rule>, facts: Facts)
    ensures Select(rules, facts) == Returns(None) <==> forall r :: r in rules ==> RuleHolds(r, facts) == Returns(false)
  {
    var t := SortByPriority(rules);
    FirstMatchMeaning(t, facts);
    assert forall i :: 0 <= i < |t| ==> t[i] in multiset(rules);
    assert forall r :: r in rules ==> r in multiset(t);
  }

  /**
   * `apply_rules` returns the action and name of the highest-priority matching
   * rule (the earliest of equals), or `(None, None)` when no rule matches,
   * whenever it returns; it returns whenever no rule's conditions raise, and it
   * raises only when some rule's conditions do.
   */
  lemma ApplyRulesPicksBest(rules: seq<Rule>, facts: Facts)
    ensures ApplyRules(rules, facts).Returns? ==>
              ApplyRules(rules, facts).value ==
                match BestRule(rules, facts)
                case None => Decision(None, None)
                case Some(r) => Decision(r.action, r.name)
    ensures (forall r :: r in rules ==> RuleHolds(r, facts).Returns?) ==> ApplyRules(rules, facts).Returns?
    ensures ApplyRules(rules, facts).RaisesTypeError? ==> exists r :: r in rules && RuleHolds(r, facts).RaisesTypeError?
  {
    SelectIsBest(rules, facts);
    SelectRaisesOnlyFromARule(rules, facts);
  }

  /** Every three-element condition of every rule has a number as its literal. */
  predicate NumericLiterals(rules: seq<Rule>) {
    forall r, c: Condition :: r in rules && c in ConditionsOf(r) && |c| == 3 ==> c[2].Num?
  }

  /** A rule whose literals are all numbers never raises. */
  lemma NumericRuleNeverRaises(r: Rule, facts: Facts)
    requires forall c: Condition :: c in ConditionsOf(r) && |c| == 3 ==> c[2].Num?
    ensures RuleHolds(r, facts).Returns?
  {
    var cs := ConditionsOf(r);
    forall i | 0 <= i < |cs|
      ensures EvaluateCondition(cs[i], facts).Returns?
    {
      assert cs[i] in cs;
      NumericLiteralNeverRaises(cs[i], facts);
    }
    AllHoldMeaning(cs, facts);
  }

  /** Rules whose literals are all numbers never make `apply_rules` raise. */
  lemma NumericRulesNeverRaise(rules: seq<Rule>, facts: Facts)
    requires NumericLiterals(rules)
    ensures ApplyRules(rules, facts).Returns?
  {
    forall r | r in rules
      ensures RuleHolds(r, facts).Returns?
    {
      NumericRuleNeverRaises(r, facts);
    }
    ApplyRulesPicksBest(rules, facts);
  }

  /** When every rule's conditions come out false, `apply_rules` returns `(None, None)`. */
  lemma NoneHoldsNoDecision(rules: seq<Rule>, facts: Facts)
    requires forall r :: r in rules ==> RuleHolds(r, facts) == Returns(false)
    ensures ApplyRules(rules, facts) == Returns(Decision(None, None))
  {
    SelectNoneIff(rules, facts);
  }

  /** A rule with no conditions (an empty or a missing list) matches any facts. */
  lemma NoConditionsMatches(r: Rule, facts: Facts)
    requires r.conditions.None? || r.conditions == Some([])
    ensures Matches(r, facts)
  {
  }

  /** With a catch-all rule in the list, the engine always fires some rule unless a condition raises. */
  lemma CatchAllAlwaysFires(rules: seq<Rule>, facts: Facts, i: nat)
    requires i < |rules| && ConditionsOf(rules[i]) == []
    ensures Select(rules, facts).RaisesTypeError? || Select(rules, facts).value.Some?
  {
    SelectNoneIff(rules, facts);
    assert rules[i] in rules;
  }
}
