/** `isOrderFilteredOut`: caller-configured exclusion rules over order cells.
    Every operator names the condition under which the order is EXCLUDED,
    including `is` and `is_not`. */
module OrderFilter {
  import opened Optional
  import opened Strings
  import opened Records

  /** One configured rule; `operator` is free text, and only the four
      recognised words have an effect. */
  datatype FilterRule = FilterRule(field: string, operator: string, value: string)

  /** The rule excludes the order: the field is present, and the operator's
      condition holds of the lower-cased cell and the lower-cased rule value. */
  predicate Fires(order: Record, rule: FilterRule): (b: bool)
    ensures b ==> rule.field in order
    ensures b ==> rule.operator == "contains" || rule.operator == "does_not_contain" ||
                  rule.operator == "is" || rule.operator == "is_not"
  {
    rule.field in order &&
    var cell := Lower(order[rule.field]);
    var wanted := Lower(rule.value);
    match rule.operator
    case "contains" => Contains(cell, wanted)
    case "does_not_contain" => !Contains(cell, wanted)
    case "is" => cell == wanted
    case "is_not" => cell != wanted
    case _ => false
  }

  /** `isOrderFilteredOut(order, rules)`: the rules are scanned in order and
      the first one that fires excludes the order. */
  function IsOrderFilteredOut(order: Record, rules: seq<FilterRule>): (r: bool)
    ensures r <==> exists i :: 0 <= i < |rules| && Fires(order, rules[i])
  {
    if |rules| == 0 then false
    else if Fires(order, rules[0]) then true
    else
      var rest := IsOrderFilteredOut(order, rules[1..]);
      assert forall i :: 1 <= i < |rules| ==> rules[i] == rules[1..][i - 1];
      rest
  }

  /** A rule on a column the order lacks never fires. */
  lemma AbsentFieldNeverFires(order: Record, rule: FilterRule)
    requires rule.field !in order
    ensures !Fires(order, rule)
  {
  }

  /** A rule with an operator outside the four recognised ones never fires. */
  lemma UnknownOperatorNeverFires(order: Record, rule: FilterRule)
    requires rule.operator !in {"contains", "does_not_contain", "is", "is_not"}
    ensures !Fires(order, rule)
  {
  }

  /** Comparison ignores ASCII case on both sides: an order whose cell differs
      only in case from the rule value is excluded by `is`. */
  lemma IsIgnoresCase(order: Record, rule: FilterRule)
    requires rule.operator == "is" && rule.field in order
    requires Lower(order[rule.field]) == Lower(rule.value)
    ensures IsOrderFilteredOut(order, [rule])
  {
    assert Fires(order, [rule][0]);
  }

  /** `is v` together with `is_not v` on a field the order has excludes the
      order whatever its cell holds. */
  lemma IsAndIsNotExcludeAll(order: Record, rules: seq<FilterRule>, i: nat, j: nat)
    requires i < |rules| && j < |rules|
    requires rules[i].operator == "is" && rules[j].operator == "is_not"
    requires rules[i].field == rules[j].field && rules[i].value == rules[j].value
    requires rules[i].field in order
    ensures IsOrderFilteredOut(order, rules)
  {
    if !Fires(order, rules[i]) {
      assert Fires(order, rules[j]);
    }
  }

  /** An empty rule value is included in every cell: a `contains ""` rule
      excludes exactly the orders that have the field, and a
      `does_not_contain ""` rule excludes none. */
  lemma EmptyValueRules(order: Record, field: string)
    ensures Fires(order, FilterRule(field, "contains", "")) <==> field in order
    ensures !Fires(order, FilterRule(field, "does_not_contain", ""))
  {
    assert Lower("") == "";
    if field in order {
      ContainsEmpty(Lower(order[field]));
    }
  }

  /** No rules, no exclusion. */
  lemma NoRulesKeepEveryOrder(order: Record)
    ensures !IsOrderFilteredOut(order, [])
  {
  }

  /** The verdict depends only on which rules are present, not on their order
      or repetition. */
  lemma FilterIgnoresRuleOrder(order: Record, rules: seq<FilterRule>, others: seq<FilterRule>)
    requires forall rule :: rule in rules <==> rule in others
    ensures IsOrderFilteredOut(order, rules) == IsOrderFilteredOut(order, others)
  {
    if IsOrderFilteredOut(order, rules) {
      var i :| 0 <= i < |rules| && Fires(order, rules[i]);
      assert rules[i] in others;
    }
    if IsOrderFilteredOut(order, others) {
      var i :| 0 <= i < |others| && Fires(order, others[i]);
      assert others[i] in rules;
    }
  }

  /** Adding rules can only exclude more orders. */
  lemma MoreRulesExcludeMore(order: Record, rules: seq<FilterRule>, extra: seq<FilterRule>)
    requires IsOrderFilteredOut(order, rules)
    ensures IsOrderFilteredOut(order, rules + extra)
  {
    var i :| 0 <= i < |rules| && Fires(order, rules[i]);
    assert (rules + extra)[i] == rules[i];
  }
}
