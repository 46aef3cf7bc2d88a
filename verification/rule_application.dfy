/**
  Applying an ordered rule set to one record and to a stream of records
  (`Util.applyRulesToItem`, `Util.applyRulesToStream`), as the unit tests fix it:
  no rule set, or one without rules, leaves a record as it is; otherwise the record
  is folded through the rules in iteration order, each rule seeing the previous
  rule's output; a stream maps every record so and keeps the two audit counters.
 */
module RuleApplication {
  import opened Wrappers
  import LinkedMap
  import opened Rules

  /** Every stored rule is non-null, so each can be applied. */
  predicate NoNullRules<T, U, C>(entries: seq<Entry<T, U, C>>) {
    forall i :: 0 <= i < |entries| ==> entries[i].1.Some?
  }

  /** Fold `item` through the rules of `entries`, first to last. */
  function ApplyRules<T, U, C>(item: T, user: U, context: C, entries: seq<Entry<T, U, C>>): T
    requires NoNullRules(entries)
    decreases |entries|
  {
    if |entries| == 0 then item
    else ApplyRules(entries[0].1.value.apply(item, user, context), user, context, entries[1..])
  }

  /** `applyRulesToItem(item, user, context, rules)`, where `None` is a null rule set. */
  function ApplyRulesToItem<T, U, C>(item: T, user: U, context: C, rules: Option<RuleSet<T, U, C>>): (r: T)
    requires rules.Some? ==> NoNullRules(rules.value.rules)
    ensures rules.None? ==> r == item
    ensures rules.Some? ==> r == ApplyRules(item, user, context, rules.value.rules)
  {
    if rules.None? || !ContainsRules(rules.value) then item
    else ApplyRules(item, user, context, rules.value.rules)
  }

  /** Folding through `a + b` is folding through `a`, then folding that result through `b`. */
  lemma {:induction false} ApplyRulesAppend<T, U, C>(item: T, user: U, context: C,
                                                     a: seq<Entry<T, U, C>>, b: seq<Entry<T, U, C>>)
    requires NoNullRules(a) && NoNullRules(b)
    ensures NoNullRules(a + b)
    ensures ApplyRules(item, user, context, a + b)
      == ApplyRules(ApplyRules(item, user, context, a), user, context, b)
    decreases |a|
  {
    assert NoNullRules(a + b) by {
      forall i | 0 <= i < |a + b| ensures (a + b)[i].1.Some? {
        if i < |a| { assert (a + b)[i] == a[i]; } else { assert (a + b)[i] == b[i - |a|]; }
      }
    }
    if |a| == 0 {
      assert a + b == b;
    } else {
      assert (a + b)[0] == a[0];
      assert (a + b)[1..] == a[1..] + b;
      ApplyRulesAppend(a[0].1.value.apply(item, user, context), user, context, a[1..], b);
    }
  }

  /** With no rule set, or a rule set holding no rules, a record comes back unchanged. */
  lemma NoRulesIsIdentity<T, U, C>(item: T, user: U, context: C, rs: RuleSet<T, U, C>)
    ensures ApplyRulesToItem(item, user, context, None) == item
    ensures ApplyRulesToItem(item, user, context, Some(Empty())) == item
    ensures !ContainsRules(rs) ==> ApplyRulesToItem(item, user, context, Some(rs)) == item
  {
  }

  /**
    A rule added under a new id runs last: it receives the result of all the rules
    added before it.
   */
  lemma AddedRuleRunsLast<T, U, C>(item: T, user: U, context: C, rs: RuleSet<T, U, C>,
                                   id: string, rule: Rule<T, U, C>)
    requires NoNullRules(rs.rules)
    requires !LinkedMap.ContainsKey(rs.rules, Some(id))
    ensures AddRule(rs, Some(id), Some(rule)).Success?
    ensures NoNullRules(AddRule(rs, Some(id), Some(rule)).value.rules)
    ensures ApplyRulesToItem(item, user, context, Some(AddRule(rs, Some(id), Some(rule)).value))
      == rule.apply(ApplyRulesToItem(item, user, context, Some(rs)), user, context)
  {
    var e: Entry<T, U, C> := (Some(id), Some(rule));
    AddRuleAppendsNewId(rs, id, rule);
    ApplyRulesAppend(item, user, context, rs.rules, [e]);
    assert [e][1..] == [];
  }

  /**
    Re-adding an existing id replaces that rule where it stands: the rules before it
    still run first and the rules after it still run after it.
   */
  lemma ReplacedRuleKeepsItsPlace<T, U, C>(item: T, user: U, context: C, rs: RuleSet<T, U, C>,
                                           id: string, rule: Rule<T, U, C>)
    requires NoNullRules(rs.rules)
    requires LinkedMap.ContainsKey(rs.rules, Some(id))
    ensures AddRule(rs, Some(id), Some(rule)).Success?
    ensures var i := LinkedMap.IndexOf(rs.rules, Some(id));
      && NoNullRules(AddRule(rs, Some(id), Some(rule)).value.rules)
      && ApplyRulesToItem(item, user, context, Some(AddRule(rs, Some(id), Some(rule)).value))
         == ApplyRules(rule.apply(ApplyRules(item, user, context, rs.rules[..i]), user, context),
                       user, context, rs.rules[i + 1..])
  {
    var i := LinkedMap.IndexOf(rs.rules, Some(id));
    var e: Entry<T, U, C> := (Some(id), Some(rule));
    AddRuleReplacesInPlace(rs, id, rule);
    assert NoNullRules(rs.rules[..i]) && NoNullRules(rs.rules[i + 1..]);
    ApplyRulesAppend(item, user, context, rs.rules[..i], [e]);
    ApplyRulesAppend(item, user, context, rs.rules[..i] + [e], rs.rules[i + 1..]);
    assert [e][1..] == [];
  }

  /** The transformed records and the final values of the processed and returned counters. */
  datatype StreamResult<T> = StreamResult(records: seq<T>, processed: nat, returned: nat)

  /**
    `applyRulesToStream(records, user, context, rules, recordsProcessed, recordsReturned)`:
    every record, in order, goes through the whole rule set; each record pulled adds one
    to `processed` and each record passed on adds one to `returned`.
   */
  function ApplyRulesToStream<T, U, C>(records: seq<T>, user: U, context: C,
                                       rules: Option<RuleSet<T, U, C>>,
                                       processed: nat, returned: nat): (r: StreamResult<T>)
    requires rules.Some? ==> NoNullRules(rules.value.rules)
    ensures |r.records| == |records|
    ensures forall i :: 0 <= i < |records| ==>
      r.records[i] == ApplyRulesToItem(records[i], user, context, rules)
    ensures r.processed == processed + |records|
    ensures r.returned == returned + |r.records|
    decreases |records|
  {
    if |records| == 0 then StreamResult([], processed, returned)
    else
      var rest := ApplyRulesToStream(records[1..], user, context, rules, processed + 1, returned + 1);
      StreamResult([ApplyRulesToItem(records[0], user, context, rules)] + rest.records,
                   rest.processed, rest.returned)
  }

  /** Two rule sets can be equal and still transform a record differently. */
  lemma EqualRuleSetsMayApplyDifferently<U, C>(user: U, context: C)
    ensures var a := RuleSet("first", [(Some("a"), Some(Rule("Suffix", (s: string, u: U, c: C) => s + "x")))]);
            var b := RuleSet("second", [(Some("b"), Some(Rule("Suffix", (s: string, u: U, c: C) => s + "y")))]);
            && Equal(a, b)
            && ApplyRulesToItem("", user, context, Some(a)) == "x"
            && ApplyRulesToItem("", user, context, Some(b)) == "y"
  {
    var a := RuleSet("first", [(Some("a"), Some(Rule("Suffix", (s: string, u: U, c: C) => s + "x")))]);
    var b := RuleSet("second", [(Some("b"), Some(Rule("Suffix", (s: string, u: U, c: C) => s + "y")))]);
    assert Kinds(a) == [Some("Suffix")] == Kinds(b);
  }

  // The unit tests' scenarios. The rules are lambdas; each lambda is its own class.

  function Replace<U, C>(kind: string, s: string): Rule<string, U, C> {
    Rule(kind, (record: string, u: U, c: C) => s)
  }

  function Append<U, C>(kind: string, s: string): Rule<string, U, C> {
    Rule(kind, (record: string, u: U, c: C) => record + s)
  }

  lemma ShouldReturnResourceIfNoRules<U, C>(user: U, context: C)
    ensures ApplyRulesToItem("String", user, context, None) == "String"
    ensures ApplyRulesToItem("String", user, context, Some(Empty<string, U, C>())) == "String"
  {
  }

  lemma ShouldUpdateRecord<U, C>(user: U, context: C)
    ensures var rs := AddRule(Empty(), Some("r1"), Some(Replace<U, C>("lambda$1", "fromRule")));
            && rs.Success?
            && NoNullRules(rs.value.rules)
            && ApplyRulesToItem("String", user, context, Some(rs.value)) == "fromRule"
  {
    AddedRuleRunsLast("String", user, context, Empty(), "r1", Replace<U, C>("lambda$1", "fromRule"));
  }

  /** A rule set of two rules applies the first, then the second to its output. */
  lemma TwoRulesApplyInOrder<T, U, C>(item: T, user: U, context: C,
                                      id1: string, r1: Rule<T, U, C>, id2: string, r2: Rule<T, U, C>)
    ensures var rs := RuleSet(NO_RULES_SET, [(Some(id1), Some(r1)), (Some(id2), Some(r2))]);
            && NoNullRules(rs.rules)
            && ApplyRulesToItem(item, user, context, Some(rs))
               == r2.apply(r1.apply(item, user, context), user, context)
  {
    var rules: seq<Entry<T, U, C>> := [(Some(id1), Some(r1)), (Some(id2), Some(r2))];
    var x1 := r1.apply(item, user, context);
    assert ApplyRules(item, user, context, rules) == ApplyRules(x1, user, context, rules[1..]);
    assert rules[1..][1..] == [];
    assert ApplyRules(x1, user, context, rules[1..]) == r2.apply(x1, user, context);
  }

  lemma ShouldUpdateRecordFromAllRules<U, C>(user: U, context: C)
    ensures var rs1 := AddRule(Empty(), Some("r1"), Some(Replace<U, C>("lambda$1", "fromRule")));
            && rs1.Success?
            && var rs2 := AddRule(rs1.value, Some("r2"), Some(Append<U, C>("lambda$2", "2ndRule")));
            && rs2.Success?
            && NoNullRules(rs2.value.rules)
            && ApplyRulesToItem("String", user, context, Some(rs2.value)) == "fromRule" + "2ndRule"
  {
    var r1 := Replace<U, C>("lambda$1", "fromRule");
    var r2 := Append<U, C>("lambda$2", "2ndRule");
    TwoNewIdsInOrder("r1", r1, "r2", r2);
    TwoRulesApplyInOrder("String", user, context, "r1", r1, "r2", r2);
    assert r1.apply("String", user, context) == "fromRule";
    assert r2.apply("fromRule", user, context) == "fromRule" + "2ndRule";
  }

  /** The rule set the stream test builds: `r2` then `r3`, each appending a suffix. */
  function StreamTestRules<U, C>(): RuleSet<string, U, C> {
    RuleSet(NO_RULES_SET, [(Some("r2"), Some(Append<U, C>("lambda$3", "2ndRule"))),
                           (Some("r3"), Some(Append<U, C>("lambda$4", "3rdRule")))])
  }

  /** Two `addRule` calls with different ids on a new rule set give those two entries in call order. */
  lemma TwoNewIdsInOrder<T, U, C>(id1: string, r1: Rule<T, U, C>, id2: string, r2: Rule<T, U, C>)
    requires id1 != id2
    ensures var rs1 := AddRule(Empty(), Some(id1), Some(r1));
            && rs1.Success?
            && AddRule(rs1.value, Some(id2), Some(r2))
               == Success(RuleSet(NO_RULES_SET, [(Some(id1), Some(r1)), (Some(id2), Some(r2))]))
  {
    var e1: Entry<T, U, C> := (Some(id1), Some(r1));
    var e2: Entry<T, U, C> := (Some(id2), Some(r2));
    var rs0: RuleSet<T, U, C> := Empty();
    LinkedMap.IndexOfAt(rs0.rules, Some(id1), 0);
    AddRuleAppendsNewId(rs0, id1, r1);
    assert rs0.rules + [e1] == [e1];
    var rs1 := RuleSet(NO_RULES_SET, [e1]);
    assert AddRule(rs0, Some(id1), Some(r1)) == Success(rs1);
    LinkedMap.IndexOfAt(rs1.rules, Some(id2), 1);
    AddRuleAppendsNewId(rs1, id2, r2);
    assert rs1.rules + [e2] == [e1, e2];
  }

  lemma StreamTestRulesBuilt<U, C>()
    ensures var rs2 := AddRule(Empty(), Some("r2"), Some(Append<U, C>("lambda$3", "2ndRule")));
            && rs2.Success?
            && AddRule(rs2.value, Some("r3"), Some(Append<U, C>("lambda$4", "3rdRule")))
               == Success(StreamTestRules<U, C>())
  {
    TwoNewIdsInOrder("r2", Append<U, C>("lambda$3", "2ndRule"), "r3", Append<U, C>("lambda$4", "3rdRule"));
  }

  lemma StreamTestRulesAppendBoth<U, C>(s: string, user: U, context: C)
    ensures NoNullRules(StreamTestRules<U, C>().rules)
    ensures ApplyRulesToItem(s, user, context, Some(StreamTestRules<U, C>())) == s + "2ndRule" + "3rdRule"
  {
    TwoRulesApplyInOrder(s, user, context, "r2", Append<U, C>("lambda$3", "2ndRule"),
                         "r3", Append<U, C>("lambda$4", "3rdRule"));
  }

  lemma StreamTestOnTwoRecords<U, C>(one: string, two: string, user: U, context: C)
    ensures NoNullRules(StreamTestRules<U, C>().rules)
    ensures var out := ApplyRulesToStream([one, two], user, context, Some(StreamTestRules<U, C>()), 0, 0);
            && out.records == [one + "2ndRule" + "3rdRule", two + "2ndRule" + "3rdRule"]
            && out.processed == 2
            && out.returned == 2
  {
    StreamTestRulesAppendBoth<U, C>(one, user, context);
    StreamTestRulesAppendBoth<U, C>(two, user, context);
    var out := ApplyRulesToStream([one, two], user, context, Some(StreamTestRules<U, C>()), 0, 0);
    var expected := [one + "2ndRule" + "3rdRule", two + "2ndRule" + "3rdRule"];
    assert out.records[0] == expected[0];
    assert out.records[1] == expected[1];
  }

  lemma ShouldUpdateStreamOfRecordsFromAllRules<U, C>(user: U, context: C)
    ensures var rs2 := AddRule(Empty(), Some("r2"), Some(Append<U, C>("lambda$3", "2ndRule")));
            && rs2.Success?
            && var rs3 := AddRule(rs2.value, Some("r3"), Some(Append<U, C>("lambda$4", "3rdRule")));
            && rs3.Success?
            && NoNullRules(rs3.value.rules)
            && var out := ApplyRulesToStream(["one", "two"], user, context, Some(rs3.value), 0, 0);
            && out.records == ["one" + "2ndRule" + "3rdRule", "two" + "2ndRule" + "3rdRule"]
            && out.processed == 2
            && out.returned == 2
  {
    StreamTestRulesBuilt<U, C>();
    StreamTestOnTwoRecords("one", "two", user, context);
  }
}
