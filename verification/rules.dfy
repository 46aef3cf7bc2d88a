/**
  The ordered rule set `Rules<T>`: a user-facing message and an insertion-ordered
  map from rule id to rule. Setters that the Java class null-checks return a
  `Result`; a `Failure` leaves the rule set as it was.
 */
module Rules {
  import opened Wrappers
  import LinkedMap

  const NO_RULES_SET: string := "no rules set"
  const ID_CANNOT_BE_NULL: string := "The id field can not be null."
  const RULE_CANNOT_BE_NULL: string := "The rule can not be null."
  const CANNOT_ADD_NULL: string := "Cannot add null to the existing rules."

  /**
    A rule: the name of its runtime class, which is all that rule-set equality
    looks at, and the pure function it applies to a record for a requesting
    user (`U`) in a context (`C`).
   */
  datatype Rule<!T, !U, !C> = Rule(kind: string, apply: (T, U, C) -> T)

  /**
    One map entry. `addRules` and `setRules` copy entries without checking them,
    so a stored id and a stored rule may each be `null`.
   */
  type Entry<!T, !U, !C> = (Option<string>, Option<Rule<T, U, C>>)

  datatype RuleSet<!T, !U, !C> = RuleSet(message: string, rules: seq<Entry<T, U, C>>)

  /** The map's ids are distinct. */
  ghost predicate Valid<T, U, C>(rs: RuleSet<T, U, C>) {
    LinkedMap.UniqueKeys(rs.rules)
  }

  /** `containsRules()`: at least one id is mapped. */
  predicate ContainsRules<T, U, C>(rs: RuleSet<T, U, C>)
    ensures ContainsRules(rs) <==> exists id :: LinkedMap.ContainsKey(rs.rules, id)
  {
    if |rs.rules| == 0 then false
    else assert LinkedMap.ContainsKey(rs.rules, rs.rules[0].0); true
  }

  /** `new Rules<>()`. */
  function Empty<T, U, C>(): (rs: RuleSet<T, U, C>)
    ensures Valid(rs)
    ensures !ContainsRules(rs)
    ensures forall id :: LinkedMap.Get(rs.rules, id).None?
    ensures rs.message == NO_RULES_SET
  {
    RuleSet(NO_RULES_SET, [])
  }

  /**
    `addRule(id, rule)`: a null id or rule throws; otherwise the rule is stored under
    `id`, replacing a previous rule in place or becoming the last rule.
   */
  function AddRule<T, U, C>(rs: RuleSet<T, U, C>, id: Option<string>, rule: Option<Rule<T, U, C>>)
    : (r: Result<RuleSet<T, U, C>, Error>)
    ensures r.Failure? <==> id.None? || rule.None?
    ensures id.None? ==> r.Failure? && r.error == NullPointer(Some(ID_CANNOT_BE_NULL))
    ensures id.Some? && rule.None? ==> r.Failure? && r.error == NullPointer(Some(RULE_CANNOT_BE_NULL))
    ensures r.Success? ==> r.value.message == rs.message
    ensures r.Success? ==> LinkedMap.Get(r.value.rules, id) == Some(rule)
    ensures r.Success? ==> forall k :: k != id ==> LinkedMap.Get(r.value.rules, k) == LinkedMap.Get(rs.rules, k)
    ensures r.Success? && LinkedMap.ContainsKey(rs.rules, id) ==>
      LinkedMap.Keys(r.value.rules) == LinkedMap.Keys(rs.rules)
    ensures r.Success? && !LinkedMap.ContainsKey(rs.rules, id) ==>
      LinkedMap.Keys(r.value.rules) == LinkedMap.Keys(rs.rules) + [id]
    ensures r.Success? && Valid(rs) ==> Valid(r.value)
  {
    if id.None? then Failure(NullPointer(Some(ID_CANNOT_BE_NULL)))
    else if rule.None? then Failure(NullPointer(Some(RULE_CANNOT_BE_NULL)))
    else
      var rules' := LinkedMap.Put(rs.rules, id, rule);
      LinkedMap.GetPut(rs.rules, id, rule, id);
      LinkedMap.KeysPut(rs.rules, id, rule);
      assert LinkedMap.UniqueKeys(rs.rules) ==> LinkedMap.UniqueKeys(rules') by {
        if LinkedMap.UniqueKeys(rs.rules) {
          LinkedMap.PutKeepsKeysUnique(rs.rules, id, rule);
        }
      }
      assert forall k :: k != id ==> LinkedMap.Get(rules', k) == LinkedMap.Get(rs.rules, k) by {
        forall k | k != id {
          LinkedMap.GetPut(rs.rules, id, rule, k);
        }
      }
      Success(RuleSet(rs.message, rules'))
  }

  /** `addRule` under a new id appends exactly one entry, after all the others. */
  lemma AddRuleAppendsNewId<T, U, C>(rs: RuleSet<T, U, C>, id: string, rule: Rule<T, U, C>)
    requires !LinkedMap.ContainsKey(rs.rules, Some(id))
    ensures AddRule(rs, Some(id), Some(rule)) == Success(RuleSet(rs.message, rs.rules + [(Some(id), Some(rule))]))
  {
  }

  /**
    `addRule` under an id already present overwrites that entry where it stands and
    changes nothing else.
   */
  lemma AddRuleReplacesInPlace<T, U, C>(rs: RuleSet<T, U, C>, id: string, rule: Rule<T, U, C>)
    requires LinkedMap.ContainsKey(rs.rules, Some(id))
    ensures var i := LinkedMap.IndexOf(rs.rules, Some(id));
      AddRule(rs, Some(id), Some(rule))
        == Success(RuleSet(rs.message, rs.rules[..i] + [(Some(id), Some(rule))] + rs.rules[i + 1..]))
  {
    var i := LinkedMap.IndexOf(rs.rules, Some(id));
    var e: Entry<T, U, C> := (Some(id), Some(rule));
    var rules' := LinkedMap.Put(rs.rules, Some(id), Some(rule));
    var split := rs.rules[..i] + [e] + rs.rules[i + 1..];
    assert |rules'| == |split|;
    forall j | 0 <= j < |rules'| ensures rules'[j] == split[j] {
      if j < i {
        assert split[j] == rs.rules[j];
      } else if j == i {
        assert split[j] == e;
      } else {
        assert split[j] == rs.rules[j];
      }
    }
    assert rules' == split;
  }

  /**
    `addRules(map)`: a null map throws; otherwise every entry of the map is put,
    in the map's iteration order, with `addRule`'s append-or-replace behaviour.
   */
  function AddRules<T, U, C>(rs: RuleSet<T, U, C>, src: Option<seq<Entry<T, U, C>>>)
    : (r: Result<RuleSet<T, U, C>, Error>)
    ensures r.Failure? <==> src.None?
    ensures r.Failure? ==> r.error == NullPointer(Some(CANNOT_ADD_NULL))
    ensures r.Success? ==> r.value.message == rs.message
    ensures r.Success? ==> |rs.rules| <= |r.value.rules|
    ensures r.Success? ==> forall i :: 0 <= i < |rs.rules| ==> r.value.rules[i].0 == rs.rules[i].0
    ensures r.Success? ==> forall k :: (
      LinkedMap.Get(r.value.rules, k)
        == (if LinkedMap.LastGet(src.value, k).Some? then LinkedMap.LastGet(src.value, k)
            else LinkedMap.Get(rs.rules, k)))
    ensures r.Success? && Valid(rs) ==> Valid(r.value)
  {
    if src.None? then Failure(NullPointer(Some(CANNOT_ADD_NULL)))
    else
      var rules' := LinkedMap.PutAll(rs.rules, src.value);
      assert forall k :: (LinkedMap.Get(rules', k)
        == (if LinkedMap.LastGet(src.value, k).Some? then LinkedMap.LastGet(src.value, k)
            else LinkedMap.Get(rs.rules, k))) by {
        forall k {
          LinkedMap.GetPutAll(rs.rules, src.value, k);
        }
      }
      Success(RuleSet(rs.message, rules'))
  }

  /** `addRules` puts the entries one at a time: its last entry is put after all the others. */
  lemma AddRulesPutsInOrder<T, U, C>(rs: RuleSet<T, U, C>, src: seq<Entry<T, U, C>>, e: Entry<T, U, C>)
    ensures AddRules(rs, Some(src + [e])).Success?
    ensures AddRules(rs, Some(src + [e])).value.rules
      == LinkedMap.Put(AddRules(rs, Some(src)).value.rules, e.0, e.1)
  {
    LinkedMap.PutAllSnoc(rs.rules, src, e);
  }

  /** `addRule` on a non-null id and rule is `addRules` of a one-entry map. */
  lemma AddRuleIsSingletonAddRules<T, U, C>(rs: RuleSet<T, U, C>, id: string, rule: Rule<T, U, C>)
    ensures AddRule(rs, Some(id), Some(rule)) == AddRules(rs, Some([(Some(id), Some(rule))]))
  {
    assert [(Some(id), Some(rule))] == [] + [(Some(id), Some(rule))];
    AddRulesPutsInOrder(rs, [], (Some(id), Some(rule)));
  }

  /**
    `setRules(map)` (and the fluent `rules(map)`): a null map throws; otherwise the
    rules become a fresh LinkedHashMap copy of the map.
   */
  function SetRules<T, U, C>(rs: RuleSet<T, U, C>, src: Option<seq<Entry<T, U, C>>>)
    : (r: Result<RuleSet<T, U, C>, Error>)
    ensures r.Failure? <==> src.None?
    ensures r.Failure? ==> r.error == NullPointer(None)
    ensures r.Success? ==> r.value.message == rs.message && Valid(r.value)
    ensures r.Success? ==> forall k :: LinkedMap.Get(r.value.rules, k) == LinkedMap.LastGet(src.value, k)
    ensures r.Success? && LinkedMap.UniqueKeys(src.value) ==> r.value.rules == src.value
  {
    if src.None? then Failure(NullPointer(None))
    else
      var rules' := LinkedMap.PutAll([], src.value);
      assert forall k :: LinkedMap.Get(rules', k) == LinkedMap.LastGet(src.value, k) by {
        forall k {
          LinkedMap.GetPutAll([], src.value, k);
        }
      }
      assert LinkedMap.UniqueKeys(src.value) ==> rules' == src.value by {
        if LinkedMap.UniqueKeys(src.value) {
          LinkedMap.PutAllCopies(src.value);
        }
      }
      Success(RuleSet(rs.message, rules'))
  }

  /** `setMessage(message)` (and the fluent `message(message)`): a null message throws. */
  function SetMessage<T, U, C>(rs: RuleSet<T, U, C>, message: Option<string>)
    : (r: Result<RuleSet<T, U, C>, Error>)
    ensures r.Failure? <==> message.None?
    ensures r.Failure? ==> r.error == NullPointer(None)
    ensures r.Success? ==> r.value.message == message.value && r.value.rules == rs.rules
  {
    if message.None? then Failure(NullPointer(None))
    else Success(rs.(message := message.value))
  }

  /** The runtime class of each stored rule, over `values()` in iteration order; a null rule has none. */
  function Kinds<T, U, C>(rs: RuleSet<T, U, C>): (ks: seq<Option<string>>)
    ensures |ks| == |rs.rules|
  {
    var vs := LinkedMap.Values(rs.rules);
    seq(|vs|, i requires 0 <= i < |vs| => if vs[i].Some? then Some(vs[i].value.kind) else None)
  }

  /** `equals`: the same sequence of rule classes; message, ids and captured state are ignored. */
  predicate Equal<T, U, C>(a: RuleSet<T, U, C>, b: RuleSet<T, U, C>)
    ensures Equal(a, b) ==> |a.rules| == |b.rules|
    ensures Equal(a, b) ==> (ContainsRules(a) <==> ContainsRules(b))
  {
    Kinds(a) == Kinds(b)
  }

  /** Rule-set equality compares the rule classes position by position, and nothing else. */
  lemma EqualIffSameKindsInOrder<T, U, C>(a: RuleSet<T, U, C>, b: RuleSet<T, U, C>)
    ensures Equal(a, b) <==>
      && |a.rules| == |b.rules|
      && forall i :: 0 <= i < |a.rules| ==>
           (a.rules[i].1.None? <==> b.rules[i].1.None?)
           && (a.rules[i].1.Some? ==> a.rules[i].1.value.kind == b.rules[i].1.value.kind)
  {
    if |a.rules| == |b.rules| &&
       forall i :: 0 <= i < |a.rules| ==>
         (a.rules[i].1.None? <==> b.rules[i].1.None?)
         && (a.rules[i].1.Some? ==> a.rules[i].1.value.kind == b.rules[i].1.value.kind)
    {
      assert forall i :: 0 <= i < |a.rules| ==> Kinds(a)[i] == Kinds(b)[i];
    }
    if Equal(a, b) {
      forall i | 0 <= i < |a.rules|
        ensures a.rules[i].1.None? <==> b.rules[i].1.None?
        ensures a.rules[i].1.Some? ==> a.rules[i].1.value.kind == b.rules[i].1.value.kind
      {
        assert Kinds(a)[i] == Kinds(b)[i];
      }
    }
  }

  /** Rule-set equality is an equivalence relation. */
  lemma EqualIsEquivalence<T, U, C>(a: RuleSet<T, U, C>, b: RuleSet<T, U, C>, c: RuleSet<T, U, C>)
    ensures Equal(a, a)
    ensures Equal(a, b) ==> Equal(b, a)
    ensures Equal(a, b) && Equal(b, c) ==> Equal(a, c)
  {
  }

  /** Equal rule sets agree on `containsRules()`; changing the message never changes equality. */
  lemma EqualIgnoresMessage<T, U, C>(a: RuleSet<T, U, C>, b: RuleSet<T, U, C>, message: string)
    ensures Equal(a, b) ==> (ContainsRules(a) <==> ContainsRules(b))
    ensures SetMessage(a, Some(message)).Success?
    ensures Equal(SetMessage(a, Some(message)).value, a)
  {
  }
}
