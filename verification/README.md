# Palisade rule sets and leaf resources, modelled in Dafny

This project models two parts of the Palisade common library.

- **The ordered rule set `Rules<T>`.** It holds a user-facing message (default `"no rules set"`) and a `LinkedHashMap` from rule id to rule. Rules are applied to a record by folding the record through them in iteration order. A stream of records is mapped this way while a processed counter and a returned counter are kept.
- **The leaf resource record `AbstractLeafResource`.** It has type, serialised format, connection detail and parent fields, each null-checked on set. It also has an attribute map and field-wise equality.

Everything is an immutable value with pure functions:

- A Java `null` is `Wrappers.None`.
- A thrown `NullPointerException` is a `Wrappers.Failure(NullPointer(message))`. When a call fails, the object it was called on keeps its previous value.
- A fluent builder method (`type(t)`, `rules(m)`, `message(s)`, …) returns the updated object, so it is the same function as its setter.
- Getters are the datatypes' fields.

Modules:

- `wrappers.dfy`: `Option`, `Result`, and the `NullPointer` error.
- `linked_map.dfy`: `LinkedMap`, `java.util.LinkedHashMap` as its entry sequence in iteration order. `put` of a new key appends it. `put` of a present key overwrites the value in place. `putAll` is `put` of each entry in order.
- `rules.dfy`: `Rules`, the rule set. A rule is its class name (`kind`) and a pure function of record, user and context. `Equal` compares only the sequence of rule classes.
- `rule_application.dfy`: `RuleApplication`, applying a rule set to a record and to a stream, plus the unit tests' scenarios as lemmas.
- `leaf_resource.dfy`: `LeafResources`, the leaf resource. The superclass state, `ConnectionDetail`, `ParentResource` and attribute values are type parameters compared with their own equality.

The maps the two classes create themselves (the `HashMap` of a new leaf resource and the `LinkedHashMap`s of `Rules`) accept a null key and null values. `addRules` and `setRules` copy entries without checking them, and `Rules.equals` allows for null rules through `Optional.ofNullable`. For these reasons:

- rule ids are `Option<string>` and stored rules are `Option<Rule>`;
- attribute keys and values are `Option`s as well.

## Model

| member | source | states |
|---|---|---|
| LinkedMap.PutKeepsKeysUnique | src/main/java/uk/gov/gchq/palisade/rule/Rules.java:98 | put keeps the keys of a map distinct |
| LinkedMap.GetPut | src/main/java/uk/gov/gchq/palisade/rule/Rules.java:98 | after put(k, v), get(k) is v and every other key reads as before |
| LinkedMap.KeysPut | src/main/java/uk/gov/gchq/palisade/rule/Rules.java:98 | put keeps the key order, appending k only when it is new |
| LinkedMap.PutAllSnoc | src/main/java/uk/gov/gchq/palisade/rule/Rules.java:71 | putAll of a map ending in entry e is putAll of the rest followed by one put of e |
| LinkedMap.GetPutAll | src/main/java/uk/gov/gchq/palisade/rule/Rules.java:71 | after putAll(src), a key of src reads as its last value in src, any other key as before |
| LinkedMap.PutAllCopies | src/main/java/uk/gov/gchq/palisade/rule/Rules.java:121 | copying a map with distinct keys into an empty LinkedHashMap gives the same entries in the same order |
| Rules.ContainsRules | src/main/java/uk/gov/gchq/palisade/rule/Rules.java:129-131 | true exactly when some id is mapped |
| Rules.Empty | src/main/java/uk/gov/gchq/palisade/rule/Rules.java:50-53 | a new rule set maps no id, contains no rules, and its message is "no rules set" |
| Rules.AddRule | src/main/java/uk/gov/gchq/palisade/rule/Rules.java:94-100 | fails exactly when id or rule is null, with the id message checked first; otherwise the id reads as the rule, other ids are unchanged, the key order is kept (present id) or extended by the id (new id), the message is kept and ids stay distinct |
| Rules.AddRuleAppendsNewId | src/main/java/uk/gov/gchq/palisade/rule/Rules.java:98 | a new id becomes the last entry and nothing else changes |
| Rules.AddRuleReplacesInPlace | src/main/java/uk/gov/gchq/palisade/rule/Rules.java:98 | a present id's entry is overwritten at its own position; entries before and after are untouched |
| Rules.AddRules | src/main/java/uk/gov/gchq/palisade/rule/Rules.java:68-73 | fails exactly on a null map, with its message; otherwise existing ids keep their positions, each id of the argument reads as its last value there, other ids are unchanged, ids stay distinct |
| Rules.AddRulesPutsInOrder | src/main/java/uk/gov/gchq/palisade/rule/Rules.java:71 | the argument's entries are put one at a time in the argument's order |
| Rules.AddRuleIsSingletonAddRules | src/main/java/uk/gov/gchq/palisade/rule/Rules.java:94-100 | addRule of a non-null id and rule is addRules of the one-entry map |
| Rules.SetRules | src/main/java/uk/gov/gchq/palisade/rule/Rules.java:118-122 | fails exactly on a null map; otherwise the rules are an ordered copy of the argument (equal to it when its keys are distinct), with distinct ids, the message kept |
| Rules.SetMessage | src/main/java/uk/gov/gchq/palisade/rule/Rules.java:107-111 | fails exactly on null; otherwise only the message changes, never the rules |
| Rules.Equal | src/main/java/uk/gov/gchq/palisade/rule/Rules.java:133-151 | equality over the sequence of rule classes from values(); equal rule sets hold as many rules and agree on containsRules |
| Rules.EqualIffSameKindsInOrder | src/main/java/uk/gov/gchq/palisade/rule/Rules.java:133-151 | two rule sets are equal iff they have as many rules and, position by position, both rules are null or both have the same class |
| Rules.EqualIsEquivalence | src/main/java/uk/gov/gchq/palisade/rule/Rules.java:133-151 | rule-set equality is reflexive, symmetric and transitive |
| Rules.EqualIgnoresMessage | src/main/java/uk/gov/gchq/palisade/rule/Rules.java:133-151 | equal rule sets agree on containsRules, and changing the message keeps a rule set equal to itself |
| RuleApplication.EqualRuleSetsMayApplyDifferently | src/main/java/uk/gov/gchq/palisade/rule/Rules.java:142-150 | two rule sets with different messages, ids and captured values but the same rule class are equal, yet turn "" into "x" and "y" |
| RuleApplication.ApplyRulesToItem | src/test/java/uk/gov/gchq/palisade/UtilTest.java:36-64 | a null rule set returns the record unchanged; a rule set, empty or not, folds the record through its rules in iteration order |
| RuleApplication.NoRulesIsIdentity | src/test/java/uk/gov/gchq/palisade/UtilTest.java:36-43 | a null rule set, a new rule set or any rule set without rules returns the record unchanged |
| RuleApplication.ApplyRulesAppend | src/test/java/uk/gov/gchq/palisade/UtilTest.java:55-64 | folding through rules a then b is folding through a, then folding its output through b |
| RuleApplication.AddedRuleRunsLast | src/test/java/uk/gov/gchq/palisade/UtilTest.java:57-63 | a rule added under a new id is applied last, to the output of all earlier rules |
| RuleApplication.ReplacedRuleKeepsItsPlace | src/main/java/uk/gov/gchq/palisade/rule/Rules.java:98 | a rule re-added under a present id runs at the old rule's position, after the rules before it and before the rules after it |
| RuleApplication.ApplyRulesToStream | src/test/java/uk/gov/gchq/palisade/UtilTest.java:66-82 | every record in order becomes its single-record application; processed grows by the input length; returned grows by the output length, which equals the input length |
| RuleApplication.ShouldReturnResourceIfNoRules | src/test/java/uk/gov/gchq/palisade/UtilTest.java:36-43 | "String" with a null or empty rule set gives "String" |
| RuleApplication.ShouldUpdateRecord | src/test/java/uk/gov/gchq/palisade/UtilTest.java:45-52 | addRule("r1", constant "fromRule") turns "String" into "fromRule" |
| RuleApplication.ShouldUpdateRecordFromAllRules | src/test/java/uk/gov/gchq/palisade/UtilTest.java:54-64 | rules r1 then r2 give "fromRule" + "2ndRule" |
| RuleApplication.TwoNewIdsInOrder | src/test/java/uk/gov/gchq/palisade/UtilTest.java:57-59 | two addRule calls with different ids on a new rule set give exactly those two entries, in call order |
| RuleApplication.TwoRulesApplyInOrder | src/test/java/uk/gov/gchq/palisade/UtilTest.java:57-63 | a two-rule set applies the second rule to the first rule's output |
| RuleApplication.StreamTestRulesBuilt | src/test/java/uk/gov/gchq/palisade/UtilTest.java:72-74 | the two addRule calls of the stream test give the two-entry rule set r2, r3 in that order |
| RuleApplication.ShouldUpdateStreamOfRecordsFromAllRules | src/test/java/uk/gov/gchq/palisade/UtilTest.java:66-82 | ["one", "two"] through r2, r3 gives ["one2ndRule3rdRule", "two2ndRule3rdRule"], processed 2, returned 2 |
| LeafResources.New | src/main/java/uk/gov/gchq/palisade/resource/AbstractLeafResource.java:38-45 | a fresh leaf has null type, format, connection detail and parent, so it is not complete, and has no attribute set |
| LeafResources.GetAttribute | src/main/java/uk/gov/gchq/palisade/resource/AbstractLeafResource.java:146-149 | a non-null answer is the value stored under a key that is set; a key not set answers null |
| LeafResources.IsAttributeSet | src/main/java/uk/gov/gchq/palisade/resource/AbstractLeafResource.java:151-154 | no key is set in an empty attribute map |
| LeafResources.SetType | src/main/java/uk/gov/gchq/palisade/resource/AbstractLeafResource.java:89-94 | fails exactly on null; otherwise the type reads as the value set and no other field changes |
| LeafResources.SetSerialisedFormat | src/main/java/uk/gov/gchq/palisade/resource/AbstractLeafResource.java:102-107 | fails exactly on null; otherwise the format reads as the value set and no other field changes |
| LeafResources.SetConnectionDetail | src/main/java/uk/gov/gchq/palisade/resource/AbstractLeafResource.java:115-120 | fails exactly on null; otherwise the connection detail reads as the value set and no other field changes |
| LeafResources.SetParent | src/main/java/uk/gov/gchq/palisade/resource/AbstractLeafResource.java:128-133 | fails exactly on null; otherwise the parent reads as the value set and no other field changes |
| LeafResources.SetAttributes | src/main/java/uk/gov/gchq/palisade/resource/AbstractLeafResource.java:140-144 | fails exactly on null; otherwise a key is set iff it is in the new map and reads as its value there, and no other field changes |
| LeafResources.SetAttribute | src/main/java/uk/gov/gchq/palisade/resource/AbstractLeafResource.java:157-162 | fails exactly on a null key, with its message; otherwise the key is set and reads as the value, even a null one, and every other key and field is unchanged |
| LeafResources.SetAttributeStoresNull | src/main/java/uk/gov/gchq/palisade/resource/AbstractLeafResource.java:146-162 | setAttribute(k, null) succeeds; afterwards getAttribute(k) is null as before, but isAttributeSet(k) turned true |
| LeafResources.SetAttributeNonNull | src/main/java/uk/gov/gchq/palisade/resource/AbstractLeafResource.java:157-162 | the corrected setter fails on a null key or a null value, with the matching message; otherwise it acts as setAttribute and never introduces a null value |
| LeafResources.NullMeansUnsetWithoutNullValues | src/main/java/uk/gov/gchq/palisade/resource/AbstractLeafResource.java:146-154 | while no null value is stored, getAttribute(k) is null exactly when isAttributeSet(k) is false |
| LeafResources.Equals | src/main/java/uk/gov/gchq/palisade/resource/AbstractLeafResource.java:165-183 | equal leaves answer every getAttribute alike and are both complete or both incomplete |
| LeafResources.EqualsIsValueEquality | src/main/java/uk/gov/gchq/palisade/resource/AbstractLeafResource.java:165-183 | field-wise equality holds exactly when the records are identical values; it is reflexive and symmetric |
| LeafResources.AttributeOrderIrrelevant | src/main/java/uk/gov/gchq/palisade/resource/AbstractLeafResource.java:178-182 | setting two different attributes in either order gives equal leaves |
| LeafResources.FluentChainBuildsCompleteLeaf | src/main/java/uk/gov/gchq/palisade/resource/AbstractLeafResource.java:47-81 | type(t).serialisedFormat(f).connectionDetail(d).parent(p) on a fresh leaf succeeds at every step and yields a complete leaf holding exactly those values and no attributes |
| LeafResources.SettersCommuteAndOverride | src/main/java/uk/gov/gchq/palisade/resource/AbstractLeafResource.java:89-107 | setting type and format commutes, and a second setType overrides the first |

## Left out

- RuleApplication.ApplyRulesToItem: requires every stored rule to be non-null. `Util.java` is not part of this model, so what happens when it meets a null rule stored through `addRules` or `setRules` is not known.
- Dropping records: the model has no "drop this record" outcome and no null rule result. `Util.java` is not part of this model and no test exercises dropping, so `returned` always grows by the input length.
- RuleApplication.ApplyRulesToStream: for a null rule set or one without rules, both counters still grow by the input length. This is assumed: no unit test covers that case and `Util.java` is not part of this model.
- Rule failures: a rule is a total function here. An exception thrown by a rule, which would abort a stream, is not modelled.
- RuleApplication.ApplyRulesToStream: the counters are unbounded naturals. The 64-bit `AtomicLong` wrap-around, atomicity and laziness (single-pass, pull-based) are not modelled.
- User and context are passed to every rule as opaque type parameters. Their classes are not part of this model.
- LeafResources.SetAttributes: every attribute map a leaf holds is treated as a mutable `HashMap` that accepts null keys and null values. Java stores the caller's map as it is. If that map refuses `put`, as `Collections.emptyMap()` does, then `setAttribute` throws `UnsupportedOperationException`. If it refuses null keys, as `TreeMap` does, then `isAttributeSet(null)` and `getAttribute(null)` throw `NullPointerException`. The model's `SetAttribute`, `IsAttributeSet` and `GetAttribute` do not promise those exceptions.
- Aliasing: `getRules` and `getAttributes` return the live internal map, and `setAttributes` keeps the caller's map without copying it. Values cannot alias, so later outside changes to such a map are not modelled. Likewise `setRules` copying the argument is automatic here.
- `equals` with another class, and its `this == o` shortcut: only two values of the same datatype are compared. The superclass `AbstractResource.equals` is the equality of its opaque state `R`.
- `hashCode`, `toString` and `Serializable`. `Rules.hashCode` hashes the message and map while `equals` ignores both, so the two are inconsistent; no hash contract is stated.
- `UriBuilder`, the Avro serialiser and `Request`: a wrapper over `java.net.URI`, library I/O, and random UUID generation respectively.

Behaviour of the code that the model keeps as it is:

- getAttribute answers null both for an absent key and for a key stored with null. Only isAttributeSet tells them apart.
- setAttribute accepts a null value; see Findings.
- setMessage("") stores the empty string. "no rules set" is set only by the constructor.
- Nothing checks that a leaf has a parent, or any other mandatory field, before equality or use. `IsComplete` only names that condition.
- Re-adding an id keeps its original position, as `LinkedHashMap.put` does.

## Findings

| source | as written | input that shows it | evidently intended | confidence | as-written member | corrected member |
|---|---|---|---|---|---|---|
| src/main/java/uk/gov/gchq/palisade/resource/AbstractLeafResource.java:160 | the second `requireNonNull` tests `attributeKey` again while its message speaks of `attributeValue` | `setAttribute("k", null)` succeeds and stores null, so `getAttribute("k")` cannot tell it from an unset key | a null value is rejected with "The attributeValue cannot be set to null." | high (the message names the other argument); not executed | LeafResources.SetAttributeStoresNull | LeafResources.SetAttributeNonNull |
