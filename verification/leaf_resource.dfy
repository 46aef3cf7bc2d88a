/**
  The leaf resource record `AbstractLeafResource`: type, serialised format,
  connection detail and parent, each null until set and never set to null, plus
  an attribute map. The superclass state (the resource id), `ConnectionDetail`,
  `ParentResource` and attribute values are opaque: the type parameters `R`, `D`,
  `P` and `V`, compared with their own equality.
 */
module LeafResources {
  import opened Wrappers

  const ATTRIBUTE_KEY_CANNOT_BE_NULL: string := "The attributeKey cannot be set to null."
  const ATTRIBUTE_VALUE_CANNOT_BE_NULL: string := "The attributeValue cannot be set to null."

  /** `None` in a field is a Java `null`; a `HashMap` admits a null key and null values. */
  datatype LeafResource<R, D, P, V> = LeafResource(
    base: R,
    recordType: Option<string>,
    serialisedFormat: Option<string>,
    connectionDetail: Option<D>,
    parent: Option<P>,
    attributes: map<Option<string>, Option<V>>)

  /** The fields a setter can change. */
  datatype Field = TypeField | FormatField | ConnectionField | ParentField | AttributesField

  /** `a` and `b` agree on every field other than `f`. */
  ghost predicate AgreeExcept<R, D, P, V>(a: LeafResource<R, D, P, V>, b: LeafResource<R, D, P, V>, f: Field) {
    && a.base == b.base
    && (f == TypeField || a.recordType == b.recordType)
    && (f == FormatField || a.serialisedFormat == b.serialisedFormat)
    && (f == ConnectionField || a.connectionDetail == b.connectionDetail)
    && (f == ParentField || a.parent == b.parent)
    && (f == AttributesField || a.attributes == b.attributes)
  }

  /** All four mandatory fields are set. */
  predicate IsComplete<R, D, P, V>(l: LeafResource<R, D, P, V>) {
    l.recordType.Some? && l.serialisedFormat.Some? && l.connectionDetail.Some? && l.parent.Some?
  }

  /** `getAttribute(k)`: the stored value, or null when `k` is absent. */
  function GetAttribute<R, D, P, V>(l: LeafResource<R, D, P, V>, k: Option<string>): (r: Option<V>)
    ensures r.Some? ==> IsAttributeSet(l, k) && l.attributes[k] == r
    ensures !IsAttributeSet(l, k) ==> r.None?
  {
    if k in l.attributes then l.attributes[k] else None
  }

  /** `isAttributeSet(k)`. */
  predicate IsAttributeSet<R, D, P, V>(l: LeafResource<R, D, P, V>, k: Option<string>)
    ensures |l.attributes| == 0 ==> !IsAttributeSet(l, k)
  {
    k in l.attributes
  }

  /** A fresh leaf resource over the superclass state `base`: nothing set, no attributes. */
  function New<R, D, P, V>(base: R): (l: LeafResource<R, D, P, V>)
    ensures l.base == base
    ensures l.recordType.None? && l.serialisedFormat.None? && l.connectionDetail.None? && l.parent.None?
    ensures !IsComplete(l)
    ensures forall k :: !IsAttributeSet(l, k) && GetAttribute(l, k).None?
  {
    LeafResource(base, None, None, None, None, map[])
  }

  /** `setType(t)` and the fluent `type(t)`. */
  function SetType<R, D, P, V>(l: LeafResource<R, D, P, V>, t: Option<string>)
    : (r: Result<LeafResource<R, D, P, V>, Error>)
    ensures r.Failure? <==> t.None?
    ensures r.Failure? ==> r.error == NullPointer(None)
    ensures r.Success? ==> r.value.recordType == t && AgreeExcept(l, r.value, TypeField)
  {
    if t.None? then Failure(NullPointer(None)) else Success(l.(recordType := t))
  }

  /** `setSerialisedFormat(f)` and the fluent `serialisedFormat(f)`. */
  function SetSerialisedFormat<R, D, P, V>(l: LeafResource<R, D, P, V>, f: Option<string>)
    : (r: Result<LeafResource<R, D, P, V>, Error>)
    ensures r.Failure? <==> f.None?
    ensures r.Failure? ==> r.error == NullPointer(None)
    ensures r.Success? ==> r.value.serialisedFormat == f && AgreeExcept(l, r.value, FormatField)
  {
    if f.None? then Failure(NullPointer(None)) else Success(l.(serialisedFormat := f))
  }

  /** `setConnectionDetail(d)` and the fluent `connectionDetail(d)`. */
  function SetConnectionDetail<R, D, P, V>(l: LeafResource<R, D, P, V>, d: Option<D>)
    : (r: Result<LeafResource<R, D, P, V>, Error>)
    ensures r.Failure? <==> d.None?
    ensures r.Failure? ==> r.error == NullPointer(None)
    ensures r.Success? ==> r.value.connectionDetail == d && AgreeExcept(l, r.value, ConnectionField)
  {
    if d.None? then Failure(NullPointer(None)) else Success(l.(connectionDetail := d))
  }

  /** `setParent(p)` and the fluent `parent(p)`. */
  function SetParent<R, D, P, V>(l: LeafResource<R, D, P, V>, p: Option<P>)
    : (r: Result<LeafResource<R, D, P, V>, Error>)
    ensures r.Failure? <==> p.None?
    ensures r.Failure? ==> r.error == NullPointer(None)
    ensures r.Success? ==> r.value.parent == p && AgreeExcept(l, r.value, ParentField)
  {
    if p.None? then Failure(NullPointer(None)) else Success(l.(parent := p))
  }

  /** `setAttributes(m)` and the fluent `attributes(m)`: the whole map is replaced. */
  function SetAttributes<R, D, P, V>(l: LeafResource<R, D, P, V>, m: Option<map<Option<string>, Option<V>>>)
    : (r: Result<LeafResource<R, D, P, V>, Error>)
    ensures r.Failure? <==> m.None?
    ensures r.Failure? ==> r.error == NullPointer(None)
    ensures r.Success? ==> forall k ::
      && (IsAttributeSet(r.value, k) <==> k in m.value)
      && GetAttribute(r.value, k) == (if k in m.value then m.value[k] else None)
    ensures r.Success? ==> AgreeExcept(l, r.value, AttributesField)
  {
    if m.None? then Failure(NullPointer(None)) else Success(l.(attributes := m.value))
  }

  /**
    `setAttribute(k, v)` and the fluent `attribute(k, v)`, as written: a null key
    throws, and the second null check tests the key again, so a null value is stored.
   */
  function SetAttribute<R, D, P, V>(l: LeafResource<R, D, P, V>, k: Option<string>, v: Option<V>)
    : (r: Result<LeafResource<R, D, P, V>, Error>)
    ensures r.Failure? <==> k.None?
    ensures r.Failure? ==> r.error == NullPointer(Some(ATTRIBUTE_KEY_CANNOT_BE_NULL))
    ensures r.Success? ==> IsAttributeSet(r.value, k) && GetAttribute(r.value, k) == v
    ensures r.Success? ==> forall k' :: k' != k ==>
      && (IsAttributeSet(r.value, k') <==> IsAttributeSet(l, k'))
      && GetAttribute(r.value, k') == GetAttribute(l, k')
    ensures r.Success? ==> AgreeExcept(l, r.value, AttributesField)
  {
    if k.None? then Failure(NullPointer(Some(ATTRIBUTE_KEY_CANNOT_BE_NULL)))
    else if k.None? then Failure(NullPointer(Some(ATTRIBUTE_VALUE_CANNOT_BE_NULL)))
    else Success(l.(attributes := l.attributes[k := v]))
  }

  /**
    A null value goes in, and afterwards `getAttribute` answers null just as it does
    for a key never set, while `isAttributeSet` tells the two apart.
   */
  lemma SetAttributeStoresNull<R, D, P, V>(l: LeafResource<R, D, P, V>, k: string)
    requires !IsAttributeSet(l, Some(k))
    ensures SetAttribute(l, Some(k), None).Success?
    ensures GetAttribute(SetAttribute(l, Some(k), None).value, Some(k)) == GetAttribute(l, Some(k)) == None
    ensures IsAttributeSet(SetAttribute(l, Some(k), None).value, Some(k)) && !IsAttributeSet(l, Some(k))
  {
  }

  /** No attribute is mapped to null. */
  ghost predicate NoNullValues<R, D, P, V>(l: LeafResource<R, D, P, V>) {
    forall k :: k in l.attributes ==> l.attributes[k].Some?
  }

  /** `setAttribute` with the evidently intended second check: a null value throws too. */
  function SetAttributeNonNull<R, D, P, V>(l: LeafResource<R, D, P, V>, k: Option<string>, v: Option<V>)
    : (r: Result<LeafResource<R, D, P, V>, Error>)
    ensures r.Failure? <==> k.None? || v.None?
    ensures k.None? ==> r.Failure? && r.error == NullPointer(Some(ATTRIBUTE_KEY_CANNOT_BE_NULL))
    ensures k.Some? && v.None? ==> r.Failure? && r.error == NullPointer(Some(ATTRIBUTE_VALUE_CANNOT_BE_NULL))
    ensures r.Success? ==> r == SetAttribute(l, k, v)
    ensures r.Success? && NoNullValues(l) ==> NoNullValues(r.value)
  {
    if k.None? then Failure(NullPointer(Some(ATTRIBUTE_KEY_CANNOT_BE_NULL)))
    else if v.None? then Failure(NullPointer(Some(ATTRIBUTE_VALUE_CANNOT_BE_NULL)))
    else Success(l.(attributes := l.attributes[k := v]))
  }

  /**
    While no null value is stored, which the corrected setter keeps so, `getAttribute`
    answers null exactly for the keys that are not set.
   */
  lemma NullMeansUnsetWithoutNullValues<R, D, P, V>(l: LeafResource<R, D, P, V>, k: Option<string>)
    requires NoNullValues(l)
    ensures IsAttributeSet(l, k) <==> GetAttribute(l, k).Some?
  {
  }

  /** `equals`: the superclass agrees and every field, the attribute map included, is equal. */
  predicate Equals<R(==), D(==), P(==), V(==)>(a: LeafResource<R, D, P, V>, b: LeafResource<R, D, P, V>)
    ensures Equals(a, b) ==> (forall k :: GetAttribute(a, k) == GetAttribute(b, k))
    ensures Equals(a, b) ==> IsComplete(a) == IsComplete(b)
  {
    && a.base == b.base
    && a.recordType == b.recordType
    && a.serialisedFormat == b.serialisedFormat
    && a.connectionDetail == b.connectionDetail
    && a.parent == b.parent
    && a.attributes == b.attributes
  }

  /** Field-wise equality is equality of the whole record, hence an equivalence. */
  lemma EqualsIsValueEquality<R, D, P, V>(a: LeafResource<R, D, P, V>, b: LeafResource<R, D, P, V>)
    ensures Equals(a, b) <==> a == b
    ensures Equals(a, a)
    ensures Equals(a, b) ==> Equals(b, a)
  {
  }

  /** The order in which two different attributes are set does not affect equality. */
  lemma AttributeOrderIrrelevant<R, D, P, V>(l: LeafResource<R, D, P, V>,
                                             k1: string, v1: Option<V>, k2: string, v2: Option<V>)
    requires k1 != k2
    ensures SetAttribute(l, Some(k1), v1).Success? && SetAttribute(l, Some(k2), v2).Success?
    ensures SetAttribute(SetAttribute(l, Some(k1), v1).value, Some(k2), v2).Success?
    ensures SetAttribute(SetAttribute(l, Some(k2), v2).value, Some(k1), v1).Success?
    ensures Equals(SetAttribute(SetAttribute(l, Some(k1), v1).value, Some(k2), v2).value,
                   SetAttribute(SetAttribute(l, Some(k2), v2).value, Some(k1), v1).value)
  {
    var a := SetAttribute(SetAttribute(l, Some(k1), v1).value, Some(k2), v2).value;
    var b := SetAttribute(SetAttribute(l, Some(k2), v2).value, Some(k1), v1).value;
    assert a.attributes == b.attributes;
  }

  /**
    The fluent chain `type(t).serialisedFormat(f).connectionDetail(d).parent(p)` on a
    fresh leaf returns a complete leaf whose getters give back what was set.
   */
  lemma FluentChainBuildsCompleteLeaf<R, D, P, V>(base: R, t: string, f: string, d: D, p: P)
    ensures var l1 := SetType(New<R, D, P, V>(base), Some(t));
            && l1.Success?
            && var l2 := SetSerialisedFormat(l1.value, Some(f));
            && l2.Success?
            && var l3 := SetConnectionDetail(l2.value, Some(d));
            && l3.Success?
            && var l4 := SetParent(l3.value, Some(p));
            && l4.Success?
            && IsComplete(l4.value)
            && l4.value == LeafResource(base, Some(t), Some(f), Some(d), Some(p), map[])
  {
  }

  /** Setters of different fields commute, and a second set of a field overrides the first. */
  lemma SettersCommuteAndOverride<R, D, P, V>(l: LeafResource<R, D, P, V>, t1: string, t2: string, f: string)
    ensures SetType(l, Some(t1)).Success?
    ensures SetSerialisedFormat(SetType(l, Some(t1)).value, Some(f)).Success?
    ensures SetSerialisedFormat(l, Some(f)).Success?
    ensures SetType(SetSerialisedFormat(l, Some(f)).value, Some(t1)).Success?
    ensures SetSerialisedFormat(SetType(l, Some(t1)).value, Some(f)).value
         == SetType(SetSerialisedFormat(l, Some(f)).value, Some(t1)).value
    ensures SetType(SetType(l, Some(t1)).value, Some(t2)) == SetType(l, Some(t2))
  {
  }
}
