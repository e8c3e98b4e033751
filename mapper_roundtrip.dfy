/**
 * Marshalling a value and unmarshalling the tree against the value's declared
 * class gives the value back, for the classes the mapper can rebuild: a
 * primary constructor whose parameters are named after fields of the same
 * class, distinct wire names, and no nulls. With the codec round trip this
 * is `decode(encode(x)) == x` for such records.
 */
module MapperRoundTrip {
  import opened Wrappers
  import opened Bytes
  import opened BObjects
  import opened Descriptors
  import opened Marshalling
  import opened Unmarshalling
  import opened Parser
  import opened Encoder
  import opened RoundTrip

  /** A constructor parameter bound to a field: named after one, and of that field's class. */
  predicate ParamBound(p: Param, fields: seq<FieldDesc>) {
    && p.name.Some?
    && FieldNamed(fields, p.name.value).Some?
    && fields[FieldNamed(fields, p.name.value).value].cls == p.cls
  }

  /**
   * A class the mapper can rebuild from its own dictionary: it has a primary
   * constructor whose parameters are all bound to fields, and its fields have
   * distinct wire names that fit a Kotlin String.
   */
  predicate Rebuildable(d: ClassDesc) {
    && d.RecordClass?
    && d.ctor.Some?
    && DistinctNames(AllFields(d))
    && (forall i :: 0 <= i < |AllFields(d)| ==> |FieldName(AllFields(d)[i])| <= INT_MAX)
    && forall k :: 0 <= k < |d.ctor.value| ==> ParamBound(d.ctor.value[k], AllFields(d))
  }

  /**
   * `v` is a value of declared class `c`: a string, byte array, `Int` or
   * `Long` of that class, or an instance of a rebuildable class whose every
   * slot fits its field.
   */
  predicate Typed(v: Value, c: ClassDesc)
    decreases v, 0
  {
    match v
    case VString(b) => c == StringClass && |b| <= INT_MAX
    case VBytes(b) => c == ByteArrayClass && |b| <= INT_MAX
    case VInt(n) => c == IntClass && IsInt(n)
    case VLong(n) => c == LongClass && IsLong(n)
    case VObject(d, slots) =>
      && c == d
      && Rebuildable(d)
      && |slots| == |AllFields(d)|
      && forall i :: 0 <= i < |slots| ==> FieldTyped(slots[i], AllFields(d)[i])
    case _ => false
  }

  /** A list element, at any nesting depth, whose leaves are values of class `leaf`. */
  predicate ElemTyped(v: Value, leaf: ClassDesc)
    decreases v, 1
  {
    match v
    case VList(xs) => forall i :: 0 <= i < |xs| ==> ElemTyped(xs[i], leaf)
    case _ => Typed(v, leaf)
  }

  /**
   * A slot fits its field: a list field, whose generic type is one the JVM
   * can report, holds a list with leaves of its innermost element class.
   */
  predicate FieldTyped(v: Value, f: FieldDesc)
    decreases v, 2
  {
    if IsListType(f.cls) then
      ArgsBoxed(f.generic) && v.VList? && forall i :: 0 <= i < |v.elems| ==> ElemTyped(v.elems[i], ExtractNestedType(f.generic))
    else Typed(v, f.cls)
  }

  /** What the round trip gives one value decoded against class `c`. */
  predicate RoundTrips(v: Value, c: ClassDesc) {
    && Shaped(v)
    && Marshal(v).Ok?
    && WellFormed(Marshal(v).value)
    && Unmarshal(c, Marshal(v).value) == Ok(v)
  }

  /** Every slot round-trips against its field's target type and fits the field. */
  predicate SlotsRoundTrip(fields: seq<FieldDesc>, slots: seq<Value>) {
    && |slots| == |fields|
    && forall i :: 0 <= i < |slots| ==>
      RoundTrips(slots[i], FieldTargetType(fields[i])) && Assignable(slots[i], fields[i].cls)
  }

  /** A value of its declared class survives marshal then unmarshal, through a tree the codec accepts. */
  lemma {:induction false} ValueRoundTrip(v: Value, c: ClassDesc)
    requires Typed(v, c)
    ensures RoundTrips(v, c)
    decreases v, 0
  {
    match v
    case VObject(d, slots) =>
      var fields := AllFields(d);
      forall i | 0 <= i < |slots|
        ensures RoundTrips(slots[i], FieldTargetType(fields[i])) && Assignable(slots[i], fields[i].cls)
      {
        FieldRoundTrip(slots[i], fields[i]);
      }
      RecordRoundTrip(d, slots);
    case _ =>
  }

  /** A list element, nested to any depth, round-trips against the leaf class. */
  lemma {:induction false} ElemRoundTrip(v: Value, leaf: ClassDesc)
    requires ElemTyped(v, leaf)
    ensures RoundTrips(v, leaf)
    decreases v, 1
  {
    match v
    case VList(xs) => ListRoundTrip(xs, leaf);
    case _ => ValueRoundTrip(v, leaf);
  }

  /** A slot round-trips against `getFieldTargetType` of its field, and the result fits the field. */
  lemma {:induction false} FieldRoundTrip(v: Value, f: FieldDesc)
    requires FieldTyped(v, f)
    ensures RoundTrips(v, FieldTargetType(f)) && Assignable(v, f.cls)
    decreases v, 2
  {
    if IsListType(f.cls) {
      ListRoundTrip(v.elems, ExtractNestedType(f.generic));
    } else {
      ValueRoundTrip(v, f.cls);
      if f.cls.RecordClass? {
        assert Chain(f.cls)[0] == f.cls;
      }
    }
  }

  /** A list whose elements round-trip against `leaf` round-trips against `leaf` as a whole. */
  lemma {:induction false} ListRoundTrip(xs: seq<Value>, leaf: ClassDesc)
    requires forall i :: 0 <= i < |xs| ==> ElemTyped(xs[i], leaf)
    ensures RoundTrips(VList(xs), leaf)
    decreases xs, 3
  {
    forall i | 0 <= i < |xs| ensures RoundTrips(xs[i], leaf) {
      ElemRoundTrip(xs[i], leaf);
    }
    ListOfRoundTrips(xs, leaf);
  }

  /** The list step on its own: element-wise round trips make the list's. */
  lemma ListOfRoundTrips(xs: seq<Value>, leaf: ClassDesc)
    requires forall i :: 0 <= i < |xs| ==> RoundTrips(xs[i], leaf)
    ensures RoundTrips(VList(xs), leaf)
  {
    MarshalListSpec(xs);
    var items := MarshalList(xs).value;
    UnmarshalItemsSpec(leaf, items);
    if items != [] {
      assert UnmarshalItems(leaf, items).value == xs;
    }
  }

  /** A record whose slots round-trip round-trips, by its constructor and then its field assignments. */
  lemma RecordRoundTrip(d: ClassDesc, slots: seq<Value>)
    requires Rebuildable(d)
    requires SlotsRoundTrip(AllFields(d), slots)
    ensures RoundTrips(VObject(d, slots), d)
  {
    var fields := AllFields(d);
    var e := RecordEntries(d, slots);
    var s0 := RecordConstructed(d, slots, e);
    RecordAssigned(fields, slots, e, s0);
  }

  /**
   * With distinct wire names the dictionary holds exactly one entry per
   * field, in field order, and each wire name finds its field's value.
   */
  lemma RecordEntries(d: ClassDesc, slots: seq<Value>) returns (e: Entries)
    requires Rebuildable(d)
    requires SlotsRoundTrip(AllFields(d), slots)
    ensures Shaped(VObject(d, slots)) && Marshal(VObject(d, slots)) == Ok(BDict(e))
    ensures WellFormed(BDict(e))
    ensures forall i :: 0 <= i < |slots| ==> Lookup(e, FieldName(AllFields(d)[i])) == Some(Marshal(slots[i]).value)
  {
    var fields := AllFields(d);
    forall i | 0 <= i < |slots| ensures Shaped(slots[i]) && Marshal(slots[i]).Ok? && WellFormed(Marshal(slots[i]).value) {
      assert RoundTrips(slots[i], FieldTargetType(fields[i]));
    }
    MarshalObjectInOrder(d, slots);
    e := Marshal(VObject(d, slots)).value.entries;
    ZipWellFormed(fields, slots, e);
  }

  /** One entry per field under distinct, String-sized wire names: a well-formed dictionary in which each wire name finds its field's value. */
  lemma ZipWellFormed(fields: seq<FieldDesc>, slots: seq<Value>, e: Entries)
    requires |e| == |fields| == |slots| && DistinctNames(fields)
    requires forall i :: 0 <= i < |fields| ==> |FieldName(fields[i])| <= INT_MAX
    requires forall i :: 0 <= i < |slots| ==> Shaped(slots[i]) && Marshal(slots[i]).Ok? && WellFormed(Marshal(slots[i]).value)
    requires forall i :: 0 <= i < |fields| ==> e[i] == (FieldName(fields[i]), Marshal(slots[i]).value)
    ensures WellFormed(BDict(e))
    ensures forall i :: 0 <= i < |slots| ==> Lookup(e, FieldName(fields[i])) == Some(Marshal(slots[i]).value)
  {
    assert KeysUnique(e);
    forall i | 0 <= i < |slots| ensures Lookup(e, FieldName(fields[i])) == Some(Marshal(slots[i]).value) {
      LookupDistinct(e, i);
    }
  }

  /** In a dictionary whose keys are distinct, the key at position `i` is found at `i`. */
  lemma LookupDistinct(e: Entries, i: nat)
    requires i < |e| && KeysUnique(e)
    ensures Lookup(e, e[i].0) == Some(e[i].1)
  {
    KeyIndexFound(e, e[i].0);
  }

  /** The constructor succeeds on the record's own dictionary. */
  lemma RecordConstructed(d: ClassDesc, slots: seq<Value>, e: Entries) returns (s0: seq<Value>)
    requires Rebuildable(d)
    requires SlotsRoundTrip(AllFields(d), slots)
    requires forall i :: 0 <= i < |slots| ==> Lookup(e, FieldName(AllFields(d)[i])) == Some(Marshal(slots[i]).value)
    ensures ConstructedInstance(d, AllFields(d), e) == Ok(s0)
  {
    var fields := AllFields(d);
    var params := d.ctor.value;
    forall k | 0 <= k < |params|
      ensures ArgFor(params[k], fields, e).Ok? && Assignable(ArgFor(params[k], fields, e).value, params[k].cls)
    {
      BoundArg(params[k], fields, slots, e);
    }
    CtorArgsSpec(params, fields, e);
    var args := CtorArgs(params, fields, e).value;
    assert ArgsAccepted(params, args);
    s0 := ConstructedInstance(d, fields, e).value;
  }

  /** A bound parameter's argument is an empty list or its field's value, either way one it accepts. */
  lemma BoundArg(p: Param, fields: seq<FieldDesc>, slots: seq<Value>, e: Entries)
    requires ParamBound(p, fields)
    requires SlotsRoundTrip(fields, slots)
    requires forall i :: 0 <= i < |slots| ==> Lookup(e, FieldName(fields[i])) == Some(Marshal(slots[i]).value)
    ensures ArgFor(p, fields, e).Ok? && Assignable(ArgFor(p, fields, e).value, p.cls)
  {
    var f := FieldNamed(fields, p.name.value).value;
    ArgForSpec(p, fields, e);
    assert Lookup(e, FieldName(fields[f])) == Some(Marshal(slots[f]).value);
  }

  /** Every field's wire name is present, so the `forEach` writes every slot back. */
  lemma RecordAssigned(fields: seq<FieldDesc>, slots: seq<Value>, e: Entries, s0: seq<Value>)
    requires SlotsRoundTrip(fields, slots) && |s0| == |fields|
    requires forall i :: 0 <= i < |slots| ==> Lookup(e, FieldName(fields[i])) == Some(Marshal(slots[i]).value)
    ensures AssignFields(fields, e, s0, 0) == Ok(slots)
  {
    forall m | 0 <= m < |fields| ensures FieldValue(fields[m], e) == Ok(Some(slots[m])) {
      FieldValueByLookup(fields[m], e);
      assert RoundTrips(slots[m], FieldTargetType(fields[m])) && Assignable(slots[m], fields[m].cls);
    }
    AssignFieldsSpec(fields, e, s0, 0);
    assert AssignFields(fields, e, s0, 0).value == slots;
  }

  /**
   * `decode(encode(x)) == x`: a value of its declared class marshals to a
   * tree whose encoding parses back to that tree, consuming exactly its
   * bytes, and the tree unmarshals to the value again.
   */
  lemma EncodeDecodeValue(v: Value, c: ClassDesc)
    requires Typed(v, c)
    ensures Shaped(v) && Marshal(v).Ok?
    ensures ParseAt(Encoded(Marshal(v).value), 0) == Ok((Marshal(v).value, |Encoded(Marshal(v).value)|))
    ensures Unmarshal(c, Marshal(v).value) == Ok(v)
  {
    ValueRoundTrip(v, c);
    var t := Marshal(v).value;
    ParseEncodedPrefix(t, []);
    assert Encoded(t) + [] == Encoded(t);
  }

  /** The `Int` values of `ns`. */
  function IntValues(ns: seq<int>): (r: seq<Value>)
    ensures |r| == |ns| && forall i :: 0 <= i < |ns| ==> r[i] == VInt(ns[i])
  {
    seq(|ns|, i requires 0 <= i < |ns| => VInt(ns[i]))
  }

  /** The `Long` values of `ns`. */
  function LongValues(ns: seq<int>): (r: seq<Value>)
    ensures |r| == |ns| && forall i :: 0 <= i < |ns| ==> r[i] == VLong(ns[i])
  {
    seq(|ns|, i requires 0 <= i < |ns| => VLong(ns[i]))
  }

  /** The Bencode integers of `ns`. */
  function IntTrees(ns: seq<int>): (r: seq<BObject>)
    ensures |r| == |ns| && forall i :: 0 <= i < |ns| ==> r[i] == BInt(ns[i])
  {
    seq(|ns|, i requires 0 <= i < |ns| => BInt(ns[i]))
  }

  /** A list of `Int`s marshals to the list of their Bencode integers. */
  lemma IntListMarshals(ns: seq<int>)
    ensures Shaped(VList(IntValues(ns)))
    ensures Marshal(VList(IntValues(ns))) == Ok(BList(IntTrees(ns)))
  {
    MarshalListSpec(IntValues(ns));
    assert MarshalList(IntValues(ns)).value == IntTrees(ns);
  }

  /**
   * A `List<Int>` property does not survive the round trip: its element
   * type is the boxed `Integer`, which `unmarshalInt` does not convert, so
   * the `Int`s written come back as `Long`s.
   */
  lemma IntListDecodesToLongs(f: FieldDesc, ns: seq<int>)
    requires IsListType(f.cls) && f.generic == ListOf(Plain(IntegerClass))
    requires 0 < |ns|
    ensures Marshal(VList(IntValues(ns))) == Ok(BList(IntTrees(ns)))
    ensures FieldValue(f, [(FieldName(f), BList(IntTrees(ns)))]) == Ok(Some(VList(LongValues(ns))))
    ensures VList(LongValues(ns)) != VList(IntValues(ns))
  {
    IntListMarshals(ns);
    var dict := [(FieldName(f), BList(IntTrees(ns)))];
    assert Lookup(dict, FieldName(f)) == Some(BList(IntTrees(ns)));
    FieldValueByLookup(f, dict);
    UnmarshalListSpec(IntegerClass, IntTrees(ns));
    assert Unmarshal(IntegerClass, BList(IntTrees(ns))).value.elems == LongValues(ns);
    assert LongValues(ns)[0] != IntValues(ns)[0];
  }

  /**
   * With `unmarshalInt` as documented, the elements of a `List<Int>`
   * property come back as the `Int`s that were written.
   */
  lemma IntListRoundTripIntended(f: FieldDesc, ns: seq<int>)
    requires IsListType(f.cls) && f.generic == ListOf(Plain(IntegerClass))
    requires forall i :: 0 <= i < |ns| ==> IsInt(ns[i])
    ensures Marshal(VList(IntValues(ns))) == Ok(BList(IntTrees(ns)))
    ensures forall i :: 0 <= i < |ns| ==> UnmarshalIntIntended(FieldTargetType(f), IntTrees(ns)[i].n) == IntValues(ns)[i]
    ensures FieldValueIntended(f, [(FieldName(f), BList(IntTrees(ns)))]) == Ok(Some(VList(IntValues(ns))))
  {
    IntListMarshals(ns);
    var dict := [(FieldName(f), BList(IntTrees(ns)))];
    assert KeyIndex(dict, FieldName(f)) == Some(0);
    assert FieldTargetType(f) == IntegerClass;
    IntItemsIntended(ns);
    if ns == [] {
      assert IntValues(ns) == [];
    }
  }

  /** Under the documented conversion, the Bencode integers of `Int`s decode to those `Int`s. */
  lemma {:induction false} IntItemsIntended(ns: seq<int>)
    requires forall i :: 0 <= i < |ns| ==> IsInt(ns[i])
    ensures UnmarshalItemsIntended(IntegerClass, IntTrees(ns)) == Ok(IntValues(ns))
  {
    if ns != [] {
      IntItemsIntended(ns[1..]);
      assert IntTrees(ns)[1..] == IntTrees(ns[1..]);
      assert IntValues(ns) == [VInt(ns[0])] + IntValues(ns[1..]);
    }
  }
}
