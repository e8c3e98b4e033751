/**
 * Marshal.kt: a runtime value to its Bencode tree. Strings and byte arrays
 * become byte strings, numbers become integers, lists map element by element,
 * and any other object becomes a dictionary over `getAllFields`, keyed by
 * `getFieldName`, built with `associate` (a LinkedHashMap filled in field
 * order). A null reached anywhere is rejected.
 */
module Marshalling {
  import opened Wrappers
  import opened Bytes
  import opened BObjects
  import opened Descriptors

  /** `marshal(null)`: the `!!` on a list element or field value, or the non-null parameter check. */
  datatype MarshalError = NullValue

  /** Every instance reached holds one slot per field of its class. */
  predicate Shaped(v: Value) {
    match v
    case VList(xs) => forall i :: 0 <= i < |xs| ==> Shaped(xs[i])
    case VObject(c, slots) => |slots| == |AllFields(c)| && forall i :: 0 <= i < |slots| ==> Shaped(slots[i])
    case _ => true
  }

  /** No null is reachable from `v`. */
  predicate NullFree(v: Value) {
    match v
    case VNull => false
    case VList(xs) => forall i :: 0 <= i < |xs| ==> NullFree(xs[i])
    case VObject(_, slots) => forall i :: 0 <= i < |slots| ==> NullFree(slots[i])
    case _ => true
  }

  /**
   * `marshal`: the `when` dispatch on the runtime kind of the value. A null
   * fails; otherwise strings and byte arrays become byte strings, numbers
   * integers, lists lists of the same length, and instances dictionaries
   * with at most one entry per field.
   */
  function Marshal(v: Value): (r: Result<BObject, MarshalError>)
    requires Shaped(v)
    ensures v.VNull? ==> r.Err?
    ensures r.Ok? ==> (r.value.BStr? <==> v.VString? || v.VBytes?)
    ensures r.Ok? ==> (r.value.BInt? <==> v.VInt? || v.VLong?)
    ensures r.Ok? ==> (r.value.BList? <==> v.VList?)
    ensures r.Ok? && v.VList? ==> |r.value.items| == |v.elems|
    ensures r.Ok? ==> (r.value.BDict? <==> v.VObject?)
    ensures r.Ok? && v.VObject? ==> |r.value.entries| <= |v.slots| && KeysUnique(r.value.entries)
    decreases v, 1
  {
    match v
    case VNull => Err(NullValue)
    case VString(b) => Ok(BStr(b))
    case VBytes(b) => Ok(BStr(b))
    case VInt(n) => Ok(BInt(n))
    case VLong(n) => Ok(BInt(n))
    case VList(xs) =>
      var items :- MarshalList(xs);
      Ok(BList(items))
    case VObject(c, slots) =>
      var entries :- MarshalFields(AllFields(c), slots, []);
      Ok(BDict(entries))
  }

  /** `marshalList`: `list.map { marshal(it!!) }`, stopping at the first failure. */
  function MarshalList(xs: seq<Value>): (r: Result<seq<BObject>, MarshalError>)
    requires forall i :: 0 <= i < |xs| ==> Shaped(xs[i])
    ensures r.Ok? ==> |r.value| == |xs|
    ensures (exists i :: 0 <= i < |xs| && xs[i].VNull?) ==> r.Err?
    decreases xs, 0
  {
    if xs == [] then Ok([])
    else
      var head :- Marshal(xs[0]);
      var tail :- MarshalList(xs[1..]);
      Ok([head] + tail)
  }

  /**
   * `marshalDict`'s `associate`: for each field in order, `map[getFieldName(f)] = marshal(f.get(any))`
   * into the map built so far (`acc`).
   */
  function MarshalFields(fields: seq<FieldDesc>, slots: seq<Value>, acc: Entries): (r: Result<Entries, MarshalError>)
    requires |fields| == |slots|
    requires forall i :: 0 <= i < |slots| ==> Shaped(slots[i])
    ensures r.Ok? ==> |acc| <= |r.value| <= |acc| + |fields|
    ensures r.Ok? && KeysUnique(acc) ==> KeysUnique(r.value)
    decreases slots, 0
  {
    if slots == [] then Ok(acc)
    else
      var b :- Marshal(slots[0]);
      PutShape(acc, FieldName(fields[0]), b);
      MarshalFields(fields[1..], slots[1..], Put(acc, FieldName(fields[0]), b))
  }

  /** Strings and byte arrays become the byte string of their bytes; numbers become that integer. */
  lemma MarshalScalars(v: Value)
    ensures v.VString? ==> Marshal(v) == Ok(BStr(v.text))
    ensures v.VBytes? ==> Marshal(v) == Ok(BStr(v.bytes))
    ensures v.VInt? ==> Marshal(v) == Ok(BInt(v.i))
    ensures v.VLong? ==> Marshal(v) == Ok(BInt(v.l))
    ensures v.VNull? ==> Marshal(v).Err?
  {
  }

  /** A list succeeds exactly when every element does, and then keeps its length and order. */
  lemma {:induction false} MarshalListSpec(xs: seq<Value>)
    requires forall i :: 0 <= i < |xs| ==> Shaped(xs[i])
    ensures MarshalList(xs).Ok? <==> forall i :: 0 <= i < |xs| ==> Marshal(xs[i]).Ok?
    ensures MarshalList(xs).Ok? ==>
      && |MarshalList(xs).value| == |xs|
      && forall i :: 0 <= i < |xs| ==> Marshal(xs[i]) == Ok(MarshalList(xs).value[i])
  {
    if xs != [] {
      MarshalListSpec(xs[1..]);
      assert forall i :: 1 <= i < |xs| ==> xs[i] == xs[1..][i - 1];
    }
  }

  /** Marshalling fails exactly when a null is reachable. */
  lemma {:induction false} MarshalOkIffNullFree(v: Value)
    requires Shaped(v)
    ensures Marshal(v).Ok? <==> NullFree(v)
    decreases v, 1
  {
    match v
    case VList(xs) =>
      MarshalListSpec(xs);
      forall i | 0 <= i < |xs| ensures Marshal(xs[i]).Ok? <==> NullFree(xs[i]) {
        MarshalOkIffNullFree(xs[i]);
      }
    case VObject(c, slots) =>
      forall i | 0 <= i < |slots| ensures Marshal(slots[i]).Ok? <==> NullFree(slots[i]) {
        MarshalOkIffNullFree(slots[i]);
      }
      MarshalFieldsOk(AllFields(c), slots, []);
    case _ =>
  }

  /** The fold over the fields succeeds exactly when every field value marshals. */
  lemma {:induction false} MarshalFieldsOk(fields: seq<FieldDesc>, slots: seq<Value>, acc: Entries)
    requires |fields| == |slots|
    requires forall i :: 0 <= i < |slots| ==> Shaped(slots[i])
    ensures MarshalFields(fields, slots, acc).Ok? <==> forall i :: 0 <= i < |slots| ==> Marshal(slots[i]).Ok?
  {
    if slots != [] {
      if Marshal(slots[0]).Ok? {
        MarshalFieldsOk(fields[1..], slots[1..], Put(acc, FieldName(fields[0]), Marshal(slots[0]).value));
        assert forall i :: 1 <= i < |slots| ==> slots[i] == slots[1..][i - 1];
      }
    }
  }

  /** The position of the last field whose wire name is `k`. */
  function LastWith(fields: seq<FieldDesc>, k: seq<byte>): (r: Option<nat>)
    ensures r.Some? ==> r.value < |fields| && FieldName(fields[r.value]) == k
  {
    if fields == [] then None
    else match LastWith(fields[1..], k)
      case Some(j) => Some(j + 1)
      case None => if FieldName(fields[0]) == k then Some(0) else None
  }

  /** `LastWith` finds the last field with that wire name, and none when no field has it. */
  lemma {:induction false} LastWithSpec(fields: seq<FieldDesc>, k: seq<byte>)
    ensures LastWith(fields, k).None? <==> k !in WireNames(fields)
    ensures LastWith(fields, k).Some? ==>
      forall j :: LastWith(fields, k).value < j < |fields| ==> FieldName(fields[j]) != k
  {
    if fields != [] {
      LastWithSpec(fields[1..], k);
      assert WireNames(fields) == [FieldName(fields[0])] + WireNames(fields[1..]);
    }
  }

  /**
   * When every field value marshals, the map holds one entry per wire name,
   * and each wire name maps to the value of the LAST field carrying it (a
   * later `put` replaces the value); other keys keep what `acc` held.
   */
  lemma {:induction false} MarshalFieldsLookup(fields: seq<FieldDesc>, slots: seq<Value>, acc: Entries, k: seq<byte>)
    requires |fields| == |slots|
    requires forall i :: 0 <= i < |slots| ==> Shaped(slots[i]) && Marshal(slots[i]).Ok?
    requires KeysUnique(acc)
    ensures MarshalFields(fields, slots, acc).Ok?
    ensures KeysUnique(MarshalFields(fields, slots, acc).value)
    ensures Lookup(MarshalFields(fields, slots, acc).value, k) ==
      match LastWith(fields, k)
      case Some(j) => Some(Marshal(slots[j]).value)
      case None => Lookup(acc, k)
  {
    if slots != [] {
      var k0 := FieldName(fields[0]);
      var b := Marshal(slots[0]).value;
      var acc' := Put(acc, k0, b);
      PutSpec(acc, k0, b);
      assert forall i :: 0 <= i < |slots[1..]| ==> slots[1..][i] == slots[i + 1];
      MarshalFieldsLookup(fields[1..], slots[1..], acc', k);
      assert MarshalFields(fields, slots, acc) == MarshalFields(fields[1..], slots[1..], acc');
      match LastWith(fields[1..], k)
      case Some(j) =>
        assert LastWith(fields, k) == Some(j + 1) && slots[1..][j] == slots[j + 1];
      case None =>
        assert LastWith(fields, k) == (if k0 == k then Some(0) else None);
    }
  }

  /** The pairs `(getFieldName(f), marshal(value))`, one per field, in field order. */
  function FieldPairs(fields: seq<FieldDesc>, slots: seq<Value>): (r: Entries)
    requires |fields| == |slots|
    requires forall i :: 0 <= i < |slots| ==> Shaped(slots[i]) && Marshal(slots[i]).Ok?
    ensures |r| == |fields|
    ensures forall i :: 0 <= i < |fields| ==> r[i] == (FieldName(fields[i]), Marshal(slots[i]).value)
  {
    if slots == [] then []
    else
      assert forall i :: 0 <= i < |slots[1..]| ==> slots[1..][i] == slots[i + 1];
      [(FieldName(fields[0]), Marshal(slots[0]).value)] + FieldPairs(fields[1..], slots[1..])
  }

  /**
   * With distinct wire names, the map is exactly one entry per field, in
   * field-declaration order, after whatever `acc` held.
   */
  lemma {:induction false} MarshalFieldsInOrder(fields: seq<FieldDesc>, slots: seq<Value>, acc: Entries)
    requires |fields| == |slots|
    requires forall i :: 0 <= i < |slots| ==> Shaped(slots[i]) && Marshal(slots[i]).Ok?
    requires DistinctNames(fields)
    requires forall i :: 0 <= i < |fields| ==> FieldName(fields[i]) !in Keys(acc)
    ensures MarshalFields(fields, slots, acc) == Ok(acc + FieldPairs(fields, slots))
  {
    if slots != [] {
      var acc' := MarshalStep(fields, slots, acc);
      assert forall i :: 0 <= i < |slots[1..]| ==> slots[1..][i] == slots[i + 1];
      MarshalFieldsInOrder(fields[1..], slots[1..], acc');
      AppendAssoc(acc, [(FieldName(fields[0]), Marshal(slots[0]).value)], FieldPairs(fields[1..], slots[1..]));
    } else {
      assert acc + [] == acc;
    }
  }

  /** One step of the fold with a fresh wire name appends the pair, and the remaining names are still fresh. */
  lemma MarshalStep(fields: seq<FieldDesc>, slots: seq<Value>, acc: Entries) returns (acc': Entries)
    requires 0 < |fields| == |slots|
    requires Shaped(slots[0]) && Marshal(slots[0]).Ok?
    requires DistinctNames(fields)
    requires forall i :: 0 <= i < |fields| ==> FieldName(fields[i]) !in Keys(acc)
    ensures acc' == Put(acc, FieldName(fields[0]), Marshal(slots[0]).value)
    ensures acc' == acc + [(FieldName(fields[0]), Marshal(slots[0]).value)]
    ensures DistinctNames(fields[1..])
    ensures forall i :: 0 <= i < |fields[1..]| ==> FieldName(fields[1..][i]) !in Keys(acc')
  {
    var k0 := FieldName(fields[0]);
    var b := Marshal(slots[0]).value;
    KeyIndexFound(acc, k0);
    acc' := Put(acc, k0, b);
    PutAbsentKeys(acc, k0, b);
    forall i | 0 <= i < |fields[1..]| ensures FieldName(fields[1..][i]) !in Keys(acc') {
      assert fields[1..][i] == fields[i + 1];
    }
  }

  /**
   * An object whose fields have distinct wire names marshals to one entry per
   * field, in field-declaration order (not sorted by key).
   */
  lemma MarshalObjectInOrder(c: ClassDesc, slots: seq<Value>)
    requires Shaped(VObject(c, slots)) && DistinctNames(AllFields(c))
    requires forall i :: 0 <= i < |slots| ==> Marshal(slots[i]).Ok?
    ensures Marshal(VObject(c, slots)).Ok? && Marshal(VObject(c, slots)).value.BDict?
    ensures |Marshal(VObject(c, slots)).value.entries| == |AllFields(c)|
    ensures forall i :: 0 <= i < |slots| ==>
      Marshal(VObject(c, slots)).value.entries[i] == (FieldName(AllFields(c)[i]), Marshal(slots[i]).value)
  {
    MarshalFieldsInOrder(AllFields(c), slots, []);
  }

  /**
   * An object marshals to a dictionary with unique keys in which every wire
   * name of its class maps to the marshalled value of the last field carrying
   * it, and which has no other keys.
   */
  lemma MarshalObject(c: ClassDesc, slots: seq<Value>)
    requires Shaped(VObject(c, slots)) && NullFree(VObject(c, slots))
    ensures forall i :: 0 <= i < |slots| ==> Marshal(slots[i]).Ok?
    ensures Marshal(VObject(c, slots)).Ok? && Marshal(VObject(c, slots)).value.BDict?
    ensures KeysUnique(Marshal(VObject(c, slots)).value.entries)
    ensures forall k ::
              Lookup(Marshal(VObject(c, slots)).value.entries, k) ==
                (match LastWith(AllFields(c), k)
                 case Some(j) => Some(Marshal(slots[j]).value)
                 case None => None)
  {
    forall i | 0 <= i < |slots| ensures Marshal(slots[i]).Ok? {
      MarshalOkIffNullFree(slots[i]);
    }
    MarshalFieldsLookup(AllFields(c), slots, [], []);
    forall k ensures Lookup(MarshalFields(AllFields(c), slots, []).value, k) ==
      (match LastWith(AllFields(c), k)
       case Some(j) => Some(Marshal(slots[j]).value)
       case None => None)
    {
      MarshalFieldsLookup(AllFields(c), slots, [], k);
    }
  }
}
