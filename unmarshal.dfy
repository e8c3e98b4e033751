/**
 * Unmarshal.kt: a Bencode tree to a value of a requested class. The kind of
 * the tree picks the branch whatever the target; a dictionary builds an
 * instance through the primary constructor, whose every parameter must find
 * its wire name among the keys, and then assigns every field whose wire name
 * is present.
 */
module Unmarshalling {
  import opened Wrappers
  import opened Bytes
  import opened BObjects
  import opened Descriptors

  /**
   * The exceptions: "Class must have a primary constructor", "Constructor
   * parameter must have a name", "Missing value for parameter ...", and the
   * IllegalArgumentException reflection throws when `callBy` or `Field.set`
   * is handed a value of the wrong class.
   */
  datatype UnmarshalError =
    | NoPrimaryConstructor
    | UnnamedParameter
    | MissingValue(name: seq<byte>)
    | ArgumentTypeMismatch

  /** `unmarshalString`: the bytes themselves for a `ByteArray` target, a string of them otherwise. */
  function UnmarshalString(c: ClassDesc, b: seq<byte>): (r: Value)
    ensures r.VBytes? <==> c == ByteArrayClass
    ensures r == VBytes(b) || r == VString(b)
  {
    if c == ByteArrayClass then VBytes(b) else VString(b)
  }

  /**
   * `unmarshalInt`: `toInt()` for a target that is the primitive `int`, the
   * `Long` itself for any other, the boxed `Integer` included. The `Int` is
   * the low 32 bits, equal to `n` when `n` fits.
   */
  function UnmarshalInt(c: ClassDesc, n: int): (r: Value)
    ensures r.VInt? <==> c == IntClass
    ensures r.VInt? ==> IsInt(r.i) && (n - r.i) % 0x1_0000_0000 == 0 && (IsInt(n) ==> r.i == n)
    ensures !r.VInt? ==> r == VLong(n)
  {
    if c == IntClass then VInt(ToInt(n)) else VLong(n)
  }

  /**
   * `unmarshalInt` as its documentation describes it: an `Int` target,
   * primitive or boxed, gets `toInt()`; any other target the `Long` itself.
   */
  function UnmarshalIntIntended(c: ClassDesc, n: int): (r: Value)
    ensures r.VInt? <==> c == IntClass || c == IntegerClass
    ensures r.VInt? ==> IsInt(r.i) && (n - r.i) % 0x1_0000_0000 == 0 && (IsInt(n) ==> r.i == n)
    ensures !r.VInt? ==> r == VLong(n)
  {
    if c == IntClass || c == IntegerClass then VInt(ToInt(n)) else VLong(n)
  }

  /**
   * `getFieldTargetType`: a list field decodes against its innermost element
   * class, which for a generic type the JVM reports is never the primitive
   * `int`; any other field against its own class.
   */
  function FieldTargetType(f: FieldDesc): (r: ClassDesc)
    ensures !IsListType(f.cls) ==> r == f.cls
    ensures IsListType(f.cls) && ArgsBoxed(f.generic) && !f.generic.Plain? ==> r != IntClass
  {
    ExtractNestedBoxed(f.generic);
    if IsListType(f.cls) then ExtractNestedType(f.generic) else f.cls
  }

  /**
   * Whether reflection (`callBy`, `Field.set`) accepts `v` where class `c` is
   * declared: the matching kind, and for a user class an instance of it or of
   * a subclass. Generic element types are erased, so any list fits a list.
   */
  predicate Assignable(v: Value, c: ClassDesc) {
    match c
    case StringClass => v.VString?
    case ByteArrayClass => v.VBytes?
    case IntClass => v.VInt?
    case IntegerClass => v.VInt?
    case LongClass => v.VLong?
    case ListClass => v.VList?
    case RecordClass(_, _, _, _) => v.VObject? && c in Chain(v.cls)
  }

  /** `fields.find { it.name == name }` */
  function FieldNamed(fields: seq<FieldDesc>, name: seq<byte>): (r: Option<nat>)
    ensures r.Some? ==> r.value < |fields| && fields[r.value].name == name
    ensures r.Some? ==> forall j :: 0 <= j < r.value ==> fields[j].name != name
    ensures r.None? ==> forall j :: 0 <= j < |fields| ==> fields[j].name != name
  {
    if fields == [] then None
    else if fields[0].name == name then Some(0)
    else match FieldNamed(fields[1..], name)
      case None => None
      case Some(j) => Some(j + 1)
  }

  /** The first constructor parameter called `name`. */
  function ParamNamed(params: seq<Param>, name: seq<byte>): (r: Option<nat>)
    ensures r.Some? ==> r.value < |params| && params[r.value].name == Some(name)
    ensures r.None? ==> forall k :: 0 <= k < |params| ==> params[k].name != Some(name)
  {
    if params == [] then None
    else if params[0].name == Some(name) then Some(0)
    else match ParamNamed(params[1..], name)
      case None => None
      case Some(k) => Some(k + 1)
  }

  /**
   * The key a constructor parameter is looked up under: the `@BencodeName` of
   * the field with the parameter's name, else the parameter's name; a
   * parameter without a name fails.
   */
  function ParamWireName(p: Param, fields: seq<FieldDesc>): (r: Result<seq<byte>, UnmarshalError>)
    ensures p.name.None? <==> r == Err(UnnamedParameter)
    ensures p.name.Some? && FieldNamed(fields, p.name.value).Some? ==>
      r == Ok(FieldName(fields[FieldNamed(fields, p.name.value).value]))
    ensures p.name.Some? && FieldNamed(fields, p.name.value).None? ==> r == Ok(p.name.value)
  {
    match p.name
    case None => Err(UnnamedParameter)
    case Some(n) =>
      match FieldNamed(fields, n)
      case Some(i) => Ok(fields[i].annotation.GetOr(n))
      case None => Ok(n)
  }

  /**
   * The instance `callBy` leaves: a field that is the first one named after a
   * constructor parameter holds that parameter's argument; every other field
   * holds its initial value.
   */
  function InitialSlots(fields: seq<FieldDesc>, params: seq<Param>, args: seq<Value>): (r: seq<Value>)
    requires |args| == |params|
    ensures |r| == |fields|
  {
    seq(|fields|, i requires 0 <= i < |fields| =>
      match ParamNamed(params, fields[i].name)
      case Some(k) => if FieldNamed(fields, fields[i].name) == Some(i) then args[k] else fields[i].initial
      case None => fields[i].initial)
  }

  /** `callBy`'s check: each argument fits its parameter's class. */
  predicate ArgsAccepted(params: seq<Param>, args: seq<Value>)
    requires |args| == |params|
  {
    forall k :: 0 <= k < |params| ==> Assignable(args[k], params[k].cls)
  }

  /**
   * `unmarshal`: the kind of the tree picks the branch. Byte strings and
   * integers always decode, to a string or byte array and to an `Int` or
   * `Long`; a list decodes to a list of the same length; a dictionary to an
   * instance of the target class with one slot per field. No null comes out.
   */
  function Unmarshal(c: ClassDesc, t: BObject): (r: Result<Value, UnmarshalError>)
    ensures t.BStr? ==> r.Ok? && (r.value.VString? || r.value.VBytes?)
    ensures t.BInt? ==> r.Ok? && (r.value.VInt? || r.value.VLong?)
    ensures t.BList? && r.Ok? ==> r.value.VList? && |r.value.elems| == |t.items|
    ensures t.BDict? && r.Ok? ==> r.value.VObject? && r.value.cls == c && |r.value.slots| == |AllFields(c)|
    decreases t, 3, 0
  {
    match t
    case BStr(b) => Ok(UnmarshalString(c, b))
    case BInt(n) => Ok(UnmarshalInt(c, n))
    case BList(items) => UnmarshalList(c, items)
    case BDict(entries) => DictValue(c, entries)
  }

  /** `unmarshalList`: the empty list, or every element decoded against the same class. */
  function UnmarshalList(c: ClassDesc, items: seq<BObject>): (r: Result<Value, UnmarshalError>)
    ensures r.Ok? ==> r.value.VList? && |r.value.elems| == |items|
    decreases items, 2, 0
  {
    if items == [] then Ok(VList([]))
    else
      var xs :- UnmarshalItems(c, items);
      Ok(VList(xs))
  }

  /** `list.map { unmarshal(clazz, it) }`, stopping at the first failure. */
  function UnmarshalItems(c: ClassDesc, items: seq<BObject>): (r: Result<seq<Value>, UnmarshalError>)
    ensures r.Ok? ==> |r.value| == |items|
    decreases items, 1, 0
  {
    if items == [] then Ok([])
    else
      var head :- Unmarshal(c, items[0]);
      var tail :- UnmarshalItems(c, items[1..]);
      Ok([head] + tail)
  }

  /** `unmarshalDict`: construct, then assign the fields found in the dictionary. */
  function DictValue(c: ClassDesc, dict: Entries): (r: Result<Value, UnmarshalError>)
    ensures !(c.RecordClass? && c.ctor.Some?) ==> r == Err(NoPrimaryConstructor)
    ensures r.Ok? ==> r.value.VObject? && r.value.cls == c && |r.value.slots| == |AllFields(c)|
    decreases dict, 2, 0
  {
    var fields := AllFields(c);
    var slots :- ConstructedInstance(c, fields, dict);
    var filled :- AssignFields(fields, dict, slots, 0);
    Ok(VObject(c, filled))
  }

  /** `createInstance`: the primary constructor called with one argument per parameter. */
  function ConstructedInstance(c: ClassDesc, fields: seq<FieldDesc>, dict: Entries): (r: Result<seq<Value>, UnmarshalError>)
    ensures r.Ok? ==> |r.value| == |fields|
    ensures r.Ok? ==> c.RecordClass? && c.ctor.Some? && CtorArgs(c.ctor.value, fields, dict).Ok?
    decreases dict, 1, 0
  {
    match c
    case RecordClass(_, _, _, Some(params)) =>
      var args :- CtorArgs(params, fields, dict);
      if ArgsAccepted(params, args) then Ok(InitialSlots(fields, params, args)) else Err(ArgumentTypeMismatch)
    case _ => Err(NoPrimaryConstructor)
  }

  /** `parameters.associateWith { ... }`, parameter by parameter, stopping at the first failure. */
  function CtorArgs(params: seq<Param>, fields: seq<FieldDesc>, dict: Entries): (r: Result<seq<Value>, UnmarshalError>)
    ensures r.Ok? ==> |r.value| == |params|
    ensures r.Ok? ==> forall k :: 0 <= k < |params| ==> params[k].name.Some?
    decreases dict, 0, |params|
  {
    if params == [] then Ok([])
    else
      var arg :- ArgFor(params[0], fields, dict);
      var rest :- CtorArgs(params[1..], fields, dict);
      Ok([arg] + rest)
  }

  /**
   * One parameter's argument: its wire name must be a key; a list-typed
   * parameter gets an empty list (the field is filled afterwards), any other
   * the value decoded against the parameter's class.
   */
  function ArgFor(p: Param, fields: seq<FieldDesc>, dict: Entries): (r: Result<Value, UnmarshalError>)
    ensures p.name.None? ==> r == Err(UnnamedParameter)
    ensures r.Ok? ==> ParamWireName(p, fields).Ok? && ParamWireName(p, fields).value in Keys(dict)
    ensures r.Ok? && IsListType(p.cls) ==> r.value == VList([])
    decreases dict, 0, 0
  {
    var wire :- ParamWireName(p, fields);
    KeyIndexFound(dict, wire);
    match KeyIndex(dict, wire)
    case None => Err(MissingValue(wire))
    case Some(j) =>
      assert dict[j].1 < dict[j];
      if IsListType(p.cls) then Ok(VList([])) else Unmarshal(p.cls, dict[j].1)
  }

  /** The `forEach` over the fields from index `i` on, each assigned into `slots`. */
  function AssignFields(fields: seq<FieldDesc>, dict: Entries, slots: seq<Value>, i: nat): (r: Result<seq<Value>, UnmarshalError>)
    requires |slots| == |fields| && i <= |fields|
    ensures r.Ok? ==> |r.value| == |fields|
    ensures r.Ok? ==> forall m :: i <= m < |fields| ==> FieldValue(fields[m], dict).Ok?
    decreases dict, 0, |fields| - i
  {
    if i == |fields| then Ok(slots)
    else
      var found :- FieldValue(fields[i], dict);
      match found
      case None => AssignFields(fields, dict, slots, i + 1)
      case Some(v) => AssignFields(fields, dict, slots[i := v], i + 1)
  }

  /**
   * One field's step: nothing when its wire name is absent (`?: return@forEach`),
   * otherwise the value decoded against `getFieldTargetType`, which `field.set`
   * must accept.
   */
  function FieldValue(f: FieldDesc, dict: Entries): (r: Result<Option<Value>, UnmarshalError>)
    ensures r == Ok(None) <==> FieldName(f) !in Keys(dict)
    ensures r.Ok? && r.value.Some? ==> Assignable(r.value.value, f.cls)
    decreases dict, 0, 0
  {
    KeyIndexFound(dict, FieldName(f));
    match KeyIndex(dict, FieldName(f))
    case None => Ok(None)
    case Some(j) =>
      assert dict[j].1 < dict[j];
      var v :- Unmarshal(FieldTargetType(f), dict[j].1);
      if Assignable(v, f.cls) then Ok(Some(v)) else Err(ArgumentTypeMismatch)
  }

  /**
   * `unmarshal` with `unmarshalInt` as its documentation describes it: a
   * boxed `Integer` target gets `toInt()` too. Strings, lists and
   * dictionaries decode as the library does, so the two decoders differ only
   * where the target is `Integer`.
   */
  function UnmarshalIntended(c: ClassDesc, t: BObject): (r: Result<Value, UnmarshalError>)
    ensures t.BInt? ==> r == Ok(UnmarshalIntIntended(c, t.n))
    ensures t.BList? && r.Ok? ==> r.value.VList? && |r.value.elems| == |t.items|
    ensures c != IntegerClass ==> r == Unmarshal(c, t)
    decreases t, 1
  {
    match t
    case BStr(b) => Ok(UnmarshalString(c, b))
    case BInt(n) => Ok(UnmarshalIntIntended(c, n))
    case BList(items) =>
      if items == [] then Ok(VList([]))
      else
        var xs :- UnmarshalItemsIntended(c, items);
        Ok(VList(xs))
    case BDict(entries) => DictValue(c, entries)
  }

  /** The element-wise `map` of `UnmarshalIntended`, stopping at the first failure. */
  function UnmarshalItemsIntended(c: ClassDesc, items: seq<BObject>): (r: Result<seq<Value>, UnmarshalError>)
    ensures r.Ok? ==> |r.value| == |items|
    ensures c != IntegerClass ==> r == UnmarshalItems(c, items)
    decreases items, 0
  {
    if items == [] then Ok([])
    else
      var head :- UnmarshalIntended(c, items[0]);
      var tail :- UnmarshalItemsIntended(c, items[1..]);
      Ok([head] + tail)
  }

  /** A field's step of the `forEach` in `unmarshalDict`, decoding with `UnmarshalIntended`. */
  function FieldValueIntended(f: FieldDesc, dict: Entries): (r: Result<Option<Value>, UnmarshalError>)
    ensures r == Ok(None) <==> FieldName(f) !in Keys(dict)
    ensures r.Ok? && r.value.Some? ==> Assignable(r.value.value, f.cls)
    ensures FieldTargetType(f) != IntegerClass ==> r == FieldValue(f, dict)
  {
    KeyIndexFound(dict, FieldName(f));
    match KeyIndex(dict, FieldName(f))
    case None => Ok(None)
    case Some(j) =>
      var v :- UnmarshalIntended(FieldTargetType(f), dict[j].1);
      if Assignable(v, f.cls) then Ok(Some(v)) else Err(ArgumentTypeMismatch)
  }

  /** `args` in front of the remaining arguments, or the error that stopped them. */
  function Prefixed(args: seq<Value>, r: Result<seq<Value>, UnmarshalError>): Result<seq<Value>, UnmarshalError> {
    match r
    case Ok(rest) => Ok(args + rest)
    case Err(e) => Err(e)
  }

  /** `createInstance` as Unmarshal.kt runs it: the arguments built in a loop over the parameters, then `callBy`. */
  method CreateInstance(c: ClassDesc, fields: seq<FieldDesc>, dict: Entries) returns (r: Result<seq<Value>, UnmarshalError>)
    ensures r == ConstructedInstance(c, fields, dict)
  {
    if !(c.RecordClass? && c.ctor.Some?) {
      return Err(NoPrimaryConstructor);
    }
    var params := c.ctor.value;
    var args := CollectArgs(params, fields, dict);
    if args.Err? {
      return Err(args.error);
    }
    if ArgsAccepted(params, args.value) {
      r := Ok(InitialSlots(fields, params, args.value));
    } else {
      r := Err(ArgumentTypeMismatch);
    }
  }

  /** `parameters.associateWith { ... }` as a loop over the parameters, stopping at the first exception. */
  method CollectArgs(params: seq<Param>, fields: seq<FieldDesc>, dict: Entries) returns (r: Result<seq<Value>, UnmarshalError>)
    ensures r == CtorArgs(params, fields, dict)
  {
    var args: seq<Value> := [];
    var k := 0;
    assert params[k..] == params;
    if CtorArgs(params, fields, dict).Ok? {
      assert args + CtorArgs(params, fields, dict).value == CtorArgs(params, fields, dict).value;
    }
    while k < |params|
      invariant 0 <= k <= |params| && |args| == k
      invariant CtorArgs(params, fields, dict) == Prefixed(args, CtorArgs(params[k..], fields, dict))
    {
      var step := ArgumentFor(params[k], fields, dict);
      ArgsStep(params, fields, dict, k, args);
      if step.Err? {
        return Err(step.error);
      }
      args := args + [step.value];
      k := k + 1;
    }
    assert params[k..] == [] && args + [] == args;
    r := Ok(args);
  }

  /** The body of `associateWith`: one parameter's argument, or the exception it throws. */
  method ArgumentFor(p: Param, fields: seq<FieldDesc>, dict: Entries) returns (step: Result<Value, UnmarshalError>)
    ensures step == ArgFor(p, fields, dict)
  {
    var wire := ParamWireName(p, fields);
    if wire.Err? {
      return Err(wire.error);
    }
    match KeyIndex(dict, wire.value) {
      case None =>
        step := Err(MissingValue(wire.value));
      case Some(j) =>
        if IsListType(p.cls) {
          step := Ok(VList([]));
        } else {
          step := Unmarshal(p.cls, dict[j].1);
        }
    }
  }

  /** One parameter further: its argument joins the prefix, or its error is the result. */
  lemma ArgsStep(params: seq<Param>, fields: seq<FieldDesc>, dict: Entries, k: nat, args: seq<Value>)
    requires k < |params|
    requires CtorArgs(params, fields, dict) == Prefixed(args, CtorArgs(params[k..], fields, dict))
    ensures ArgFor(params[k], fields, dict).Err? ==> CtorArgs(params, fields, dict) == Err(ArgFor(params[k], fields, dict).error)
    ensures ArgFor(params[k], fields, dict).Ok? ==>
      CtorArgs(params, fields, dict) == Prefixed(args + [ArgFor(params[k], fields, dict).value], CtorArgs(params[k + 1..], fields, dict))
  {
    assert params[k..][0] == params[k] && params[k..][1..] == params[k + 1..];
    if ArgFor(params[k], fields, dict).Ok? && CtorArgs(params[k + 1..], fields, dict).Ok? {
      AppendAssoc(args, [ArgFor(params[k], fields, dict).value], CtorArgs(params[k + 1..], fields, dict).value);
    }
  }

  /**
   * `unmarshalDict` as Unmarshal.kt runs it: collect the fields, create the
   * instance, then set each field whose wire name is present, in field order.
   */
  method UnmarshalDict(c: ClassDesc, dict: Entries) returns (r: Result<Value, UnmarshalError>)
    ensures r == DictValue(c, dict)
  {
    var fields := GetAllFields(c);
    var instance := CreateInstance(c, fields, dict);
    if instance.Err? {
      return Err(instance.error);
    }
    var slots := instance.value;
    var i := 0;
    while i < |fields|
      invariant 0 <= i <= |fields| && |slots| == |fields|
      invariant AssignFields(fields, dict, slots, i) == AssignFields(fields, dict, instance.value, 0)
    {
      match KeyIndex(dict, FieldName(fields[i])) {
        case None =>
        case Some(j) =>
          var decoded := Unmarshal(FieldTargetType(fields[i]), dict[j].1);
          if decoded.Err? {
            return Err(decoded.error);
          }
          if !Assignable(decoded.value, fields[i].cls) {
            return Err(ArgumentTypeMismatch);
          }
          slots := slots[i := decoded.value];
      }
      i := i + 1;
    }
    r := Ok(VObject(c, slots));
  }
  /**
   * A field declared `List<List<...<C>>>` (with or without `out`) decodes its
   * elements against `C`; any other field against its own class.
   */
  lemma FieldTargetLeaf(f: FieldDesc, n: nat, c: ClassDesc)
    ensures !IsListType(f.cls) ==> FieldTargetType(f) == f.cls
    ensures IsListType(f.cls) && f.generic == NestedList(n, Plain(c)) ==> FieldTargetType(f) == c
    ensures IsListType(f.cls) && f.generic == NestedList(n, Wildcard(Plain(c), [])) ==> FieldTargetType(f) == c
  {
    NestedListLeaf(n, c);
  }

  /**
   * A byte string never fails, whatever the target: its bytes for `ByteArray`,
   * a string of the same bytes otherwise. An integer never fails either: an
   * `Int` target gets a 32-bit value congruent to it (equal when it fits),
   * any other target the `Long` unchanged.
   */
  lemma UnmarshalScalars(c: ClassDesc, t: BObject)
    ensures t.BStr? ==> Unmarshal(c, t).Ok?
    ensures t.BStr? && c == ByteArrayClass ==> Unmarshal(c, t).value == VBytes(t.bytes)
    ensures t.BStr? && c != ByteArrayClass ==> Unmarshal(c, t).value == VString(t.bytes)
    ensures t.BInt? ==> Unmarshal(c, t).Ok?
    ensures t.BInt? && c == IntClass ==>
      && Unmarshal(c, t).value.VInt?
      && IsInt(Unmarshal(c, t).value.i)
      && (t.n - Unmarshal(c, t).value.i) % 0x1_0000_0000 == 0
      && (IsInt(t.n) ==> Unmarshal(c, t).value.i == t.n)
    ensures t.BInt? && c != IntClass ==> Unmarshal(c, t).value == VLong(t.n)
  {
  }

  /** The element-wise map succeeds exactly when every element decodes, keeping length and order. */
  lemma {:induction false} UnmarshalItemsSpec(c: ClassDesc, items: seq<BObject>)
    ensures UnmarshalItems(c, items).Ok? <==> forall i :: 0 <= i < |items| ==> Unmarshal(c, items[i]).Ok?
    ensures UnmarshalItems(c, items).Ok? ==>
      && |UnmarshalItems(c, items).value| == |items|
      && forall i :: 0 <= i < |items| ==> Unmarshal(c, items[i]) == Ok(UnmarshalItems(c, items).value[i])
  {
    if items != [] {
      UnmarshalItemsSpec(c, items[1..]);
      assert forall i :: 1 <= i < |items| ==> items[i] == items[1..][i - 1];
    }
  }

  /**
   * A list decodes element by element against the same class at every
   * nesting level: it succeeds exactly when every element does, and keeps
   * length and order (so `le` gives the empty list).
   */
  lemma UnmarshalListSpec(c: ClassDesc, items: seq<BObject>)
    ensures Unmarshal(c, BList(items)).Ok? <==> forall i :: 0 <= i < |items| ==> Unmarshal(c, items[i]).Ok?
    ensures Unmarshal(c, BList(items)).Ok? ==>
      && Unmarshal(c, BList(items)).value.VList?
      && |Unmarshal(c, BList(items)).value.elems| == |items|
      && forall i :: 0 <= i < |items| ==> Unmarshal(c, items[i]) == Ok(Unmarshal(c, BList(items)).value.elems[i])
  {
    UnmarshalItemsSpec(c, items);
  }

  /** A dictionary cannot become a class without a primary constructor (nor a built-in class). */
  lemma NoConstructorFails(c: ClassDesc, dict: Entries)
    requires !(c.RecordClass? && c.ctor.Some?)
    ensures Unmarshal(c, BDict(dict)) == Err(NoPrimaryConstructor)
  {
    assert ConstructedInstance(c, AllFields(c), dict) == Err(NoPrimaryConstructor);
  }

  /**
   * One parameter: unnamed fails, a wire name that is not a key fails with
   * "Missing value", a list parameter gets the empty list, and any other the
   * value under that key decoded against its class.
   */
  lemma ArgForSpec(p: Param, fields: seq<FieldDesc>, dict: Entries)
    ensures ParamWireName(p, fields).Err? ==> ArgFor(p, fields, dict) == Err(UnnamedParameter)
    ensures ParamWireName(p, fields).Ok? ==>
      ArgFor(p, fields, dict) ==
        match Lookup(dict, ParamWireName(p, fields).value)
        case None => Err(MissingValue(ParamWireName(p, fields).value))
        case Some(t) => if IsListType(p.cls) then Ok(VList([])) else Unmarshal(p.cls, t)
    ensures ParamWireName(p, fields).Ok? ==>
      (Lookup(dict, ParamWireName(p, fields).value).None? <==> ParamWireName(p, fields).value !in Keys(dict))
  {
    if ParamWireName(p, fields).Ok? {
      KeyIndexFound(dict, ParamWireName(p, fields).value);
    }
  }

  /**
   * The arguments succeed exactly when every parameter's does, and are then
   * those arguments in parameter order.
   */
  lemma {:induction false} CtorArgsSpec(params: seq<Param>, fields: seq<FieldDesc>, dict: Entries)
    ensures CtorArgs(params, fields, dict).Ok? <==> forall k :: 0 <= k < |params| ==> ArgFor(params[k], fields, dict).Ok?
    ensures CtorArgs(params, fields, dict).Ok? ==>
      forall k :: 0 <= k < |params| ==> ArgFor(params[k], fields, dict) == Ok(CtorArgs(params, fields, dict).value[k])
  {
    if params != [] {
      var rest := params[1..];
      var first := ArgFor(params[0], fields, dict);
      CtorArgsSpec(rest, fields, dict);
      assert forall k :: 1 <= k < |params| ==> params[k] == rest[k - 1];
      if first.Ok? && CtorArgs(rest, fields, dict).Ok? {
        assert CtorArgs(params, fields, dict).value == [first.value] + CtorArgs(rest, fields, dict).value;
      }
    }
  }

  /** When the arguments fail, the error is that of the first parameter whose argument fails. */
  lemma {:induction false} CtorArgsFirstError(params: seq<Param>, fields: seq<FieldDesc>, dict: Entries)
    ensures CtorArgs(params, fields, dict).Err? ==>
      exists k :: 0 <= k < |params| && ArgFor(params[k], fields, dict).Err?
        && CtorArgs(params, fields, dict).error == ArgFor(params[k], fields, dict).error
        && forall m :: 0 <= m < k ==> ArgFor(params[m], fields, dict).Ok?
  {
    if params != [] {
      var rest := params[1..];
      var first := ArgFor(params[0], fields, dict);
      if first.Err? {
        assert CtorArgs(params, fields, dict) == Err(first.error);
      } else if CtorArgs(rest, fields, dict).Err? {
        CtorArgsFirstError(rest, fields, dict);
        var k :| 0 <= k < |rest| && ArgFor(rest[k], fields, dict).Err?
          && CtorArgs(rest, fields, dict).error == ArgFor(rest[k], fields, dict).error
          && forall m :: 0 <= m < k ==> ArgFor(rest[m], fields, dict).Ok?;
        assert forall m :: 1 <= m < |params| ==> params[m] == rest[m - 1];
        assert CtorArgs(params, fields, dict) == CtorArgs(rest, fields, dict);
        assert ArgFor(params[k + 1], fields, dict).Err?;
      }
    }
  }

  /**
   * Every primary-constructor parameter must be named and find its wire name
   * among the keys: a dictionary decodes only if it does.
   */
  lemma RequiredParameters(c: ClassDesc, dict: Entries)
    requires c.RecordClass? && c.ctor.Some?
    ensures Unmarshal(c, BDict(dict)).Ok? ==>
      forall k :: 0 <= k < |c.ctor.value| ==>
        && ParamWireName(c.ctor.value[k], AllFields(c)).Ok?
        && ParamWireName(c.ctor.value[k], AllFields(c)).value in Keys(dict)
  {
    var params := c.ctor.value;
    if Unmarshal(c, BDict(dict)).Ok? {
      DictValueUnfold(c, dict);
    }
    CtorArgsSpec(params, AllFields(c), dict);
    forall k | 0 <= k < |params| && CtorArgs(params, AllFields(c), dict).Ok?
      ensures ParamWireName(params[k], AllFields(c)).Ok? && ParamWireName(params[k], AllFields(c)).value in Keys(dict)
    {
      ArgForSpec(params[k], AllFields(c), dict);
    }
  }

  /**
   * One field: absent from the dictionary it is skipped; present, its value
   * is decoded against the field's target type and must fit the field.
   */
  lemma FieldValueSpec(f: FieldDesc, dict: Entries)
    ensures FieldValue(f, dict) == Ok(None) <==> FieldName(f) !in Keys(dict)
    ensures FieldName(f) in Keys(dict) ==>
      && Lookup(dict, FieldName(f)).Some?
      && FieldValue(f, dict) ==
           match Unmarshal(FieldTargetType(f), Lookup(dict, FieldName(f)).value)
           case Err(e) => Err(e)
           case Ok(v) => if Assignable(v, f.cls) then Ok(Some(v)) else Err(ArgumentTypeMismatch)
  {
    KeyIndexFound(dict, FieldName(f));
  }

  /**
   * The `forEach` from index `i` succeeds exactly when every remaining field's
   * step does; slots before `i` and slots of absent fields are untouched, and
   * every present field holds its decoded value.
   */
  lemma AssignFieldsSpec(fields: seq<FieldDesc>, dict: Entries, slots: seq<Value>, i: nat)
    requires |slots| == |fields| && i <= |fields|
    ensures AssignFields(fields, dict, slots, i).Ok? <==> forall m :: i <= m < |fields| ==> FieldValue(fields[m], dict).Ok?
    ensures AssignFields(fields, dict, slots, i).Ok? ==>
      forall m :: 0 <= m < |fields| ==>
        AssignFields(fields, dict, slots, i).value[m] ==
          if m < i || FieldValue(fields[m], dict).value.None? then slots[m] else FieldValue(fields[m], dict).value.value
  {
    AssignFieldsOk(fields, dict, slots, i);
    AssignFieldsValues(fields, dict, slots, i);
  }

  /** The `forEach` gets through when every remaining field's step does. */
  lemma {:induction false} AssignFieldsOk(fields: seq<FieldDesc>, dict: Entries, slots: seq<Value>, i: nat)
    requires |slots| == |fields| && i <= |fields|
    ensures (forall m :: i <= m < |fields| ==> FieldValue(fields[m], dict).Ok?) ==> AssignFields(fields, dict, slots, i).Ok?
    decreases |fields| - i
  {
    if i < |fields| && FieldValue(fields[i], dict).Ok? {
      match FieldValue(fields[i], dict).value
      case None => AssignFieldsOk(fields, dict, slots, i + 1);
      case Some(v) => AssignFieldsOk(fields, dict, slots[i := v], i + 1);
    }
  }

  /** What each slot holds after the `forEach` from index `i`. */
  lemma {:induction false} AssignFieldsValues(fields: seq<FieldDesc>, dict: Entries, slots: seq<Value>, i: nat)
    requires |slots| == |fields| && i <= |fields|
    ensures AssignFields(fields, dict, slots, i).Ok? ==>
      forall m :: 0 <= m < |fields| ==>
        AssignFields(fields, dict, slots, i).value[m] ==
          if m < i || FieldValue(fields[m], dict).value.None? then slots[m] else FieldValue(fields[m], dict).value.value
    decreases |fields| - i
  {
    if i < |fields| && FieldValue(fields[i], dict).Ok? {
      var s' := match FieldValue(fields[i], dict).value
        case None => slots
        case Some(v) => slots[i := v];
      assert AssignFields(fields, dict, slots, i) == AssignFields(fields, dict, s', i + 1);
      AssignFieldsValues(fields, dict, s', i + 1);
      assert forall m :: 0 <= m < |fields| && m != i ==> s'[m] == slots[m];
    }
  }

  /**
   * A decoded instance: its class is the target, every field whose wire name
   * is a key holds the value under that key decoded against its target type,
   * and every other field keeps what the constructor left in it.
   */
  lemma DictFields(c: ClassDesc, dict: Entries)
    requires Unmarshal(c, BDict(dict)).Ok?
    ensures ConstructedInstance(c, AllFields(c), dict).Ok?
    ensures Unmarshal(c, BDict(dict)).value.VObject? && Unmarshal(c, BDict(dict)).value.cls == c
    ensures |Unmarshal(c, BDict(dict)).value.slots| == |AllFields(c)|
    ensures forall i :: 0 <= i < |AllFields(c)| && FieldName(AllFields(c)[i]) !in Keys(dict) ==>
      Unmarshal(c, BDict(dict)).value.slots[i] == ConstructedInstance(c, AllFields(c), dict).value[i]
    ensures forall i :: 0 <= i < |AllFields(c)| && FieldName(AllFields(c)[i]) in Keys(dict) ==>
      && Lookup(dict, FieldName(AllFields(c)[i])).Some?
      && Unmarshal(FieldTargetType(AllFields(c)[i]), Lookup(dict, FieldName(AllFields(c)[i])).value)
        == Ok(Unmarshal(c, BDict(dict)).value.slots[i])
  {
    var fields := AllFields(c);
    var slots := ConstructedInstance(c, fields, dict).value;
    DictValueUnfold(c, dict);
    AssignFieldsSpec(fields, dict, slots, 0);
    var r := AssignFields(fields, dict, slots, 0).value;
    forall i | 0 <= i < |fields| && FieldName(fields[i]) !in Keys(dict) ensures r[i] == slots[i] {
      FieldValueSpec(fields[i], dict);
    }
    forall i | 0 <= i < |fields| && FieldName(fields[i]) in Keys(dict)
      ensures Lookup(dict, FieldName(fields[i])).Some?
      ensures Unmarshal(FieldTargetType(fields[i]), Lookup(dict, FieldName(fields[i])).value) == Ok(r[i])
    {
      FieldValueSpec(fields[i], dict);
    }
  }

  /** What a successful dictionary decode is made of: a constructed instance, then the assigned fields. */
  lemma DictValueUnfold(c: ClassDesc, dict: Entries)
    requires Unmarshal(c, BDict(dict)).Ok?
    ensures c.RecordClass? && c.ctor.Some?
    ensures CtorArgs(c.ctor.value, AllFields(c), dict).Ok?
    ensures ConstructedInstance(c, AllFields(c), dict).Ok?
    ensures AssignFields(AllFields(c), dict, ConstructedInstance(c, AllFields(c), dict).value, 0).Ok?
    ensures Unmarshal(c, BDict(dict)) == Ok(VObject(c, AssignFields(AllFields(c), dict, ConstructedInstance(c, AllFields(c), dict).value, 0).value))
  {
    assert DictValue(c, dict).Ok?;
  }
  /**
   * An `Int?` property (class `Integer`) cannot be set from an integer: the
   * value decodes to a `Long`, which `Field.set` rejects.
   */
  lemma BoxedIntFieldRejected(f: FieldDesc, dict: Entries)
    requires f.cls == IntegerClass
    requires Lookup(dict, FieldName(f)).Some? && Lookup(dict, FieldName(f)).value.BInt?
    ensures FieldValue(f, dict) == Err(ArgumentTypeMismatch)
  {
    FieldValueByLookup(f, dict);
  }

  /** A field's step reads the dictionary only through the value under its wire name. */
  lemma FieldValueByLookup(f: FieldDesc, dict: Entries)
    ensures FieldValue(f, dict) ==
      match Lookup(dict, FieldName(f))
      case None => Ok(None)
      case Some(t) =>
        match Unmarshal(FieldTargetType(f), t)
        case Err(e) => Err(e)
        case Ok(v) => if Assignable(v, f.cls) then Ok(Some(v)) else Err(ArgumentTypeMismatch)
  {
  }

  lemma {:induction false} CtorArgsSameLookups(params: seq<Param>, fields: seq<FieldDesc>, d1: Entries, d2: Entries)
    requires forall k :: 0 <= k < |params| && ParamWireName(params[k], fields).Ok? ==>
      Lookup(d1, ParamWireName(params[k], fields).value) == Lookup(d2, ParamWireName(params[k], fields).value)
    ensures CtorArgs(params, fields, d1) == CtorArgs(params, fields, d2)
  {
    if params != [] {
      ArgForSpec(params[0], fields, d1);
      ArgForSpec(params[0], fields, d2);
      assert forall k :: 0 <= k < |params[1..]| ==> params[1..][k] == params[k + 1];
      CtorArgsSameLookups(params[1..], fields, d1, d2);
    }
  }

  lemma {:induction false} AssignFieldsSameLookups(fields: seq<FieldDesc>, d1: Entries, d2: Entries, slots: seq<Value>, i: nat)
    requires |slots| == |fields| && i <= |fields|
    requires forall m :: 0 <= m < |fields| ==> Lookup(d1, FieldName(fields[m])) == Lookup(d2, FieldName(fields[m]))
    ensures AssignFields(fields, d1, slots, i) == AssignFields(fields, d2, slots, i)
    decreases |fields| - i
  {
    if i < |fields| {
      FieldValueByLookup(fields[i], d1);
      FieldValueByLookup(fields[i], d2);
      if FieldValue(fields[i], d1).Ok? {
        match FieldValue(fields[i], d1).value
        case None => AssignFieldsSameLookups(fields, d1, d2, slots, i + 1);
        case Some(v) => AssignFieldsSameLookups(fields, d1, d2, slots[i := v], i + 1);
      }
    }
  }

  /**
   * Decoding a dictionary reads it only under the wire names of the class's
   * fields and constructor parameters: two dictionaries that agree there
   * decode alike, whatever other keys they hold and in whatever order.
   */
  lemma OnlyWireNamesRead(c: ClassDesc, d1: Entries, d2: Entries)
    requires forall i :: 0 <= i < |AllFields(c)| ==>
      Lookup(d1, FieldName(AllFields(c)[i])) == Lookup(d2, FieldName(AllFields(c)[i]))
    requires c.RecordClass? && c.ctor.Some? ==>
      forall k :: 0 <= k < |c.ctor.value| && ParamWireName(c.ctor.value[k], AllFields(c)).Ok? ==>
        Lookup(d1, ParamWireName(c.ctor.value[k], AllFields(c)).value) == Lookup(d2, ParamWireName(c.ctor.value[k], AllFields(c)).value)
    ensures Unmarshal(c, BDict(d1)) == Unmarshal(c, BDict(d2))
  {
    var fields := AllFields(c);
    if c.RecordClass? && c.ctor.Some? {
      CtorArgsSameLookups(c.ctor.value, fields, d1, d2);
      assert ConstructedInstance(c, fields, d1) == ConstructedInstance(c, fields, d2);
      if ConstructedInstance(c, fields, d1).Ok? {
        AssignFieldsSameLookups(fields, d1, d2, ConstructedInstance(c, fields, d1).value, 0);
      }
    } else {
      NoConstructorFails(c, d1);
      NoConstructorFails(c, d2);
    }
  }

  /** Adding a key that is no field's and no parameter's wire name changes nothing. */
  lemma ExtraKeyIgnored(c: ClassDesc, dict: Entries, k: seq<byte>, t: BObject)
    requires forall i :: 0 <= i < |AllFields(c)| ==> FieldName(AllFields(c)[i]) != k
    requires c.RecordClass? && c.ctor.Some? ==>
      forall m :: 0 <= m < |c.ctor.value| ==> ParamWireName(c.ctor.value[m], AllFields(c)) != Ok(k)
    ensures Unmarshal(c, BDict(Put(dict, k, t))) == Unmarshal(c, BDict(dict))
  {
    PutSpec(dict, k, t);
    OnlyWireNamesRead(c, Put(dict, k, t), dict);
  }
}
