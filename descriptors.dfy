/**
 * The reflection the object mapper relies on, made explicit: a class is a
 * descriptor listing its declared fields, its superclass and its primary
 * constructor; a field carries its JVM name, its optional `@BencodeName`, its
 * erased class and its generic type; a runtime value is a tree of strings,
 * byte arrays, numbers, lists and instances. Util.kt's helpers work on these.
 */
module Descriptors {
  import opened Wrappers
  import opened Bytes

  /**
   * The classes the mapper distinguishes: `String`, `ByteArray`, the
   * primitive `int`, the boxed `java.lang.Integer`, `Long`, the `List`
   * interface, and user classes. `IntClass` is the class of an `Int`
   * property or parameter; `IntegerClass` that of an `Int?` property and of
   * `Int` as a type argument, which the JVM always boxes. One `LongClass`
   * stands for both `long` and `java.lang.Long`, which the mapper treats
   * alike. A user class lists its
   * `declaredFields` in declaration order, its superclass (None once the chain
   * reaches `Any`, which declares no fields) and its primary constructor's
   * parameters, if it has one.
   */
  datatype ClassDesc =
    | StringClass
    | ByteArrayClass
    | IntClass
    | IntegerClass
    | LongClass
    | ListClass
    | RecordClass(name: seq<byte>, declared: seq<FieldDesc>, superclass: Option<ClassDesc>, ctor: Option<seq<Param>>)

  /**
   * The kinds of `java.lang.reflect.Type` modelled here: a plain class, a
   * parameterised type with at least one type argument, or a wildcard with
   * at least one upper bound. Type variables and generic array types are
   * not modelled.
   */
  datatype JType =
    | Plain(cls: ClassDesc)
    | Parameterized(raw: ClassDesc, arg0: JType, moreArgs: seq<JType>)
    | Wildcard(upper0: JType, moreUpper: seq<JType>)

  /**
   * A `java.lang.reflect.Field`: its name, the `@BencodeName` value if
   * annotated, its erased class (`field.type`), its `genericType`, and the
   * value its initialiser leaves in a new instance when no constructor
   * parameter sets it.
   */
  datatype FieldDesc = FieldDesc(name: seq<byte>, annotation: Option<seq<byte>>, cls: ClassDesc, generic: JType, initial: Value)

  /** A primary-constructor parameter: its name (absent when the compiler kept none) and its class. */
  datatype Param = Param(name: Option<seq<byte>>, cls: ClassDesc)

  /**
   * The runtime values the mapper meets. Strings and dictionary keys are
   * their UTF-8 bytes; `VInt` is a Kotlin `Int`, `VLong` a `Long`; an instance
   * holds one slot per entry of `AllFields` of its class, in that order.
   */
  datatype Value =
    | VNull
    | VString(text: seq<byte>)
    | VBytes(bytes: seq<byte>)
    | VInt(i: int)
    | VLong(l: int)
    | VList(elems: seq<Value>)
    | VObject(cls: ClassDesc, slots: seq<Value>)

  /** `List<t>` */
  function ListOf(t: JType): JType {
    Parameterized(ListClass, t, [])
  }

  /** `t` wrapped in `List<...>` `n` times. */
  function NestedList(n: nat, t: JType): JType {
    if n == 0 then t else ListOf(NestedList(n - 1, t))
  }

  /**
   * `extractNestedType`: follow the first type argument of a parameterised
   * type and the first upper bound of a wildcard until a plain class is left.
   */
  function ExtractNestedType(t: JType): (r: ClassDesc)
    ensures t.Plain? ==> r == t.cls
  {
    match t
    case Plain(c) => c
    case Parameterized(_, a, _) => ExtractNestedType(a)
    case Wildcard(b, _) => ExtractNestedType(b)
  }

  /** However deep a `List<List<...<C>>>` nests, the leaf class `C` comes out. */
  lemma {:induction false} NestedListLeaf(n: nat, c: ClassDesc)
    ensures ExtractNestedType(NestedList(n, Plain(c))) == c
    ensures ExtractNestedType(NestedList(n, Wildcard(Plain(c), []))) == c
  {
    if n > 0 {
      NestedListLeaf(n - 1, c);
    }
  }

  /** A parameterised type or a wildcard leads to the same leaf as the argument or bound it is unwrapped through. */
  lemma ExtractNestedUnwraps(t: JType)
    ensures t.Parameterized? ==> ExtractNestedType(t) == ExtractNestedType(t.arg0)
    ensures t.Wildcard? ==> ExtractNestedType(t) == ExtractNestedType(t.upper0)
    ensures ExtractNestedType(t) == ExtractNestedType(Plain(ExtractNestedType(t)))
  {
  }

  /**
   * A type as the JVM reports it: type arguments and wildcard bounds are
   * boxed, so the primitive `int` never appears among them.
   */
  predicate ArgsBoxed(t: JType) {
    match t
    case Plain(_) => true
    case Parameterized(_, a, more) =>
      a != Plain(IntClass) && ArgsBoxed(a) && forall u :: u in more ==> u != Plain(IntClass) && ArgsBoxed(u)
    case Wildcard(b, more) =>
      b != Plain(IntClass) && ArgsBoxed(b) && forall u :: u in more ==> u != Plain(IntClass) && ArgsBoxed(u)
  }

  /** The leaf class of a generic type the JVM reports is never the primitive `int`. */
  lemma {:induction false} ExtractNestedBoxed(t: JType)
    ensures ArgsBoxed(t) && !t.Plain? ==> ExtractNestedType(t) != IntClass
  {
    match t
    case Plain(_) =>
    case Parameterized(_, a, _) => ExtractNestedBoxed(a);
    case Wildcard(b, _) => ExtractNestedBoxed(b);
  }

  /**
   * `isListType`, read as a descriptor tag: the class is the `List`
   * interface, which is neither a scalar nor a user class with fields.
   */
  predicate IsListType(c: ClassDesc): (r: bool)
    ensures r ==> !c.RecordClass? && AllFields(c) == []
    ensures r ==> c !in {StringClass, ByteArrayClass, IntClass, IntegerClass, LongClass}
  {
    c == ListClass
  }

  /** `getFieldName`: the `@BencodeName` value when present, the field name otherwise. */
  function FieldName(f: FieldDesc): (r: seq<byte>)
    ensures f.annotation.Some? ==> r == f.annotation.value
    ensures f.annotation.None? ==> r == f.name
  {
    f.annotation.GetOr(f.name)
  }

  /** The wire names of the fields, in field order. */
  function WireNames(fields: seq<FieldDesc>): (r: seq<seq<byte>>)
    ensures |r| == |fields|
    ensures forall i :: 0 <= i < |fields| ==> r[i] == FieldName(fields[i])
  {
    if fields == [] then [] else [FieldName(fields[0])] + WireNames(fields[1..])
  }

  /** No two fields share a wire name. */
  predicate DistinctNames(fields: seq<FieldDesc>) {
    forall i, j :: 0 <= i < j < |fields| ==> FieldName(fields[i]) != FieldName(fields[j])
  }

  /** `declaredFields`: a user class's own fields; the built-in classes contribute none to the mapper. */
  function Declared(c: ClassDesc): seq<FieldDesc> {
    if c.RecordClass? then c.declared else []
  }

  /** The class followed by its superclasses, nearest first. */
  function Chain(c: ClassDesc): (r: seq<ClassDesc>)
    ensures c.RecordClass? ==> 0 < |r| && r[0] == c
  {
    if !c.RecordClass? then []
    else match c.superclass
      case None => [c]
      case Some(s) => [c] + Chain(s)
  }

  /** The number of fields the classes of `cs` declare. */
  function DeclaredCount(cs: seq<ClassDesc>): nat {
    if cs == [] then 0 else |Declared(cs[0])| + DeclaredCount(cs[1..])
  }

  /** `getAllFields`: the class's own fields, then (recursively) its superclass's. */
  function AllFields(c: ClassDesc): (r: seq<FieldDesc>)
    ensures !c.RecordClass? ==> r == []
    ensures |Declared(c)| <= |r|
  {
    if !c.RecordClass? then []
    else match c.superclass
      case None => c.declared
      case Some(s) => c.declared + AllFields(s)
  }

  /** The own fields come first, in declaration order. */
  lemma AllFieldsOwnFirst(c: ClassDesc)
    ensures AllFields(c)[..|Declared(c)|] == Declared(c)
  {
  }

  /** Walking stops when no superclass is left, having collected exactly the fields declared along the chain. */
  lemma {:induction false} AllFieldsLength(c: ClassDesc)
    ensures |AllFields(c)| == DeclaredCount(Chain(c))
  {
    if c.RecordClass? {
      match c.superclass
      case None =>
        assert Chain(c)[1..] == [];
      case Some(s) =>
        AllFieldsLength(s);
        assert Chain(c)[1..] == Chain(s);
    }
  }

  /**
   * Every class on the chain contributes its declared fields exactly once, as
   * one block, after the blocks of the classes below it.
   */
  lemma {:induction false} AllFieldsLayout(c: ClassDesc, k: nat)
    requires k < |Chain(c)|
    ensures DeclaredCount(Chain(c)[..k]) + |Declared(Chain(c)[k])| <= |AllFields(c)|
    ensures AllFields(c)[DeclaredCount(Chain(c)[..k])..DeclaredCount(Chain(c)[..k]) + |Declared(Chain(c)[k])|]
         == Declared(Chain(c)[k])
  {
    if k == 0 {
      OwnBlock(c);
    } else {
      ChainStep(c, k);
      var s := c.superclass.value;
      AllFieldsLayout(s, k - 1);
      InheritedBlock(c, s, k, DeclaredCount(Chain(s)[..k - 1]), Declared(Chain(s)[k - 1]));
    }
  }

  /** The class's own block is the first one. */
  lemma OwnBlock(c: ClassDesc)
    requires 0 < |Chain(c)|
    ensures |Declared(Chain(c)[0])| <= |AllFields(c)|
    ensures DeclaredCount(Chain(c)[..0]) == 0
    ensures AllFields(c)[0..|Declared(Chain(c)[0])|] == Declared(Chain(c)[0])
  {
    assert Chain(c)[..0] == [];
    AllFieldsOwnFirst(c);
  }

  /** The block of the `k`-th class up the chain, found in the superclass's fields at `o`, shifted past `c`'s own. */
  lemma InheritedBlock(c: ClassDesc, s: ClassDesc, k: nat, o: nat, x: seq<FieldDesc>)
    requires 0 < k < |Chain(c)| && c.RecordClass? && c.superclass == Some(s)
    requires k - 1 < |Chain(s)| && o == DeclaredCount(Chain(s)[..k - 1]) && x == Declared(Chain(s)[k - 1])
    requires o + |x| <= |AllFields(s)| && AllFields(s)[o..o + |x|] == x
    ensures DeclaredCount(Chain(c)[..k]) + |Declared(Chain(c)[k])| <= |AllFields(c)|
    ensures AllFields(c)[DeclaredCount(Chain(c)[..k])..DeclaredCount(Chain(c)[..k]) + |Declared(Chain(c)[k])|]
         == Declared(Chain(c)[k])
  {
    ChainStep(c, k);
    var a := Declared(c);
    BlockShift(a, AllFields(s), o, x);
    LayoutShift(AllFields(c), a + AllFields(s), DeclaredCount(Chain(c)[..k]), |a| + o, Declared(Chain(c)[k]), x);
  }

  /** The same block, restated through equal names for the whole, its offset and itself. */
  lemma LayoutShift<T>(all: seq<T>, all': seq<T>, o: nat, o': nat, x: seq<T>, x': seq<T>)
    requires all == all' && o == o' && x == x'
    requires o' + |x'| <= |all'| && all'[o'..o' + |x'|] == x'
    ensures o + |x| <= |all| && all[o..o + |x|] == x
  {
  }

  /** One step up the chain: the block offsets of `c` are those of its superclass, shifted by `c`'s own fields. */
  lemma ChainStep(c: ClassDesc, k: nat)
    requires 0 < k < |Chain(c)|
    ensures c.RecordClass? && c.superclass.Some?
    ensures AllFields(c) == Declared(c) + AllFields(c.superclass.value)
    ensures k - 1 < |Chain(c.superclass.value)|
    ensures Chain(c)[k] == Chain(c.superclass.value)[k - 1]
    ensures DeclaredCount(Chain(c)[..k]) == |Declared(c)| + DeclaredCount(Chain(c.superclass.value)[..k - 1])
  {
    var s := c.superclass.value;
    assert Chain(c) == [c] + Chain(s);
    assert Chain(c)[..k][1..] == Chain(s)[..k - 1];
  }

  /** A block at offset `o` of `b` sits at offset `|a| + o` of `a + b`. */
  lemma BlockShift<T>(a: seq<T>, b: seq<T>, o: nat, x: seq<T>)
    requires o + |x| <= |b| && b[o..o + |x|] == x
    ensures |a| + o + |x| <= |a + b| && (a + b)[|a| + o..|a| + o + |x|] == x
  {
    assert (a + b)[|a| + o..|a| + o + |x|] == b[o..o + |x|];
  }

  /** `getAllFields` as Util.kt runs it: copy the declared fields into a mutable list, then append the superclass's. */
  method GetAllFields(c: ClassDesc) returns (fields: seq<FieldDesc>)
    ensures fields == AllFields(c)
    decreases c
  {
    fields := Declared(c);
    if c.RecordClass? && c.superclass.Some? {
      var inherited := GetAllFields(c.superclass.value);
      fields := fields + inherited;
    }
  }
}
