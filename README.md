# Bencode codec and object mapper, in Dafny

This project models the core of `simple-bencode`, a Kotlin library for
Bencode, the encoding BitTorrent uses for `.torrent` files. The model covers
the current package `com.lanlinju.bencode` and the earlier `com.lanli.bencode`,
which has the same parser, encoder, marshaller and helpers. The library has
three layers:

- **The canonical tree and the parser** (`Parser.kt`). `BObject` is a byte
  string (`BStr`), a `Long` (`BInt`), a list (`BList`) or an
  insertion-ordered map (`BDict`). `parse` peeks at the next byte of a
  `BufferedInputStream`, chooses a decoder from it, and reads exactly one
  value.
- **The encoder** (`Encoder.kt`). `bencode` and its helpers write a tree to a
  `BufferedOutputStream` and return the number of bytes they wrote.
- **The object mapper** (`Marshal.kt`, `Unmarshal.kt`, `Util.kt`). `marshal`
  turns a Kotlin value into a tree by reflection. `unmarshal` rebuilds a value
  of a requested class from a tree.

The modules follow the source files:

- `bytes.dfy` (`Bytes`): bytes, the ASCII letters of the grammar,
  `Int.toString`/`Long.toString`, `String.toInt`/`toLong` and
  `Long.toInt`.
- `bobject.dfy` (`BObjects`): the tree. A dictionary is an association list.
  `Put` behaves like `map[k] = v` on a `LinkedHashMap`: a present key keeps
  its place, and a new key goes last. `BStr` is a Dafny value, so two of them
  are equal exactly when their bytes are equal, as the overridden `equals`
  promises.
- `parser.dfy` (`Parser`): the functions `ParseAt`, `DecodeStringAt` and so
  on give the value and end position a read from position `i` produces. The
  class `Reader` is the cursor over the stream. Its methods are the Kotlin
  functions, with the same loops, each proved to agree with the matching
  function. Both packages' parsers share these definitions, and each method
  models the function of that name in both `Parser.kt` files. The earlier
  package's `decodeString` returns the bare bytes; that is
  `Reader.DecodeStringBytes`. The newer one wraps them in a `BStr`; that is
  `Reader.DecodeString`.
- `encoder.dfy` (`Encoder`): `Encoded(t)` is the byte sequence a tree stands
  for. The class `Sink` is the output stream. The methods write through it in
  the Kotlin order and return the Kotlin counts. Each method models the
  function of that name in both packages' `Encoder.kt`, whose bodies are the
  same.
- `roundtrip.dfy` (`RoundTrip`): parsing the bytes `bencode` writes gives the
  tree back, and the parser consumes exactly those bytes.
- `descriptors.dfy` (`Descriptors`): explicit descriptors replace JVM
  reflection. These cover classes (declared fields, superclass, primary
  constructor), fields (`@BencodeName`, erased class, generic type) and
  runtime values. This module also models `Util.kt` of both packages.
  `FieldName` is `getFieldName`, in the newer `Util.kt` and the earlier
  `Marshal.kt` alike. `IntClass` is the primitive `int` of an `Int` property
  or parameter. `IntegerClass` is the boxed `Integer` of an `Int?` property
  and of `Int` as a type argument. One `LongClass` stands for `long` and
  `Long`, which `unmarshalInt` treats alike.
- `marshal.dfy` (`Marshalling`): `marshal`.
- `unmarshal.dfy` (`Unmarshalling`): `unmarshal`, plus the imperative
  `createInstance` and `unmarshalDict` as methods proved against the
  functions.
- `mapper_roundtrip.dfy` (`MapperRoundTrip`): for a value whose class the
  mapper can rebuild, marshal, encode, parse and unmarshal together give the
  value back.

A Kotlin exception is an `Err` of an error datatype.
`Parser.ParseError` has one case per way the parser can fail.
`Marshalling.MarshalError` is the null check. `Unmarshalling.UnmarshalError`
has one case per `IllegalArgumentException` that `createInstance` throws, plus
the reflective type mismatch.

## Model

| member | source | states |
|---|---|---|
| Bytes.ToInt | src/main/kotlin/com/lanlinju/bencode/Unmarshal.kt:39-44 | `Long.toInt()` yields an `Int` that agrees with the `Long` modulo 2^32, and it is the same number when the `Long` already fits in an `Int` |
| Bytes.ParseInt | src/main/kotlin/com/lanlinju/bencode/Parser.kt:73-79 | `toInt` on a length prefix accepts only values in the `Int` range |
| Bytes.ParseLong | src/main/kotlin/com/lanlinju/bencode/Parser.kt:88-94 | `toLong` on an integer body accepts only values in the `Long` range |
| Bytes.ParseSigned | src/main/kotlin/com/lanli/bencode/Parser.kt:83-93 | the texts `toInt`/`toLong` accept are exactly an optional `+` or `-` followed by one or more ASCII digits, leading zeros allowed |
| Bytes.DecimalTextDigits | src/main/kotlin/com/lanlinju/bencode/Encoder.kt:59-66 | the length prefix `encodeString` writes is all digits with no leading zero |
| Bytes.SignedTextDigits | src/main/kotlin/com/lanlinju/bencode/Encoder.kt:74-78 | the text inside `i...e` is digits, with a `-` only in first place and only for negative values |
| Bytes.DecimalRoundTrip | src/main/kotlin/com/lanli/bencode/Encoder.kt:49-56 | reading back the digits of a length gives that length |
| Bytes.SignedRoundTrip | src/main/kotlin/com/lanli/bencode/Encoder.kt:63-67 | `toLong` (and `toInt` in range) of `toString(n)` gives `n` back |
| BObjects.KeyIndexFound | src/main/kotlin/com/lanlinju/bencode/Unmarshal.kt:65 | a map lookup finds a key exactly when it is present, at its first occurrence |
| BObjects.Lookup | src/main/kotlin/com/lanlinju/bencode/Unmarshal.kt:65 | `dict[key]` is null exactly when the key is absent, and otherwise gives a value stored under that key |
| BObjects.Put | src/main/kotlin/com/lanlinju/bencode/Parser.kt:130 | after `dict[key] = value` the pair is present. A present key leaves the size unchanged. A new key is appended at the end |
| BObjects.PutSpec | src/main/kotlin/com/lanlinju/bencode/Parser.kt:130 | after `dict[key] = value` the key maps to the new value and every other key keeps its value. An existing key keeps its place, a new key is appended, and no key appears twice |
| BObjects.PutShape | src/main/kotlin/com/lanli/bencode/Parser.kt:127 | the same assignment keeps the key order. Every entry is an old entry or the new pair |
| BObjects.PutWellFormed | src/main/kotlin/com/lanlinju/bencode/Parser.kt:119-133 | a map the Kotlin types can hold still is one after an assignment with a String-sized key and a well-formed value |
| Parser.ScanTo | src/main/kotlin/com/lanlinju/bencode/Parser.kt:73-79 | a position the text-collecting loop stops at holds the delimiter, at or after the start |
| Parser.ScanToFirst | src/main/kotlin/com/lanli/bencode/Parser.kt:85-91 | the loop stops at the first delimiter. It finds none exactly when the rest of the input contains none |
| Parser.DecodeStringAt | src/main/kotlin/com/lanli/bencode/Parser.kt:69-78 | a decoded string is at most `Int.MAX_VALUE` long. It ends past its prefix, its `:` and its bytes, within the input |
| Parser.DecodeStringAtBytes | src/main/kotlin/com/lanlinju/bencode/Parser.kt:72-81 | the bytes returned are exactly the N bytes after `N:`, ending at the returned position |
| Parser.DecodeIntAt | src/main/kotlin/com/lanli/bencode/Parser.kt:83-93 | `i<text>e` yields a `BInt` within `Long` range and consumes through the `e` |
| Parser.EmptyIntegerFails | src/main/kotlin/com/lanlinju/bencode/Parser.kt:86-96 | `ie` fails with a number-format error |
| Parser.ParseAt | src/main/kotlin/com/lanli/bencode/Parser.kt:48-57 | a successful parse consumes at least one byte and stays within the input |
| Parser.DecodeListAt | src/main/kotlin/com/lanli/bencode/Parser.kt:98-111 | a list consumes at least its `l` and stays within the input |
| Parser.ListItemsFrom | src/main/kotlin/com/lanlinju/bencode/Parser.kt:103-113 | the list loop ends past the closing `e`, within the input |
| Parser.DecodeDictAt | src/main/kotlin/com/lanli/bencode/Parser.kt:116-130 | a dictionary consumes at least its `d` and stays within the input |
| Parser.DictEntriesFrom | src/main/kotlin/com/lanlinju/bencode/Parser.kt:121-131 | the dictionary loop ends past the closing `e`, within the input |
| Parser.ParseAtSpec | src/main/kotlin/com/lanlinju/bencode/Parser.kt:48-57 | the first byte picks the kind: digit for string, `i`, `l`, `d`. Any other byte, or the end of input, gives "Invalid Bencode data". The tree is one the Kotlin types can hold |
| Parser.ListItemsSpec | src/main/kotlin/com/lanlinju/bencode/Parser.kt:101-114 | the list loop keeps the items read so far as a prefix, in reading order |
| Parser.DictEntriesSpec | src/main/kotlin/com/lanlinju/bencode/Parser.kt:119-133 | the dictionary loop yields a dictionary with unique keys |
| Parser.ParseAtExtend | src/main/kotlin/com/lanlinju/bencode/Parser.kt:48-133 | `parse` reads one complete value and no further: bytes after it change neither the value nor the end position |
| Parser.Reader.Read | src/main/kotlin/com/lanlinju/bencode/Parser.kt:87 | `read()` returns the next byte and advances one, or signals the end without moving |
| Parser.Reader.Peek | src/main/kotlin/com/lanlinju/bencode/Parser.kt:62-67 | `peek` returns the next byte and leaves the cursor where it was |
| Parser.Reader.ReadUntil | src/main/kotlin/com/lanlinju/bencode/Parser.kt:73-79 | the `while (true)` loop returns the bytes before the first delimiter and leaves the cursor just past it |
| Parser.Reader.ReadNBytes | src/main/kotlin/com/lanlinju/bencode/Parser.kt:80 | `readNBytes(n)` returns the next `n` bytes and advances by `n`. A negative `n` fails |
| Parser.Reader.DecodeStringBytes | src/main/kotlin/com/lanli/bencode/Parser.kt:69-78 | the earlier `decodeString` returns what `DecodeStringAt` describes and leaves the cursor at its end position |
| Parser.Reader.DecodeString | src/main/kotlin/com/lanlinju/bencode/Parser.kt:72-81 | `decodeString` returns those bytes as a `BStr`, with the same cursor |
| Parser.Reader.DecodeInt | src/main/kotlin/com/lanlinju/bencode/Parser.kt:86-96 | `decodeInt` returns what `DecodeIntAt` describes, cursor included |
| Parser.Reader.Parse | src/main/kotlin/com/lanlinju/bencode/Parser.kt:48-57 | `parse` returns what `ParseAt` describes, and the cursor ends where `ParseAt` says |
| Parser.Reader.DecodeList | src/main/kotlin/com/lanlinju/bencode/Parser.kt:101-114 | `decodeList` returns what `DecodeListAt` describes, cursor included |
| Parser.Reader.DecodeDict | src/main/kotlin/com/lanlinju/bencode/Parser.kt:119-133 | `decodeDict` returns what `DecodeDictAt` describes, cursor included |
| Encoder.Encoded | src/main/kotlin/com/lanlinju/bencode/Encoder.kt:9-23 | an encoding is never empty. Its first byte tells the kind (a digit for a string, `i`, `l`, `d`), and everything but a string ends with `e` |
| Encoder.StringEncoded | src/main/kotlin/com/lanlinju/bencode/Encoder.kt:59-66 | a string's encoding is a non-empty run of digits, `:`, then the bytes themselves |
| Encoder.IntEncoded | src/main/kotlin/com/lanlinju/bencode/Encoder.kt:74-78 | an integer's encoding is `i`, digits with a `-` only first and only for negative values, then `e` |
| Encoder.Sink.Write | src/main/kotlin/com/lanlinju/bencode/Encoder.kt:62-64 | a write appends its bytes and never changes what was already written |
| Encoder.Bencode | src/main/kotlin/com/lanlinju/bencode/Encoder.kt:9-23 | `bencode` appends exactly the encoding of the tree and returns the number of bytes it appended |
| Encoder.EncodeDict | src/main/kotlin/com/lanlinju/bencode/Encoder.kt:31-38 | `encodeDict` appends `d`, then each key as a string followed by its value in map order (unsorted), then `e`. It returns that byte count |
| Encoder.EncodeList | src/main/kotlin/com/lanlinju/bencode/Encoder.kt:46-51 | `encodeList` appends `l`, each item in order, then `e`, and returns 2 plus the items' byte counts |
| Encoder.EncodeString | src/main/kotlin/com/lanlinju/bencode/Encoder.kt:59-66 | `encodeString` appends the decimal length, `:` and the bytes, and returns digits + 1 + size |
| Encoder.EncodeInt | src/main/kotlin/com/lanlinju/bencode/Encoder.kt:74-78 | `encodeInt` appends `i`, the signed decimal value, then `e`, and returns its length |
| Encoder.ItemsEncodedAppend | src/main/kotlin/com/lanli/bencode/Encoder.kt:40 | the bytes of the items grow by one item's encoding with each step of the fold |
| Encoder.EntriesEncodedAppend | src/main/kotlin/com/lanli/bencode/Encoder.kt:31-33 | the bytes of the entries grow by one key and one value with each step of the fold |
| RoundTrip.EncodedLeads | src/main/kotlin/com/lanlinju/bencode/Encoder.kt:9-23 | the first byte `bencode` writes is the one `parse` dispatches on to the same kind |
| RoundTrip.DecodeStringAtEncoded | src/main/kotlin/com/lanlinju/bencode/Encoder.kt:59-66 | `decodeString` reads back exactly the bytes `encodeString` wrote, ending just past them |
| RoundTrip.DecodeIntAtEncoded | src/main/kotlin/com/lanlinju/bencode/Encoder.kt:74-78 | `decodeInt` reads back the `Long` `encodeInt` wrote, ending just past the `e` |
| RoundTrip.ListParsed | src/main/kotlin/com/lanlinju/bencode/Encoder.kt:46-51 | parsing an encoded list gives the same items in the same order, ending past its `e` |
| RoundTrip.DictParsed | src/main/kotlin/com/lanlinju/bencode/Encoder.kt:31-38 | parsing an encoded dictionary gives the same entries in the same order, ending past its `e` |
| RoundTrip.ParseEncoded | src/main/kotlin/com/lanlinju/bencode/Encoder.kt:9-23 | wherever the encoding of a well-formed tree stands in the input, parsing there gives the tree and ends exactly after the encoding |
| RoundTrip.ParseEncodedPrefix | src/main/kotlin/com/lanli/bencode/Encoder.kt:9-23 | parsing `bencode(t)` followed by any bytes gives `t` and consumes exactly the bytes `bencode` wrote |
| Descriptors.ExtractNestedType | src/main/kotlin/com/lanlinju/bencode/Util.kt:13-19 | a plain class comes out unchanged |
| Descriptors.ExtractNestedUnwraps | src/main/kotlin/com/lanli/bencode/Util.kt:17-23 | a parameterised type unwraps through its first type argument and a wildcard through its first upper bound. The result is a plain class that stays fixed |
| Descriptors.NestedListLeaf | src/test/kotlin/bencode/UtilTest.kt:23-29 | however deeply `List<...<C>>` nests, with or without a wildcard at the leaf, `C` comes out |
| Descriptors.IsListType | src/main/kotlin/com/lanlinju/bencode/Util.kt:24-26 | a list class is none of the string, byte array, `int`, `Integer` or `Long` classes and declares no fields |
| Descriptors.ExtractNestedBoxed | src/main/kotlin/com/lanlinju/bencode/Util.kt:13-19 | a parameterised type, whose type arguments are boxed classes, never yields the primitive `int` |
| Descriptors.FieldName | src/main/kotlin/com/lanlinju/bencode/Util.kt:43-45 | the `@BencodeName` value when the field has one, the field name otherwise |
| Descriptors.AllFields | src/main/kotlin/com/lanlinju/bencode/Util.kt:31-37 | a class holds at least its own declared fields; a built-in class contributes none |
| Descriptors.AllFieldsOwnFirst | src/main/kotlin/com/lanli/bencode/Util.kt:35-42 | a class's own declared fields come first, in declaration order |
| Descriptors.AllFieldsLength | src/main/kotlin/com/lanlinju/bencode/Util.kt:33-36 | the walk stops at a missing superclass. The number of fields is the sum of the declared counts along the chain |
| Descriptors.AllFieldsLayout | src/main/kotlin/com/lanli/bencode/Util.kt:37-40 | every class on the chain contributes its declared fields exactly once, as one block, after the blocks of its subclasses |
| Descriptors.GetAllFields | src/main/kotlin/com/lanlinju/bencode/Util.kt:31-37 | the mutable-list construction with `addAll` of the superclass's fields yields exactly `AllFields` |
| Marshalling.Marshal | src/main/kotlin/com/lanlinju/bencode/Marshal.kt:6-14 | null fails. Strings and byte arrays, and only they, become `BStr`. `Int` and `Long`, and only they, become `BInt`. Lists, and only they, become `BList` of the same length. Objects, and only they, become a `BDict` with unique keys and no more entries than fields |
| Marshalling.MarshalList | src/main/kotlin/com/lanlinju/bencode/Marshal.kt:33-36 | a marshalled list keeps its length, and a null element (`it!!`) makes it fail |
| Marshalling.MarshalFields | src/main/kotlin/com/lanlinju/bencode/Marshal.kt:42-50 | `associate` adds at most one entry per field, and keeps keys unique |
| Marshalling.MarshalScalars | src/main/kotlin/com/lanlinju/bencode/Marshal.kt:6-28 | a string and a byte array become `BStr` of their bytes. An `Int` or `Long` becomes `BInt` of its value. Null fails |
| Marshalling.MarshalListSpec | src/main/kotlin/com/lanlinju/bencode/Marshal.kt:33-36 | a list marshals exactly when every element does, into a list of the same length whose items are the marshalled elements in order |
| Marshalling.MarshalOkIffNullFree | src/main/kotlin/com/lanli/bencode/Marshal.kt:8-48 | marshalling fails exactly when a null is reachable, whether as a list element or a field value |
| Marshalling.MarshalFieldsOk | src/main/kotlin/com/lanlinju/bencode/Marshal.kt:42-50 | the `associate` over the fields succeeds exactly when every field value marshals |
| Marshalling.MarshalFieldsLookup | src/main/kotlin/com/lanlinju/bencode/Marshal.kt:44-48 | the dictionary keeps keys unique. Each wire name maps to the value of the last field carrying it |
| Marshalling.MarshalFieldsInOrder | src/main/kotlin/com/lanlinju/bencode/Marshal.kt:42-50 | with distinct wire names the fold appends one entry per field to what it started with, in field order, pairing the wire name with the marshalled value |
| Marshalling.MarshalObjectInOrder | src/main/kotlin/com/lanli/bencode/Marshal.kt:40-48 | an object becomes a `BDict` with one entry per field of `getAllFields`, in that order, keyed by `getFieldName` |
| Marshalling.MarshalObject | src/main/kotlin/com/lanlinju/bencode/Marshal.kt:42-50 | a null-free object becomes a `BDict` with unique keys. Each wire name gives the last same-named field's marshalled value, and names no field has are absent |
| Unmarshalling.FieldNamed | src/main/kotlin/com/lanlinju/bencode/Unmarshal.kt:103 | `fields.find` gives the first field with that name, or none when no field has it |
| Unmarshalling.FieldTargetLeaf | src/main/kotlin/com/lanlinju/bencode/Unmarshal.kt:82-88 | a field declared `List<...<C>>` decodes against `C`, with or without a wildcard at the leaf, any other field against its own class. For `List<Int>` the leaf the JVM reports is the boxed `Integer` |
| Unmarshalling.FieldTargetType | src/main/kotlin/com/lanlinju/bencode/Unmarshal.kt:82-88 | a non-list field decodes against its own class. A list field whose type arguments the JVM reports (always boxed) never decodes against the primitive `int` |
| Unmarshalling.Unmarshal | src/main/kotlin/com/lanlinju/bencode/Unmarshal.kt:15-22 | a `BStr` always decodes to a string or byte array and a `BInt` always to an `Int` or `Long`. A decoded `BList` is a list of the same length. A decoded `BDict` is an instance of the requested class with one slot per field of `getAllFields` |
| Unmarshalling.UnmarshalString | src/main/kotlin/com/lanlinju/bencode/Unmarshal.kt:28-33 | the bytes themselves exactly for a `ByteArray` target, the string of those bytes for any other |
| Unmarshalling.UnmarshalInt | src/main/kotlin/com/lanlinju/bencode/Unmarshal.kt:39-44 | an `Int` exactly for the primitive `int` target, then equal to the `Long` modulo 2^32 and equal when it fits. Every other target, the boxed `Integer` included, gets the `Long` |
| Unmarshalling.UnmarshalIntIntended | src/main/kotlin/com/lanlinju/bencode/Unmarshal.kt:35-44 | the conversion the KDoc describes: an `Int` for `int` and for `Integer`, the `Long` otherwise |
| Unmarshalling.UnmarshalIntended | src/main/kotlin/com/lanlinju/bencode/Unmarshal.kt:15-53 | `unmarshal` with the documented conversion agrees with the library's for every target other than `Integer`; an integer decodes by `UnmarshalIntIntended`; a decoded list keeps its length |
| Unmarshalling.UnmarshalItemsIntended | src/main/kotlin/com/lanlinju/bencode/Unmarshal.kt:52 | its element-wise `map` keeps the length and agrees with the library's for every target other than `Integer` |
| Unmarshalling.FieldValueIntended | src/main/kotlin/com/lanlinju/bencode/Unmarshal.kt:64-72 | the field step with the documented conversion skips exactly the absent fields, assigns only what `Field.set` accepts, and agrees with the library's step unless the target is `Integer` |
| Unmarshalling.UnmarshalList | src/main/kotlin/com/lanlinju/bencode/Unmarshal.kt:50-53 | a decoded list has one element per item |
| Unmarshalling.UnmarshalItems | src/main/kotlin/com/lanlinju/bencode/Unmarshal.kt:52 | the element-wise `map` keeps the length |
| Unmarshalling.DictValue | src/main/kotlin/com/lanlinju/bencode/Unmarshal.kt:59-76 | a class without a primary constructor fails with "Class must have a primary constructor". A decoded dictionary is an instance of the requested class with one slot per field |
| Unmarshalling.UnmarshalScalars | src/main/kotlin/com/lanlinju/bencode/Unmarshal.kt:15-44 | a `BStr` never fails: the bytes for a `ByteArray` target, a string otherwise. A `BInt` never fails: `toInt()` for an `Int` target, the `Long` otherwise |
| Unmarshalling.UnmarshalItemsSpec | src/main/kotlin/com/lanlinju/bencode/Unmarshal.kt:52 | the element-wise `map` succeeds exactly when every element decodes, keeping length and order |
| Unmarshalling.UnmarshalListSpec | src/main/kotlin/com/lanlinju/bencode/Unmarshal.kt:50-53 | a `BList` decodes to a list, for any target, with every element decoded against the same class, keeping length and order. The empty list gives the empty list |
| Unmarshalling.NoConstructorFails | src/main/kotlin/com/lanlinju/bencode/Unmarshal.kt:99-100 | a dictionary decoded into a class with no primary constructor fails with "Class must have a primary constructor" |
| Unmarshalling.ParamWireName | src/main/kotlin/com/lanlinju/bencode/Unmarshal.kt:103-106 | a parameter is looked up under the `@BencodeName` of the first field named like it (`getFieldName` of that field), else under its own name. A parameter without a name, and only such a one, fails with "Constructor parameter must have a name" |
| Unmarshalling.ArgForSpec | src/main/kotlin/com/lanlinju/bencode/Unmarshal.kt:102-115 | an absent key fails with "Missing value for parameter". A list parameter gets the empty list. Any other parameter gets the decoded value |
| Unmarshalling.CtorArgsSpec | src/main/kotlin/com/lanlinju/bencode/Unmarshal.kt:102-115 | the arguments are built exactly when every parameter's is, one per parameter in order, each the value its parameter's step gives |
| Unmarshalling.CtorArgsFirstError | src/main/kotlin/com/lanlinju/bencode/Unmarshal.kt:102-115 | a failed `associateWith` reports the error of the first parameter whose step throws; every parameter before it succeeded |
| Unmarshalling.CtorArgs | src/main/kotlin/com/lanlinju/bencode/Unmarshal.kt:102-115 | the argument map has one entry per constructor parameter, and every parameter has a name |
| Unmarshalling.ArgFor | src/main/kotlin/com/lanlinju/bencode/Unmarshal.kt:103-114 | an unnamed parameter fails. A built argument means the parameter's wire name is a key of the dictionary. A list-typed parameter gets the empty list |
| Unmarshalling.ArgumentFor | src/main/kotlin/com/lanlinju/bencode/Unmarshal.kt:103-114 | the lambda of `associateWith`, with its early `return@associateWith`, gives exactly `ArgFor` |
| Unmarshalling.CollectArgs | src/main/kotlin/com/lanlinju/bencode/Unmarshal.kt:102-115 | the loop over the constructor parameters, stopping at the first exception, gives exactly `CtorArgs` |
| Unmarshalling.RequiredParameters | src/main/kotlin/com/lanlinju/bencode/Unmarshal.kt:108-109 | a successful decode implies every constructor parameter's wire name is a key of the dictionary |
| Unmarshalling.ConstructedInstance | src/main/kotlin/com/lanlinju/bencode/Unmarshal.kt:94-119 | a constructed instance has one slot per field, and needs a primary constructor whose arguments could all be built |
| Unmarshalling.CreateInstance | src/main/kotlin/com/lanlinju/bencode/Unmarshal.kt:94-119 | the argument loop and `callBy` give exactly `ConstructedInstance` |
| Unmarshalling.FieldValueSpec | src/main/kotlin/com/lanlinju/bencode/Unmarshal.kt:64-72 | a field whose wire name is absent is skipped. A present one is decoded against its target type and must fit the field |
| Unmarshalling.FieldValue | src/main/kotlin/com/lanlinju/bencode/Unmarshal.kt:64-72 | a field is skipped exactly when its wire name is absent. A value it receives is one `Field.set` accepts for the field's class |
| Unmarshalling.AssignFields | src/main/kotlin/com/lanlinju/bencode/Unmarshal.kt:63-73 | a completed `forEach` keeps one slot per field, and every field's step from the current one on succeeded |
| Unmarshalling.BoxedIntFieldRejected | src/main/kotlin/com/lanlinju/bencode/Unmarshal.kt:39-44 | an `Int?` property (field class `Integer`) with an integer under its wire name fails: `unmarshalInt` gives a `Long` and `Field.set` at line 72 rejects it |
| Unmarshalling.AssignFieldsSpec | src/main/kotlin/com/lanlinju/bencode/Unmarshal.kt:63-73 | the `forEach` succeeds exactly when every field's step does. Skipped fields keep their slot and assigned fields hold the decoded value |
| Unmarshalling.UnmarshalDict | src/main/kotlin/com/lanlinju/bencode/Unmarshal.kt:59-76 | `getAllFields`, `createInstance` and the `forEach` with `field.set` give exactly `Unmarshal` of the dictionary |
| Unmarshalling.DictFields | src/main/kotlin/com/lanlinju/bencode/Unmarshal.kt:59-76 | a decoded object is an instance of the requested class. A field whose wire name is absent keeps the constructed value. A present one holds the decoding of the value under its wire name |
| Unmarshalling.DictValueUnfold | src/main/kotlin/com/lanlinju/bencode/Unmarshal.kt:60-75 | a successful decode consists of a constructed instance followed by the assignment of every field |
| Unmarshalling.FieldValueByLookup | src/main/kotlin/com/lanlinju/bencode/Unmarshal.kt:64-65 | a field's step reads the dictionary only through the value under its wire name |
| Unmarshalling.OnlyWireNamesRead | src/main/kotlin/com/lanlinju/bencode/Unmarshal.kt:59-115 | two dictionaries that agree on every field's and parameter's wire name decode to the same result |
| Unmarshalling.ExtraKeyIgnored | src/main/kotlin/com/lanlinju/bencode/Unmarshal.kt:63-73 | a key that matches no field and no parameter changes nothing |
| MapperRoundTrip.ValueRoundTrip | src/test/kotlin/bencode/UnmarshalTest.kt:10-28 | a value of its declared class (no `Int` list elements, no `Int?` properties) marshals to a well-formed tree that unmarshals back to the value |
| MapperRoundTrip.ElemRoundTrip | src/main/kotlin/com/lanlinju/bencode/Unmarshal.kt:50-53 | a list element nested to any depth round-trips against the innermost element class |
| MapperRoundTrip.FieldRoundTrip | src/main/kotlin/com/lanlinju/bencode/Unmarshal.kt:82-88 | a field value round-trips against `getFieldTargetType` of its field, and the result fits the field |
| MapperRoundTrip.ListRoundTrip | src/main/kotlin/com/lanlinju/bencode/Marshal.kt:33-36 | a list whose elements fit the leaf class round-trips as a whole |
| MapperRoundTrip.ListOfRoundTrips | src/main/kotlin/com/lanlinju/bencode/Unmarshal.kt:52 | element-wise round trips give the list's round trip |
| MapperRoundTrip.RecordRoundTrip | src/main/kotlin/com/lanlinju/bencode/Unmarshal.kt:59-76 | an instance whose fields round-trip comes back through its constructor and its field assignments |
| MapperRoundTrip.RecordEntries | src/main/kotlin/com/lanlinju/bencode/Marshal.kt:42-50 | a rebuildable record marshals to a well-formed dictionary in which each field's wire name gives its marshalled value |
| MapperRoundTrip.RecordConstructed | src/main/kotlin/com/lanlinju/bencode/Unmarshal.kt:94-119 | the primary constructor succeeds on the record's own dictionary |
| MapperRoundTrip.BoundArg | src/main/kotlin/com/lanlinju/bencode/Unmarshal.kt:111-114 | a parameter bound to a field gets the empty list or that field's value, either of which its class accepts |
| MapperRoundTrip.RecordAssigned | src/main/kotlin/com/lanlinju/bencode/Unmarshal.kt:63-73 | every field's wire name is present, so the `forEach` writes every slot back to the original value |
| MapperRoundTrip.IntListDecodesToLongs | src/main/kotlin/com/lanlinju/bencode/Unmarshal.kt:39-44 | a non-empty `List<Int>` property marshals to a list of `BInt`s but decodes to a list of `Long`s, which differs from the original list |
| MapperRoundTrip.IntListRoundTripIntended | src/main/kotlin/com/lanlinju/bencode/Unmarshal.kt:35-44 | with the conversion the KDoc describes, every element of a `List<Int>` property converts back to its original `Int`, and the field's step decodes the marshalled list to the original list |
| MapperRoundTrip.IntItemsIntended | src/main/kotlin/com/lanlinju/bencode/Unmarshal.kt:50-53 | with the documented conversion, the element-wise `map` over a list of Bencode integers against `Integer` gives the original `Int`s |
| MapperRoundTrip.EncodeDecodeValue | src/test/kotlin/bencode/UnmarshalTest.kt:10-28 | marshal, `bencode`, `parse` and `unmarshal` in a row give the value back: parsing consumes exactly the encoded bytes, and unmarshalling against the declared class gives back the value |

## Findings

| source | as written | input that shows it | evidently intended | confidence | as-written member | corrected member |
|---|---|---|---|---|---|---|
| src/main/kotlin/com/lanlinju/bencode/Unmarshal.kt:39-44 | the `Int` branch of `unmarshalInt` compares against `Int::class.java`, the primitive `int`. The element class of `List<Int>` and the field class of `Int?` are the boxed `Integer`, so they get the `Long` | a property `val xs: List<Int>` holding `[5]`: `marshal` gives the tree `li5ee`, and `unmarshal` gives the list `[5L]`, a `List<Long>` | the KDoc says an `Int` target gets `toInt()`, boxed or not, so `[5]` comes back as `[5]` | not executed | MapperRoundTrip.IntListDecodesToLongs | Unmarshalling.UnmarshalIntIntended, Unmarshalling.FieldValueIntended, MapperRoundTrip.IntListRoundTripIntended |

The rest of the model keeps the library's behaviour as written, `Unmarshalling.UnmarshalInt`, so that it describes what the library does. The round-trip theorems exclude the affected values.

## Left out

- Text encoding: `String.toByteArray`, `String(bytes)` and `decodeToString` are library conversions. Strings, field names and dictionary keys are modelled as the bytes those conversions give. Invalid UTF-8 and its replacement characters are not modelled.
- End of stream: at the end of input `read()` returns -1. The Kotlin loops that collect a length prefix or an integer body then never stop, and `readNBytes` returns fewer bytes than asked. The model reports `EndOfInput` in these cases. This is a modelling choice; the Kotlin code does not detect truncation. When `peek` reaches the end at a value position, the character it returns is not a token start. That gives "Invalid Bencode data", which the model keeps.
- Parser.Reader.ReadNBytes: a short read is an error rather than a short array, for the reason above.
- Number parsing: `String.toInt`/`toLong` are modelled as an optional `+` or `-`, then at least one ASCII digit, then a range check.
- JVM reflection is replaced by explicit descriptors: `declaredFields`, `superclass`, `isAccessible`, `getAnnotation`, `primaryConstructor`, `callBy` and `Field.set`. A class that reaches `Any` has no superclass in the model, and built-in classes contribute no fields. `isListType` is the tag `ListClass`; implementations of `List` other than the interface itself are not distinguished.
- Unmarshalling.Assignable: `callBy` and `Field.set` accept a value of exactly the declared kind, or a subclass instance for a user class. Reflective widening conversions (for example an `Int` into a `long` field) are not modelled. An `Int?` property has field class `Integer` (`IntegerClass`): `unmarshalInt` gives it a `Long`, which `Field.set` rejects, so decoding an integer into such a field fails (`Unmarshalling.BoxedIntFieldRejected`). Generic element types are erased, so any list fits a list field, as on the JVM.
- MapperRoundTrip.ValueRoundTrip: the round trip is stated for values with no `Int` list elements and no `Int?` properties. The library decodes both to `Long` (see Findings).
- MapperRoundTrip.ElemRoundTrip: a list element of class `Integer` is excluded, because it decodes to a `Long`.
- MapperRoundTrip.FieldRoundTrip: a list field whose leaf is `Int` and an `Int?` property are excluded, because they decode to `Long`.
- MapperRoundTrip.ListRoundTrip: lists of `Int` are excluded, because their elements decode to `Long`.
- MapperRoundTrip.EncodeDecodeValue: the same exclusion as `ValueRoundTrip`, for the same reason.
- Descriptors.ExtractNestedType: only plain classes, parameterised types and wildcards are modelled. A type variable (the `T` of `class Page<T>(val items: List<T>)`) or a generic array type (`List<Array<List<String>>>`) reaching the final `type as Class<*>` makes the cast throw `ClassCastException`; the model has no such types, so it cannot describe that failure.
- Constructor bodies: `callBy` is modelled as storing each argument into the first field that has the parameter's name. Every other field keeps the initial value its descriptor records. Code in `init` blocks and default-argument expressions is not modelled.
- Numbers other than `Int` and `Long` (`Byte`, `Short`, `Float`, `Double`, `BigInteger`) are left out. `Number.toLong()` on floating point is not modelled.
- Byte counts: `bencode` returns a 32-bit `Int`. The model's counts are unbounded, so overflow past 2^31 bytes is not modelled. `flush()` and `BObject.toString` are left out.
- The `Bencode` facades of both packages (`Bencode.kt`) are not part of this model. They are stream plumbing around parse plus unmarshal and marshal plus `bencode`. `MapperRoundTrip.EncodeDecodeValue` states their composition.
- `com/lanli/bencode/marshal.kt` and `com/lanli/bencode/Unmarshal.kt` are not part of this model. They build trees of other types than that package's `BObject` and call a parser overload that does not exist. `createInstance` in `com/lanli/bencode/Util.kt` (no-argument reflective construction) is not part of this model either.
- Sample programs, file-reading tests and the build files are not part of this model.
