/**
 * The encoder of Encoder.kt (com.lanlinju.bencode, and the earlier
 * com.lanli.bencode, whose logic is the same). `Encoded` and its helpers are the
 * bytes each tree stands for; the class `Sink` is the output stream, and the
 * methods are the Kotlin functions, which append those bytes to it and return
 * how many they appended.
 */
module Encoder {
  import opened Bytes
  import opened BObjects

  /**
   * `<decimal length>:<bytes>`: it starts with a digit, and the payload
   * follows the only ':' before it.
   */
  function StringEncoded(b: seq<byte>): (r: seq<byte>)
    ensures |b| + 2 <= |r| && IsDigit(r[0])
    ensures r[|r| - |b| - 1] == ASCII_COLON && r[|r| - |b|..] == b
    ensures forall k :: 0 <= k < |r| - |b| - 1 ==> IsDigit(r[k])
  {
    DecimalTextDigits(|b|);
    DecimalText(|b|) + [ASCII_COLON] + b
  }

  /** `i<decimal value>e`: between the markers only digits, after at most a '-' for a negative value. */
  function IntEncoded(n: int): (r: seq<byte>)
    ensures 3 <= |r| && r[0] == ASCII_I && r[|r| - 1] == ASCII_E
    ensures forall k :: 1 <= k < |r| - 1 ==> IsDigit(r[k]) || (k == 1 && n < 0 && r[k] == ASCII_MINUS)
  {
    SignedTextDigits(n);
    [ASCII_I] + SignedText(n) + [ASCII_E]
  }

  /**
   * The bytes `bencode` writes for `t`; dictionary entries in the map's own
   * order, not sorted. The first byte tells the kind (a digit, 'i', 'l' or
   * 'd'), and everything but a byte string ends in 'e'.
   */
  function Encoded(t: BObject): (r: seq<byte>)
    ensures 0 < |r|
    ensures t.BStr? <==> IsDigit(r[0])
    ensures t.BInt? <==> r[0] == ASCII_I
    ensures t.BList? <==> r[0] == ASCII_L
    ensures t.BDict? <==> r[0] == ASCII_D
    ensures !t.BStr? ==> r[|r| - 1] == ASCII_E
    decreases t, 1
  {
    match t
    case BStr(b) => StringEncoded(b)
    case BInt(n) => IntEncoded(n)
    case BList(items) => [ASCII_L] + ItemsEncoded(items) + [ASCII_E]
    case BDict(entries) => [ASCII_D] + EntriesEncoded(entries) + [ASCII_E]
  }

  function ItemsEncoded(items: seq<BObject>): seq<byte>
    decreases items, 0
  {
    if items == [] then [] else Encoded(items[0]) + ItemsEncoded(items[1..])
  }

  function EntriesEncoded(entries: Entries): seq<byte>
    decreases entries, 0
  {
    if entries == [] then []
    else
      assert entries[0].1 < entries[0];
      StringEncoded(entries[0].0) + Encoded(entries[0].1) + EntriesEncoded(entries[1..])
  }

  lemma {:induction false} ItemsEncodedAppend(items: seq<BObject>, x: BObject)
    ensures ItemsEncoded(items + [x]) == ItemsEncoded(items) + Encoded(x)
  {
    if items != [] {
      assert (items + [x])[0] == items[0];
      assert (items + [x])[1..] == items[1..] + [x];
      ItemsEncodedAppend(items[1..], x);
      AppendAssoc(Encoded(items[0]), ItemsEncoded(items[1..]), Encoded(x));
    }
  }

  lemma {:induction false} EntriesEncodedAppend(entries: Entries, k: seq<byte>, v: BObject)
    ensures EntriesEncoded(entries + [(k, v)]) == EntriesEncoded(entries) + StringEncoded(k) + Encoded(v)
  {
    if entries != [] {
      var head := StringEncoded(entries[0].0) + Encoded(entries[0].1);
      var rest := EntriesEncoded(entries[1..]);
      assert (entries + [(k, v)])[0] == entries[0];
      assert (entries + [(k, v)])[1..] == entries[1..] + [(k, v)];
      EntriesEncodedAppend(entries[1..], k, v);
      AppendAssoc(head, rest + StringEncoded(k), Encoded(v));
      AppendAssoc(head, rest, StringEncoded(k));
    }
  }

  /** The `BufferedOutputStream` the encoder writes to: everything written so far. */
  class Sink {
    var written: seq<byte>

    constructor ()
      ensures written == []
    {
      written := [];
    }

    /** `writer.write(...)`: append, never change what is already there. */
    method Write(bytes: seq<byte>)
      modifies this
      ensures written == old(written) + bytes
    {
      written := written + bytes;
    }
  }

  /** `bencode`: write `t`, return the number of bytes written. */
  method Bencode(w: Sink, t: BObject) returns (n: nat)
    modifies w
    ensures w.written == old(w.written) + Encoded(t)
    ensures n == |Encoded(t)|
    decreases t, 2
  {
    match t
    case BStr(b) => n := EncodeString(w, b);
    case BInt(v) => n := EncodeInt(w, v);
    case BList(_) => n := EncodeList(w, t);
    case BDict(_) => n := EncodeDict(w, t);
  }

  /** `encodeDict`: 'd', each key as a string and its value, in map order, then 'e'. */
  method EncodeDict(w: Sink, t: BObject) returns (length: nat)
    requires t.BDict?
    modifies w
    ensures w.written == old(w.written) + Encoded(t)
    ensures length == |Encoded(t)|
    decreases t, 1
  {
    var entries := t.entries;
    ghost var start := w.written;
    w.Write([ASCII_D]);
    length := 2;
    var i := 0;
    while i < |entries|
      invariant 0 <= i <= |entries|
      invariant w.written == start + [ASCII_D] + EntriesEncoded(entries[..i])
      invariant length == 2 + |EntriesEncoded(entries[..i])|
    {
      var key := entries[i].0;
      var value := entries[i].1;
      assert value < entries[i];
      var keyLength := EncodeString(w, key);
      var valueLength := Bencode(w, value);
      length := keyLength + valueLength + length;
      EntryWritten(entries, i, start + [ASCII_D]);
      i := i + 1;
    }
    w.Write([ASCII_E]);
    assert entries[..i] == entries;
    Enclosed(start, ASCII_D, EntriesEncoded(entries), ASCII_E);
  }

  lemma EntryWritten(entries: Entries, i: nat, prefix: seq<byte>)
    requires i < |entries|
    ensures prefix + EntriesEncoded(entries[..i]) + StringEncoded(entries[i].0) + Encoded(entries[i].1)
      == prefix + EntriesEncoded(entries[..i + 1])
  {
    var done := EntriesEncoded(entries[..i]);
    assert entries[..i + 1] == entries[..i] + [(entries[i].0, entries[i].1)];
    EntriesEncodedAppend(entries[..i], entries[i].0, entries[i].1);
    AppendAssoc(prefix, done + StringEncoded(entries[i].0), Encoded(entries[i].1));
    AppendAssoc(prefix, done, StringEncoded(entries[i].0));
  }

  lemma ItemWritten(items: seq<BObject>, i: nat, prefix: seq<byte>)
    requires i < |items|
    ensures prefix + ItemsEncoded(items[..i]) + Encoded(items[i]) == prefix + ItemsEncoded(items[..i + 1])
  {
    assert items[..i + 1] == items[..i] + [items[i]];
    ItemsEncodedAppend(items[..i], items[i]);
    AppendAssoc(prefix, ItemsEncoded(items[..i]), Encoded(items[i]));
  }

  /** The stream after writing an opening byte, a body and a closing byte. */
  lemma Enclosed(prefix: seq<byte>, open: byte, body: seq<byte>, close: byte)
    ensures prefix + [open] + body + [close] == prefix + ([open] + body + [close])
  {
    AppendAssoc(prefix, [open] + body, [close]);
    AppendAssoc(prefix, [open], body);
  }

  /** `encodeList`: 'l', each item in order, then 'e'. */
  method EncodeList(w: Sink, t: BObject) returns (length: nat)
    requires t.BList?
    modifies w
    ensures w.written == old(w.written) + Encoded(t)
    ensures length == |Encoded(t)|
    decreases t, 1
  {
    var items := t.items;
    ghost var start := w.written;
    w.Write([ASCII_L]);
    length := 2;
    var i := 0;
    while i < |items|
      invariant 0 <= i <= |items|
      invariant w.written == start + [ASCII_L] + ItemsEncoded(items[..i])
      invariant length == 2 + |ItemsEncoded(items[..i])|
    {
      var itemLength := Bencode(w, items[i]);
      length := length + itemLength;
      ItemWritten(items, i, start + [ASCII_L]);
      i := i + 1;
    }
    w.Write([ASCII_E]);
    assert items[..i] == items;
    Enclosed(start, ASCII_L, ItemsEncoded(items), ASCII_E);
  }

  /** `encodeString`: the decimal length, ':', the bytes; returns digits + 1 + size. */
  method EncodeString(w: Sink, value: seq<byte>) returns (length: nat)
    modifies w
    ensures w.written == old(w.written) + StringEncoded(value)
    ensures length == |DecimalText(|value|)| + 1 + |value|
  {
    var lenStr := DecimalText(|value|);
    w.Write(lenStr);
    w.Write([ASCII_COLON]);
    w.Write(value);
    length := |lenStr| + 1 + |value|;
  }

  /** `encodeInt`: the bytes of "i${value}e"; returns their number. */
  method EncodeInt(w: Sink, value: int) returns (length: nat)
    modifies w
    ensures w.written == old(w.written) + IntEncoded(value)
    ensures length == |IntEncoded(value)|
  {
    var intStr := [ASCII_I] + SignedText(value) + [ASCII_E];
    w.Write(intStr);
    length := |intStr|;
  }
}
