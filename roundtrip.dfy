/**
 * Parsing what the encoder writes gives back the tree, and the parser stops
 * right after it: `parse` applied to `bencode(t)` followed by anything yields
 * `t` and leaves the cursor `|bencode(t)|` bytes further on.
 */
module RoundTrip {
  import opened Wrappers
  import opened Bytes
  import opened BObjects
  import opened Parser
  import opened Encoder

  /** The bytes `w` occur in `s` at position `i`, read one byte at a time as the parser does. */
  predicate At(s: seq<byte>, i: nat, w: seq<byte>)
    decreases |w|
  {
    if w == [] then i <= |s| else i < |s| && s[i] == w[0] && At(s, i + 1, w[1..])
  }

  lemma {:induction false} AtIndex(s: seq<byte>, i: nat, w: seq<byte>)
    ensures At(s, i, w) <==> i + |w| <= |s| && forall k :: 0 <= k < |w| ==> s[i + k] == w[k]
    decreases |w|
  {
    if w != [] {
      AtIndex(s, i + 1, w[1..]);
      if i + |w| <= |s| && forall k :: 0 <= k < |w| ==> s[i + k] == w[k] {
        assert s[i + 0] == w[0];
        forall k | 0 <= k < |w[1..]| ensures s[i + 1 + k] == w[1..][k] {
          assert s[i + (k + 1)] == w[k + 1];
        }
      }
    }
  }

  lemma AtSlice(s: seq<byte>, i: nat, w: seq<byte>)
    requires At(s, i, w)
    ensures i + |w| <= |s| && s[i..i + |w|] == w
  {
    AtIndex(s, i, w);
    forall k | 0 <= k < |w| ensures s[i..i + |w|][k] == w[k] {
      assert s[i + k] == w[k];
    }
  }

  lemma {:induction false} AtSplit(s: seq<byte>, i: nat, a: seq<byte>, b: seq<byte>)
    requires At(s, i, a + b)
    ensures At(s, i, a) && At(s, i + |a|, b)
    decreases |a|
  {
    if a == [] {
      assert a + b == b;
    } else {
      assert (a + b)[0] == a[0] && (a + b)[1..] == a[1..] + b;
      AtSplit(s, i + 1, a[1..], b);
    }
  }

  lemma AtHead(s: seq<byte>, i: nat, b: byte, w: seq<byte>)
    requires At(s, i, [b] + w)
    ensures i < |s| && s[i] == b && At(s, i + 1, w)
  {
    assert ([b] + w)[1..] == w;
  }

  /** `r` is a successful read of `t` that stops just before position `end`. */
  predicate Yields<T(==)>(r: Result<(T, nat), ParseError>, t: T, end: nat) {
    r.Ok? && r.value.0 == t && r.value.1 == end
  }

  lemma {:induction false} ScanToFinds(s: seq<byte>, i: nat, j: nat, delim: byte)
    requires i <= j < |s| && s[j] == delim
    requires forall k :: i <= k < j ==> s[k] != delim
    ensures ScanTo(s, i, delim) == Some(j)
    decreases j - i
  {
    if i < j {
      ScanToFinds(s, i + 1, j, delim);
    }
  }

  /** The first byte of an encoding is the one `parse` dispatches on for that kind. */
  lemma EncodedLeads(t: BObject)
    ensures 0 < |Encoded(t)| && Leads(Encoded(t)[0], t)
  {
    if t.BStr? {
      DecimalTextDigits(|t.bytes|);
      assert Encoded(t)[0] == DecimalText(|t.bytes|)[0];
    }
  }

  /** `decodeString` given where the ':' is, the length text before it and the bytes after it. */
  lemma DecodeStringAtFrom(s: seq<byte>, i: nat, c: nat, b: seq<byte>)
    requires i <= c < |s| && ScanTo(s, i, ASCII_COLON) == Some(c)
    requires ParseInt(s[i..c]) == Some(|b|) && c + 1 + |b| <= |s| && s[c + 1..c + 1 + |b|] == b
    ensures Yields(DecodeStringAt(s, i), b, c + 1 + |b|)
  {
  }

  lemma DecodeStringAtEncoded(b: seq<byte>, s: seq<byte>, i: nat)
    requires |b| <= INT_MAX && At(s, i, StringEncoded(b))
    ensures Yields(DecodeStringAt(s, i), b, i + |StringEncoded(b)|)
  {
    var c := StringLayout(b, s, i);
    SignedRoundTrip(|b|);
    assert SignedText(|b|) == DecimalText(|b|);
    DecodeStringAtFrom(s, i, c, b);
  }

  /** Where the pieces of an encoded string lie in the input. */
  lemma StringLayout(b: seq<byte>, s: seq<byte>, i: nat) returns (c: nat)
    requires At(s, i, StringEncoded(b))
    ensures c == i + |DecimalText(|b|)| && i <= c < |s| && s[i..c] == DecimalText(|b|)
    ensures ScanTo(s, i, ASCII_COLON) == Some(c)
    ensures c + 1 + |b| <= |s| && s[c + 1..c + 1 + |b|] == b
  {
    var d := DecimalText(|b|);
    c := i + |d|;
    DecimalTextDigits(|b|);
    assert StringEncoded(b) == d + ([ASCII_COLON] + b);
    AtSplit(s, i, d, [ASCII_COLON] + b);
    AtHead(s, c, ASCII_COLON, b);
    AtSlice(s, c + 1, b);
    LengthTextScanned(s, i, d);
  }

  /** The decimal length text is followed by the first ':' after it. */
  lemma LengthTextScanned(s: seq<byte>, i: nat, d: seq<byte>)
    requires At(s, i, d) && i + |d| < |s| && s[i + |d|] == ASCII_COLON && AllDigits(d)
    ensures s[i..i + |d|] == d && ScanTo(s, i, ASCII_COLON) == Some(i + |d|)
  {
    AtSlice(s, i, d);
    assert forall k :: i <= k < i + |d| ==> s[k] == s[i..i + |d|][k - i];
    ScanToFinds(s, i, i + |d|, ASCII_COLON);
  }

  /** `decodeInt` given where the 'e' is and the number text before it. */
  lemma DecodeIntAtFrom(s: seq<byte>, i: nat, c: nat, n: int)
    requires i < c < |s| && ScanTo(s, i + 1, ASCII_E) == Some(c) && ParseLong(s[i + 1..c]) == Some(n)
    ensures Yields(DecodeIntAt(s, i), BInt(n), c + 1)
  {
  }

  lemma DecodeIntAtEncoded(n: int, s: seq<byte>, i: nat)
    requires IsLong(n) && At(s, i, IntEncoded(n))
    ensures Yields(DecodeIntAt(s, i), BInt(n), i + |IntEncoded(n)|)
  {
    var d := SignedText(n);
    SignedTextDigits(n);
    assert IntEncoded(n) == [ASCII_I] + (d + [ASCII_E]);
    AtHead(s, i, ASCII_I, d + [ASCII_E]);
    AtSplit(s, i + 1, d, [ASCII_E]);
    AtHead(s, i + 1 + |d|, ASCII_E, []);
    AtSlice(s, i + 1, d);
    assert forall k :: i + 1 <= k < i + 1 + |d| ==> s[k] == s[i + 1..i + 1 + |d|][k - i - 1];
    ScanToFinds(s, i + 1, i + 1 + |d|, ASCII_E);
    SignedRoundTrip(n);
    DecodeIntAtFrom(s, i, i + 1 + |d|, n);
  }

  /** One turn of the `decodeList` loop. */
  lemma ListItemsStep(s: seq<byte>, j: nat, acc: seq<BObject>, v: BObject, k: nat)
    requires j < |s| && s[j] != ASCII_E && Yields(ParseAt(s, j), v, k)
    ensures ListItemsFrom(s, j, acc) == ListItemsFrom(s, k, acc + [v])
  {
  }

  /** One turn of the `decodeDict` loop. */
  lemma DictEntriesStep(s: seq<byte>, j: nat, acc: Entries, key: seq<byte>, k: nat, v: BObject, m: nat)
    requires j < |s| && s[j] != ASCII_E
    requires Yields(DecodeStringAt(s, j), key, k) && Yields(ParseAt(s, k), v, m)
    ensures DictEntriesFrom(s, j, acc) == DictEntriesFrom(s, m, Put(acc, key, v))
  {
  }

  lemma ListAt(s: seq<byte>, i: nat)
    requires i < |s| && s[i] == ASCII_L
    ensures ParseAt(s, i) == ListItemsFrom(s, i + 1, [])
  {
  }

  lemma DictAt(s: seq<byte>, i: nat)
    requires i < |s| && s[i] == ASCII_D
    ensures ParseAt(s, i) == DictEntriesFrom(s, i + 1, [])
  {
  }

  lemma StrAt(s: seq<byte>, i: nat, b: seq<byte>, k: nat)
    requires i < |s| && IsDigit(s[i]) && Yields(DecodeStringAt(s, i), b, k)
    ensures Yields(ParseAt(s, i), BStr(b), k)
  {
  }

  lemma IntAt(s: seq<byte>, i: nat)
    requires i < |s| && s[i] == ASCII_I
    ensures ParseAt(s, i) == DecodeIntAt(s, i)
  {
  }

  /** Round trip: `parse` reads back exactly the tree `bencode` wrote, and no more. */
  lemma {:induction false} ParseEncoded(t: BObject, s: seq<byte>, i: nat)
    requires WellFormed(t) && At(s, i, Encoded(t))
    ensures Yields(ParseAt(s, i), t, i + |Encoded(t)|)
    decreases t, 1
  {
    match t
    case BStr(b) =>
      DecodeStringAtEncoded(b, s, i);
      EncodedLeads(t);
      StrAt(s, i, b, i + |Encoded(t)|);
    case BInt(n) =>
      DecodeIntAtEncoded(n, s, i);
      IntAt(s, i);
    case BList(items) =>
      ListParsed(items, s, i);
    case BDict(entries) =>
      assert Encoded(t) == [ASCII_D] + (EntriesEncoded(entries) + [ASCII_E]);
      DictParsed(entries, s, i);
  }

  lemma {:induction false} ListParsed(items: seq<BObject>, s: seq<byte>, i: nat)
    requires WellFormed(BList(items)) && At(s, i, [ASCII_L] + ItemsEncoded(items) + [ASCII_E])
    ensures Yields(ParseAt(s, i), BList(items), i + |ItemsEncoded(items)| + 2)
    decreases BList(items), 0
  {
    assert [ASCII_L] + ItemsEncoded(items) + [ASCII_E] == [ASCII_L] + (ItemsEncoded(items) + [ASCII_E]);
    AtHead(s, i, ASCII_L, ItemsEncoded(items) + [ASCII_E]);
    ListAt(s, i);
    ItemsParsed(items, s, i + 1, []);
    assert [] + items == items;
  }

  lemma {:induction false} DictParsed(entries: Entries, s: seq<byte>, i: nat)
    requires WellFormed(BDict(entries)) && At(s, i, [ASCII_D] + (EntriesEncoded(entries) + [ASCII_E]))
    ensures Yields(ParseAt(s, i), BDict(entries), i + |EntriesEncoded(entries)| + 2)
    decreases BDict(entries), 0
  {
    AtHead(s, i, ASCII_D, EntriesEncoded(entries) + [ASCII_E]);
    DictBodyParsed(entries, s, i + 1);
    DictAt(s, i);
  }

  /** Everything after the 'd' of a well-formed dictionary, read back. */
  lemma {:induction false} DictBodyParsed(entries: Entries, s: seq<byte>, j: nat)
    requires WellFormed(BDict(entries)) && At(s, j, EntriesEncoded(entries) + [ASCII_E])
    ensures Yields(DictEntriesFrom(s, j, []), BDict(entries), j + |EntriesEncoded(entries)| + 1)
    decreases entries, 1
  {
    DictReadable(entries);
    EntriesParsed(entries, s, j, []);
  }

  lemma DictReadable(entries: Entries)
    requires WellFormed(BDict(entries))
    ensures EntriesReadable(entries) && PutAll([], entries) == entries
  {
    assert [] + entries == entries;
    PutAllFresh([], entries);
  }

  lemma {:induction false} ItemsParsed(items: seq<BObject>, s: seq<byte>, j: nat, acc: seq<BObject>)
    requires WellFormed(BList(items))
    requires At(s, j, ItemsEncoded(items) + [ASCII_E])
    ensures Yields(ListItemsFrom(s, j, acc), BList(acc + items), j + |ItemsEncoded(items)| + 1)
    decreases items, 0
  {
    if items == [] {
      AtHead(s, j, ASCII_E, []);
      assert acc + items == acc;
    } else {
      var x, rest := ItemsHead(items, acc);
      var k := ItemParsed(s, j, acc, x, rest);
      ItemsParsed(items[1..], s, k, acc + [x]);
    }
  }

  /** The first item of the encoding, and the encoding of the others after it. */
  lemma ItemsHead(items: seq<BObject>, acc: seq<BObject>) returns (x: BObject, rest: seq<byte>)
    requires WellFormed(BList(items)) && items != []
    ensures x == items[0] && WellFormed(x) && WellFormed(BList(items[1..]))
    ensures rest == ItemsEncoded(items[1..]) + [ASCII_E]
    ensures ItemsEncoded(items) + [ASCII_E] == Encoded(x) + rest
    ensures acc + [x] + items[1..] == acc + items
  {
    x := items[0];
    rest := ItemsEncoded(items[1..]) + [ASCII_E];
    assert items == [x] + items[1..];
    assert WellFormed(BList(items[1..])) by {
      forall p | 0 <= p < |items[1..]| ensures WellFormed(items[1..][p]) {
        assert items[1..][p] == items[p + 1];
      }
    }
  }

  /** One list item, read back. */
  lemma {:induction false} ItemParsed(s: seq<byte>, j: nat, acc: seq<BObject>, x: BObject, rest: seq<byte>)
    returns (k: nat)
    requires WellFormed(x) && At(s, j, Encoded(x) + rest)
    ensures k == j + |Encoded(x)| && At(s, k, rest)
    ensures ListItemsFrom(s, j, acc) == ListItemsFrom(s, k, acc + [x])
    decreases x, 2
  {
    k := j + |Encoded(x)|;
    AtSplit(s, j, Encoded(x), rest);
    EncodedLeads(x);
    assert s[j] == Encoded(x)[0];
    ParseEncoded(x, s, j);
    ListItemsStep(s, j, acc, x, k);
  }

  /** `map[key] = value` for each entry in turn, as the `decodeDict` loop does. */
  function PutAll(acc: Entries, entries: Entries): Entries
    decreases entries
  {
    if entries == [] then acc
    else PutAll(Put(acc, entries[0].0, entries[0].1), entries[1..])
  }

  /** Every key and value of the entries is one the parser can produce. */
  predicate EntriesReadable(entries: Entries) {
    forall i :: 0 <= i < |entries| ==> |entries[i].0| <= INT_MAX && WellFormed(entries[i].1)
  }

  lemma {:induction false} EntriesParsed(entries: Entries, s: seq<byte>, j: nat, acc: Entries)
    requires EntriesReadable(entries)
    requires At(s, j, EntriesEncoded(entries) + [ASCII_E])
    ensures Yields(DictEntriesFrom(s, j, acc), BDict(PutAll(acc, entries)), j + |EntriesEncoded(entries)| + 1)
    decreases entries, 0
  {
    if entries == [] {
      AtHead(s, j, ASCII_E, []);
    } else {
      var rest := EntriesHead(entries);
      var m := EntryParsed(s, j, acc, entries[0].0, entries[0].1, rest);
      EntriesParsed(entries[1..], s, m, Put(acc, entries[0].0, entries[0].1));
    }
  }

  /** The first entry of the encoding, and the encoding of the others after it. */
  lemma EntriesHead(entries: Entries) returns (rest: seq<byte>)
    requires EntriesReadable(entries) && entries != []
    ensures entries[0].1 < entries[0]
    ensures |entries[0].0| <= INT_MAX && WellFormed(entries[0].1) && EntriesReadable(entries[1..])
    ensures rest == EntriesEncoded(entries[1..]) + [ASCII_E]
    ensures EntriesEncoded(entries) + [ASCII_E] == StringEncoded(entries[0].0) + Encoded(entries[0].1) + rest
  {
    rest := EntriesEncoded(entries[1..]) + [ASCII_E];
    assert entries[0].1 < entries[0];
    assert EntriesReadable(entries[1..]) by {
      forall i | 0 <= i < |entries[1..]| ensures |entries[1..][i].0| <= INT_MAX && WellFormed(entries[1..][i].1) {
        assert entries[1..][i] == entries[i + 1];
      }
    }
  }

  /** With no key repeated, inserting the entries one by one appends them in order. */
  lemma {:induction false} PutAllFresh(acc: Entries, entries: Entries)
    requires KeysUnique(acc + entries)
    ensures PutAll(acc, entries) == acc + entries
    decreases entries
  {
    if entries == [] {
      assert acc + entries == acc;
    } else {
      FreshHead(acc, entries);
      PutFresh(acc, entries[0].0, entries[0].1);
      PutAllFresh(acc + [entries[0]], entries[1..]);
    }
  }

  /** The first of the entries still to insert is a new key, and the rest stay unique. */
  lemma FreshHead(acc: Entries, entries: Entries)
    requires KeysUnique(acc + entries) && entries != []
    ensures entries[0].0 !in Keys(acc)
    ensures acc + [entries[0]] + entries[1..] == acc + entries
    ensures KeysUnique(acc + [entries[0]] + entries[1..])
  {
    var all := acc + entries;
    var e := entries[0];
    assert all[|acc|] == e;
    forall p | 0 <= p < |acc| ensures acc[p].0 != e.0 {
      assert all[p] == acc[p];
    }
    assert entries == [e] + entries[1..];
    AppendAssoc(acc, [e], entries[1..]);
  }

  /** `Put` of a key not yet present appends it. */
  lemma PutFresh(acc: Entries, k: seq<byte>, v: BObject)
    requires k !in Keys(acc)
    ensures Put(acc, k, v) == acc + [(k, v)]
  {
    KeyIndexFound(acc, k);
  }

  /** One turn of the `decodeDict` loop over an encoded entry. */
  lemma {:induction false} EntryParsed(s: seq<byte>, j: nat, acc: Entries, k: seq<byte>, v: BObject, rest: seq<byte>)
    returns (m: nat)
    requires |k| <= INT_MAX && WellFormed(v)
    requires At(s, j, StringEncoded(k) + Encoded(v) + rest)
    ensures m == j + |StringEncoded(k)| + |Encoded(v)| && At(s, m, rest)
    ensures DictEntriesFrom(s, j, acc) == DictEntriesFrom(s, m, Put(acc, k, v))
    decreases v, 3
  {
    var p;
    p, m := EntryRead(s, j, k, v, rest);
    DictEntriesStep(s, j, acc, k, p, v, m);
  }

  /** The key and the value of one encoded entry, read back. */
  lemma {:induction false} EntryRead(s: seq<byte>, j: nat, k: seq<byte>, v: BObject, rest: seq<byte>)
    returns (p: nat, m: nat)
    requires |k| <= INT_MAX && WellFormed(v)
    requires At(s, j, StringEncoded(k) + Encoded(v) + rest)
    ensures p == j + |StringEncoded(k)| && m == p + |Encoded(v)| && At(s, m, rest)
    ensures j < |s| && s[j] != ASCII_E && Yields(DecodeStringAt(s, j), k, p)
    ensures Yields(ParseAt(s, p), v, m)
    decreases v, 2
  {
    p := j + |StringEncoded(k)|;
    m := p + |Encoded(v)|;
    AtSplit(s, j, StringEncoded(k) + Encoded(v), rest);
    KeyRead(s, j, k, Encoded(v));
    ParseEncoded(v, s, p);
  }

  lemma KeyRead(s: seq<byte>, j: nat, k: seq<byte>, w: seq<byte>)
    requires |k| <= INT_MAX && At(s, j, StringEncoded(k) + w)
    ensures j < |s| && s[j] != ASCII_E && At(s, j + |StringEncoded(k)|, w)
    ensures Yields(DecodeStringAt(s, j), k, j + |StringEncoded(k)|)
  {
    AtSplit(s, j, StringEncoded(k), w);
    EncodedLeads(BStr(k));
    assert s[j] == StringEncoded(k)[0];
    DecodeStringAtEncoded(k, s, j);
  }

  /** The whole input: parsing `bencode(t) + rest` yields `t` and leaves `rest` unread. */
  lemma ParseEncodedPrefix(t: BObject, rest: seq<byte>)
    requires WellFormed(t)
    ensures ParseAt(Encoded(t) + rest, 0) == Ok((t, |Encoded(t)|))
  {
    var e := Encoded(t);
    var s := e + rest;
    AtIndex(s, 0, e);
    ParseEncoded(t, s, 0);
    var r := ParseAt(s, 0);
    assert r.value.0 == t && r.value.1 == |e|;
    assert r.value == (t, |e|);
  }
}
