/**
 * The canonical Bencode tree (`BObject` in Parser.kt) and the insertion-ordered
 * dictionary (`mutableMapOf`, a LinkedHashMap) that the parser and the mapper
 * fill.
 */
module BObjects {
  import opened Wrappers
  import opened Bytes

  /**
   * `BStr` holds raw bytes and, being a value, compares by content; `BInt` holds
   * a Kotlin `Long`; `BList` keeps its order; `BDict` keeps the order in which
   * its keys were first inserted (keys are the UTF-8 bytes of the Kotlin String).
   */
  datatype BObject =
    | BStr(bytes: seq<byte>)
    | BInt(n: int)
    | BList(items: seq<BObject>)
    | BDict(entries: seq<(seq<byte>, BObject)>)

  type Entries = seq<(seq<byte>, BObject)>

  function Keys(entries: Entries): (r: seq<seq<byte>>)
    ensures |r| == |entries|
    ensures forall i :: 0 <= i < |entries| ==> r[i] == entries[i].0
  {
    if entries == [] then [] else [entries[0].0] + Keys(entries[1..])
  }

  predicate KeysUnique(entries: Entries) {
    forall i, j :: 0 <= i < j < |entries| ==> entries[i].0 != entries[j].0
  }

  /** Position of key `k`, if present (the first one, the only one when keys are unique). */
  function KeyIndex(entries: Entries, k: seq<byte>): (r: Option<nat>)
    ensures r.Some? ==> r.value < |entries| && entries[r.value].0 == k
  {
    if entries == [] then None
    else if entries[0].0 == k then Some(0)
    else match KeyIndex(entries[1..], k)
      case None => None
      case Some(j) => Some(j + 1)
  }

  /** The key is found exactly when it is one of the keys, and then at its first occurrence. */
  lemma {:induction false} KeyIndexFound(entries: Entries, k: seq<byte>)
    ensures KeyIndex(entries, k).None? <==> k !in Keys(entries)
    ensures KeyIndex(entries, k).Some? ==> forall i :: 0 <= i < KeyIndex(entries, k).value ==> entries[i].0 != k
  {
    if entries != [] {
      KeyIndexFound(entries[1..], k);
      assert Keys(entries) == [entries[0].0] + Keys(entries[1..]);
    }
  }

  /** `map[k]`: the value of an entry with key `k`, or nothing exactly when `k` is not a key. */
  function Lookup(entries: Entries, k: seq<byte>): (r: Option<BObject>)
    ensures r.None? <==> k !in Keys(entries)
    ensures r.Some? ==> (k, r.value) in entries
  {
    KeyIndexFound(entries, k);
    match KeyIndex(entries, k)
    case None => None
    case Some(j) => Some(entries[j].1)
  }

  /**
   * `map[k] = v` on a LinkedHashMap: a key already present keeps its place and
   * takes the new value; a new key goes last.
   */
  function Put(entries: Entries, k: seq<byte>, v: BObject): (r: Entries)
    ensures (k, v) in r
    ensures k in Keys(entries) ==> |r| == |entries|
    ensures k !in Keys(entries) ==> r == entries + [(k, v)]
  {
    KeyIndexFound(entries, k);
    match KeyIndex(entries, k)
    case Some(j) =>
      assert entries[j := (k, v)][j] == (k, v);
      entries[j := (k, v)]
    case None =>
      assert (entries + [(k, v)])[|entries|] == (k, v);
      entries + [(k, v)]
  }

  /**
   * What `map[k] = v` promises: `k` now maps to `v`, every other key keeps its
   * value, the key order is kept with a new key last, and no key is doubled.
   */
  lemma PutSpec(entries: Entries, k: seq<byte>, v: BObject)
    ensures KeysUnique(entries) ==> KeysUnique(Put(entries, k, v))
    ensures Lookup(Put(entries, k, v), k) == Some(v)
    ensures forall k' :: k' != k ==> Lookup(Put(entries, k, v), k') == Lookup(entries, k')
    ensures k in Keys(entries) ==> Keys(Put(entries, k, v)) == Keys(entries)
    ensures k !in Keys(entries) ==> Keys(Put(entries, k, v)) == Keys(entries) + [k]
    ensures |entries| <= |Put(entries, k, v)| <= |entries| + 1
    ensures forall i :: 0 <= i < |Put(entries, k, v)| ==>
      Put(entries, k, v)[i] == (k, v) || (i < |entries| && Put(entries, k, v)[i] == entries[i])
  {
    PutShape(entries, k, v);
    KeyIndexFound(entries, k);
    match KeyIndex(entries, k)
    case Some(j) => PutPresent(entries, j, k, v);
    case None => PutAbsentLookup(entries, k, v);
  }

  /** `map[k] = v` keeps keys unique, and every entry is an old one or the new pair. */
  lemma PutShape(entries: Entries, k: seq<byte>, v: BObject)
    ensures KeysUnique(entries) ==> KeysUnique(Put(entries, k, v))
    ensures k in Keys(entries) ==> Keys(Put(entries, k, v)) == Keys(entries)
    ensures k !in Keys(entries) ==> Keys(Put(entries, k, v)) == Keys(entries) + [k]
    ensures |entries| <= |Put(entries, k, v)| <= |entries| + 1
    ensures forall i :: 0 <= i < |Put(entries, k, v)| ==>
      Put(entries, k, v)[i] == (k, v) || (i < |entries| && Put(entries, k, v)[i] == entries[i])
  {
    KeyIndexFound(entries, k);
    match KeyIndex(entries, k)
    case Some(j) => PutPresentKeys(entries, j, k, v);
    case None => PutAbsentKeys(entries, k, v);
  }

  /** A dictionary the parser can produce stays one after `map[k] = v`. */
  lemma PutWellFormed(entries: Entries, k: seq<byte>, v: BObject)
    ensures WellFormed(BDict(entries)) && |k| <= INT_MAX && WellFormed(v) ==> WellFormed(BDict(Put(entries, k, v)))
  {
    if WellFormed(BDict(entries)) && |k| <= INT_MAX && WellFormed(v) {
      var r := Put(entries, k, v);
      PutShape(entries, k, v);
      forall i | 0 <= i < |r| ensures |r[i].0| <= INT_MAX && WellFormed(r[i].1) {
        if r[i] != (k, v) {
          assert r[i] == entries[i];
        }
      }
    }
  }

  lemma PutPresentKeys(entries: Entries, j: nat, k: seq<byte>, v: BObject)
    requires KeyIndex(entries, k) == Some(j)
    ensures KeysUnique(entries) ==> KeysUnique(entries[j := (k, v)])
    ensures Keys(entries[j := (k, v)]) == Keys(entries)
  {
  }

  lemma PutPresent(entries: Entries, j: nat, k: seq<byte>, v: BObject)
    requires KeyIndex(entries, k) == Some(j)
    ensures Lookup(entries[j := (k, v)], k) == Some(v)
    ensures forall k' :: k' != k ==> Lookup(entries[j := (k, v)], k') == Lookup(entries, k')
  {
    var r := entries[j := (k, v)];
    forall k' ensures KeyIndex(r, k') == KeyIndex(entries, k') {
      KeyIndexSameKeys(r, entries, k');
    }
  }

  lemma PutAbsentKeys(entries: Entries, k: seq<byte>, v: BObject)
    requires k !in Keys(entries)
    ensures KeysUnique(entries) ==> KeysUnique(entries + [(k, v)])
    ensures Keys(entries + [(k, v)]) == Keys(entries) + [k]
  {
    var r := entries + [(k, v)];
    var ks := Keys(entries) + [k];
    assert forall i :: 0 <= i < |r| ==> Keys(r)[i] == ks[i];
    assert forall i :: 0 <= i < |entries| ==> entries[i].0 != k;
  }

  lemma PutAbsentLookup(entries: Entries, k: seq<byte>, v: BObject)
    requires k !in Keys(entries)
    ensures Lookup(entries + [(k, v)], k) == Some(v)
    ensures forall k' :: k' != k ==> Lookup(entries + [(k, v)], k') == Lookup(entries, k')
  {
    var r := entries + [(k, v)];
    forall k' | k' != k ensures Lookup(r, k') == Lookup(entries, k') {
      KeyIndexAppend(entries, k', k, v);
    }
    KeyIndexAppend(entries, k, k, v);
  }

  lemma KeyIndexSameKeys(a: Entries, b: Entries, k: seq<byte>)
    requires |a| == |b| && forall i :: 0 <= i < |a| ==> a[i].0 == b[i].0
    ensures KeyIndex(a, k) == KeyIndex(b, k)
  {
    if a != [] {
      KeyIndexSameKeys(a[1..], b[1..], k);
    }
  }

  lemma KeyIndexAppend(entries: Entries, k: seq<byte>, k0: seq<byte>, v: BObject)
    ensures k != k0 ==> KeyIndex(entries + [(k0, v)], k) == KeyIndex(entries, k)
    ensures k == k0 && k !in Keys(entries) ==> KeyIndex(entries + [(k0, v)], k) == Some(|entries|)
  {
    if entries != [] {
      assert (entries + [(k0, v)])[1..] == entries[1..] + [(k0, v)];
      assert Keys(entries) == [entries[0].0] + Keys(entries[1..]);
      KeyIndexAppend(entries[1..], k, k0, v);
    }
  }

  /**
   * The trees the Kotlin types can hold: byte arrays at most `Int.MAX_VALUE`
   * long, `Long` integers, and maps with one entry per key.
   */
  predicate WellFormed(t: BObject) {
    match t
    case BStr(b) => |b| <= INT_MAX
    case BInt(n) => IsLong(n)
    case BList(items) => forall i :: 0 <= i < |items| ==> WellFormed(items[i])
    case BDict(entries) =>
      && KeysUnique(entries)
      && forall i :: 0 <= i < |entries| ==> |entries[i].0| <= INT_MAX && WellFormed(entries[i].1)
  }
}
