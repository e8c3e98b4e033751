/**
 * The parser of Parser.kt (com.lanlinju.bencode, and the earlier com.lanli.bencode,
 * whose logic is the same). The functions ending in `At` say what reading from
 * position `i` of the input yields: the value and the position just past it, or the
 * exception. The class `Reader` is the cursor over the input stream, and its
 * methods are the Kotlin functions, proved to behave as those functions say.
 */
module Parser {
  import opened Wrappers
  import opened Bytes
  import opened BObjects

  datatype ParseError =
    | InvalidData     // "Invalid Bencode data": the lookahead byte starts no value
    | NumberFormat    // `toInt` / `toLong` rejected the text before ':' or 'e'
    | NegativeLength  // `readNBytes` was given a negative length
    | EndOfInput      // the input ended inside a length prefix, an integer or a string body

  /** The bytes `parse` dispatches on: a digit, 'i', 'l' or 'd'. */
  predicate StartsValue(b: byte) {
    IsDigit(b) || b == ASCII_I || b == ASCII_L || b == ASCII_D
  }

  /** The lookahead byte that leads to a tree of this kind. */
  predicate Leads(b: byte, t: BObject) {
    match t
    case BStr(_) => IsDigit(b)
    case BInt(_) => b == ASCII_I
    case BList(_) => b == ASCII_L
    case BDict(_) => b == ASCII_D
  }

  /** Where the first `delim` at or after `i` is: the `while (true)` loops that collect text. */
  function ScanTo(s: seq<byte>, i: nat, delim: byte): (r: Option<nat>)
    requires i <= |s|
    ensures r.Some? ==> i <= r.value < |s| && s[r.value] == delim
    decreases |s| - i
  {
    if i == |s| then None
    else if s[i] == delim then Some(i)
    else ScanTo(s, i + 1, delim)
  }

  /** `ScanTo` finds the first `delim` at or after `i`, and None means there is none. */
  lemma {:induction false} ScanToFirst(s: seq<byte>, i: nat, delim: byte)
    requires i <= |s|
    ensures ScanTo(s, i, delim).Some? ==> forall k :: i <= k < ScanTo(s, i, delim).value ==> s[k] != delim
    ensures ScanTo(s, i, delim).None? <==> forall k :: i <= k < |s| ==> s[k] != delim
    decreases |s| - i
  {
    if i < |s| && s[i] != delim {
      ScanToFirst(s, i + 1, delim);
    }
  }

  /**
   * `decodeString`: the text up to ':' read as an `Int`, then exactly that many
   * bytes. Yields the bytes and the position just past them.
   */
  function DecodeStringAt(s: seq<byte>, i: nat): (r: Result<(seq<byte>, nat), ParseError>)
    requires i <= |s|
    ensures r.Ok? ==> i + |r.value.0| < r.value.1 <= |s| && |r.value.0| <= INT_MAX
  {
    match ScanTo(s, i, ASCII_COLON)
    case None => Err(EndOfInput)
    case Some(j) =>
      match ParseInt(s[i..j])
      case None => Err(NumberFormat)
      case Some(n) =>
        if n < 0 then Err(NegativeLength)
        else if j + 1 + n > |s| then Err(EndOfInput)
        else Ok((s[j + 1..j + 1 + n], j + 1 + n))
  }

  /** The string read is the bytes just before the position it returns, after a ':'. */
  lemma DecodeStringAtBytes(s: seq<byte>, i: nat)
    requires i <= |s| && DecodeStringAt(s, i).Ok?
    ensures var (b, end) := DecodeStringAt(s, i).value;
      s[end - |b| - 1] == ASCII_COLON && b == s[end - |b|..end]
  {
  }

  /** `decodeInt`: skip the 'i', read the text up to 'e' as a `Long`. */
  function DecodeIntAt(s: seq<byte>, i: nat): (r: Result<(BObject, nat), ParseError>)
    requires i < |s|
    ensures r.Ok? ==> i < r.value.1 <= |s| && r.value.0.BInt? && IsLong(r.value.0.n)
  {
    match ScanTo(s, i + 1, ASCII_E)
    case None => Err(EndOfInput)
    case Some(j) =>
      match ParseLong(s[i + 1..j])
      case None => Err(NumberFormat)
      case Some(n) => Ok((BInt(n), j + 1))
  }

  /** `parse`: look at the next byte without consuming it and read one whole value. */
  function ParseAt(s: seq<byte>, i: nat): (r: Result<(BObject, nat), ParseError>)
    ensures r.Ok? ==> i < r.value.1 <= |s|
    decreases |s| - i, 1
  {
    if i >= |s| then Err(InvalidData)
    else if IsDigit(s[i]) then
      match DecodeStringAt(s, i)
      case Err(e) => Err(e)
      case Ok((b, k)) => Ok((BStr(b), k))
    else if s[i] == ASCII_I then DecodeIntAt(s, i)
    else if s[i] == ASCII_L then DecodeListAt(s, i)
    else if s[i] == ASCII_D then DecodeDictAt(s, i)
    else Err(InvalidData)
  }

  /** `decodeList`: skip the 'l', then values until an 'e'. */
  function DecodeListAt(s: seq<byte>, i: nat): (r: Result<(BObject, nat), ParseError>)
    requires i < |s|
    ensures r.Ok? ==> i < r.value.1 <= |s|
    decreases |s| - i, 0
  {
    ListItemsFrom(s, i + 1, [])
  }

  /** The loop of `decodeList`, with the items read so far. */
  function ListItemsFrom(s: seq<byte>, j: nat, items: seq<BObject>): (r: Result<(BObject, nat), ParseError>)
    requires j <= |s|
    ensures r.Ok? ==> j < r.value.1 <= |s|
    decreases |s| - j, 2
  {
    if j < |s| && s[j] == ASCII_E then Ok((BList(items), j + 1))
    else
      match ParseAt(s, j)
      case Err(e) => Err(e)
      case Ok((v, k)) => ListItemsFrom(s, k, items + [v])
  }

  /** `decodeDict`: skip the 'd', then key/value pairs until an 'e'. */
  function DecodeDictAt(s: seq<byte>, i: nat): (r: Result<(BObject, nat), ParseError>)
    requires i < |s|
    ensures r.Ok? ==> i < r.value.1 <= |s|
    decreases |s| - i, 0
  {
    DictEntriesFrom(s, i + 1, [])
  }

  /**
   * The loop of `decodeDict`, with the map built so far: a key is always read
   * as a length-prefixed string, and a repeated key overwrites in place.
   */
  function DictEntriesFrom(s: seq<byte>, j: nat, entries: Entries): (r: Result<(BObject, nat), ParseError>)
    requires j <= |s|
    ensures r.Ok? ==> j < r.value.1 <= |s|
    decreases |s| - j, 2
  {
    if j < |s| && s[j] == ASCII_E then Ok((BDict(entries), j + 1))
    else
      match DecodeStringAt(s, j)
      case Err(e) => Err(e)
      case Ok((key, k)) =>
        match ParseAt(s, k)
        case Err(e) => Err(e)
        case Ok((v, m)) => DictEntriesFrom(s, m, Put(entries, key, v))
  }

  /**
   * What `parse` yields: a tree of the kind its first byte announces, one the
   * Kotlin types can hold (string lengths within `Int`, integers within `Long`,
   * one entry per dictionary key); and "Invalid Bencode data" exactly when the
   * next byte starts no value or the input is exhausted.
   */
  lemma {:induction false} ParseAtSpec(s: seq<byte>, i: nat)
    ensures ParseAt(s, i).Ok? ==> WellFormed(ParseAt(s, i).value.0) && Leads(s[i], ParseAt(s, i).value.0)
    ensures i >= |s| || !StartsValue(s[i]) ==> ParseAt(s, i) == Err(InvalidData)
    decreases |s| - i, 0
  {
    if i < |s| && s[i] == ASCII_L {
      ListItemsSpec(s, i + 1, []);
    } else if i < |s| && s[i] == ASCII_D {
      DictEntriesSpec(s, i + 1, []);
    }
  }

  /** The `decodeList` loop keeps the items already read, in order, and adds well-formed ones. */
  lemma {:induction false} ListItemsSpec(s: seq<byte>, j: nat, items: seq<BObject>)
    requires j <= |s|
    ensures ListItemsFrom(s, j, items).Ok? ==>
      ListItemsFrom(s, j, items).value.0.BList? && items <= ListItemsFrom(s, j, items).value.0.items
    ensures ListItemsFrom(s, j, items).Ok? && WellFormed(BList(items)) ==> WellFormed(ListItemsFrom(s, j, items).value.0)
    decreases |s| - j, 1
  {
    if j < |s| && s[j] == ASCII_E {
    } else {
      ParseAtSpec(s, j);
      match ParseAt(s, j)
      case Err(_) =>
      case Ok((v, k)) =>
        ListItemsSpec(s, k, items + [v]);
        if WellFormed(BList(items)) {
          assert WellFormed(BList(items + [v])) by {
            forall p | 0 <= p < |items + [v]| ensures WellFormed((items + [v])[p]) {
              if p < |items| { assert (items + [v])[p] == items[p]; }
            }
          }
        }
    }
  }

  /** The `decodeDict` loop keeps a well-formed map well-formed. */
  lemma {:induction false} DictEntriesSpec(s: seq<byte>, j: nat, entries: Entries)
    requires j <= |s|
    ensures DictEntriesFrom(s, j, entries).Ok? ==> DictEntriesFrom(s, j, entries).value.0.BDict?
    ensures DictEntriesFrom(s, j, entries).Ok? && WellFormed(BDict(entries)) ==>
      WellFormed(DictEntriesFrom(s, j, entries).value.0)
    decreases |s| - j, 1
  {
    if j < |s| && s[j] == ASCII_E {
    } else {
      match DecodeStringAt(s, j)
      case Err(_) =>
      case Ok((key, k)) =>
        ParseAtSpec(s, k);
        match ParseAt(s, k)
        case Err(_) =>
        case Ok((v, m)) =>
          PutWellFormed(entries, key, v);
          DictEntriesSpec(s, m, Put(entries, key, v));
    }
  }

  /** `ie`: an empty integer body is not a number. */
  lemma EmptyIntegerFails(s: seq<byte>, i: nat)
    requires i + 1 < |s| && s[i] == ASCII_I && s[i + 1] == ASCII_E
    ensures ParseAt(s, i) == Err(NumberFormat)
  {
    assert ScanTo(s, i + 1, ASCII_E) == Some(i + 1);
    assert s[i + 1..i + 1] == [];
  }

  /** Bytes after the first delimiter do not move it. */
  lemma {:induction false} ScanToExtend(s: seq<byte>, rest: seq<byte>, i: nat, delim: byte)
    requires i <= |s| && ScanTo(s, i, delim).Some?
    ensures ScanTo(s + rest, i, delim) == ScanTo(s, i, delim)
    decreases |s| - i
  {
    if s[i] != delim {
      ScanToExtend(s, rest, i + 1, delim);
    }
  }

  lemma DecodeStringAtExtend(s: seq<byte>, rest: seq<byte>, i: nat)
    requires i <= |s| && DecodeStringAt(s, i).Ok?
    ensures DecodeStringAt(s + rest, i) == DecodeStringAt(s, i)
  {
    ScanToExtend(s, rest, i, ASCII_COLON);
    var j := ScanTo(s, i, ASCII_COLON).value;
    assert (s + rest)[i..j] == s[i..j];
    var n := ParseInt(s[i..j]).value;
    assert (s + rest)[j + 1..j + 1 + n] == s[j + 1..j + 1 + n];
  }

  lemma DecodeIntAtExtend(s: seq<byte>, rest: seq<byte>, i: nat)
    requires i < |s| && DecodeIntAt(s, i).Ok?
    ensures DecodeIntAt(s + rest, i) == DecodeIntAt(s, i)
  {
    ScanToExtend(s, rest, i + 1, ASCII_E);
    var j := ScanTo(s, i + 1, ASCII_E).value;
    assert (s + rest)[i + 1..j] == s[i + 1..j];
  }

  /**
   * `parse` reads one complete value and nothing after it: whatever bytes
   * follow a value that parses, the same value and end position come out.
   */
  lemma {:induction false} ParseAtExtend(s: seq<byte>, rest: seq<byte>, i: nat)
    requires ParseAt(s, i).Ok?
    ensures ParseAt(s + rest, i) == ParseAt(s, i)
    decreases |s| - i, 1
  {
    if IsDigit(s[i]) {
      DecodeStringAtExtend(s, rest, i);
    } else if s[i] == ASCII_I {
      DecodeIntAtExtend(s, rest, i);
    } else if s[i] == ASCII_L {
      ListItemsExtend(s, rest, i + 1, []);
    } else {
      DictEntriesExtend(s, rest, i + 1, []);
    }
  }

  lemma {:induction false} ListItemsExtend(s: seq<byte>, rest: seq<byte>, j: nat, items: seq<BObject>)
    requires j <= |s| && ListItemsFrom(s, j, items).Ok?
    ensures ListItemsFrom(s + rest, j, items) == ListItemsFrom(s, j, items)
    decreases |s| - j, 2
  {
    if s[j] != ASCII_E {
      ParseAtExtend(s, rest, j);
      var (v, k) := ParseAt(s, j).value;
      ListItemsExtend(s, rest, k, items + [v]);
    }
  }

  lemma {:induction false} DictEntriesExtend(s: seq<byte>, rest: seq<byte>, j: nat, entries: Entries)
    requires j <= |s| && DictEntriesFrom(s, j, entries).Ok?
    ensures DictEntriesFrom(s + rest, j, entries) == DictEntriesFrom(s, j, entries)
    decreases |s| - j, 2
  {
    if s[j] != ASCII_E {
      DecodeStringAtExtend(s, rest, j);
      var (key, k) := DecodeStringAt(s, j).value;
      ParseAtExtend(s, rest, k);
      var (v, m) := ParseAt(s, k).value;
      DictEntriesExtend(s, rest, m, Put(entries, key, v));
    }
  }

  /** A method's result paired with the cursor it leaves, to compare with the functions above. */
  function Completed<T>(r: Result<T, ParseError>, p: nat): Result<(T, nat), ParseError> {
    match r
    case Ok(v) => Ok((v, p))
    case Err(e) => Err(e)
  }

  /** The `BufferedInputStream` the Kotlin functions read from: the bytes and a cursor. */
  class Reader {
    const data: seq<byte>
    var pos: nat

    ghost predicate Valid()
      reads this
    {
      pos <= |data|
    }

    constructor (data: seq<byte>)
      ensures Valid() && this.data == data && pos == 0
    {
      this.data := data;
      pos := 0;
    }

    /** `read()`: the next byte and one step forward, or None (-1) at the end of the stream. */
    method Read() returns (c: Option<byte>)
      requires Valid()
      modifies this
      ensures Valid()
      ensures old(pos) < |data| ==> c == Some(data[old(pos)]) && pos == old(pos) + 1
      ensures old(pos) == |data| ==> c == None && pos == old(pos)
    {
      if pos < |data| {
        c := Some(data[pos]);
        pos := pos + 1;
      } else {
        c := None;
      }
    }

    /** `peek()`: mark, read one byte, reset. The cursor is where it was. */
    method Peek() returns (c: Option<byte>)
      requires Valid()
      modifies this
      ensures Valid() && pos == old(pos)
      ensures c == if pos < |data| then Some(data[pos]) else None
    {
      var mark := pos;
      c := Read();
      pos := mark;
    }

    /**
     * The `buildString { while (true) ... }` loops: collect bytes up to `delim` and
     * consume the delimiter. At the end of the stream the Kotlin loop never stops;
     * here it yields None.
     */
    method ReadUntil(delim: byte) returns (text: Option<seq<byte>>)
      requires Valid()
      modifies this
      ensures Valid()
      ensures match ScanTo(data, old(pos), delim)
        case None => text == None
        case Some(j) => text == Some(data[old(pos)..j]) && pos == j + 1
    {
      var acc := [];
      while true
        invariant Valid() && old(pos) <= pos
        invariant acc == data[old(pos)..pos]
        invariant ScanTo(data, old(pos), delim) == ScanTo(data, pos, delim)
        decreases |data| - pos
      {
        var c := Read();
        if c.None? {
          return None;
        }
        if c.value == delim {
          return Some(acc);
        }
        acc := acc + [c.value];
      }
    }

    /**
     * `readNBytes(n)`: a negative `n` throws; the model also fails when fewer than
     * `n` bytes remain.
     */
    method ReadNBytes(n: int) returns (r: Result<seq<byte>, ParseError>)
      requires Valid()
      modifies this
      ensures Valid()
      ensures n < 0 ==> r == Err(NegativeLength)
      ensures 0 <= n && old(pos) + n > |data| ==> r == Err(EndOfInput)
      ensures 0 <= n && old(pos) + n <= |data| ==>
        r == Ok(data[old(pos)..old(pos) + n]) && pos == old(pos) + n
    {
      if n < 0 {
        return Err(NegativeLength);
      }
      if pos + n > |data| {
        return Err(EndOfInput);
      }
      r := Ok(data[pos..pos + n]);
      pos := pos + n;
    }

    /** `decodeString` of com.lanli.bencode, which returns the bare bytes. */
    method DecodeStringBytes() returns (r: Result<seq<byte>, ParseError>)
      requires Valid()
      modifies this
      ensures Valid()
      ensures Completed(r, pos) == DecodeStringAt(data, old(pos))
    {
      var text := ReadUntil(ASCII_COLON);
      if text.None? {
        return Err(EndOfInput);
      }
      var length := ParseInt(text.value);
      if length.None? {
        return Err(NumberFormat);
      }
      r := ReadNBytes(length.value);
    }

    /** `decodeString` of com.lanlinju.bencode: the same bytes as a `BStr`. */
    method DecodeString() returns (r: Result<BObject, ParseError>)
      requires Valid()
      modifies this
      ensures Valid()
      ensures Completed(r, pos) == match DecodeStringAt(data, old(pos))
        case Ok((b, k)) => Ok((BStr(b), k))
        case Err(e) => Err(e)
    {
      var bytes := DecodeStringBytes();
      if bytes.Err? {
        return Err(bytes.error);
      }
      r := Ok(BStr(bytes.value));
    }

    /** `decodeInt` */
    method DecodeInt() returns (r: Result<BObject, ParseError>)
      requires Valid() && pos < |data|
      modifies this
      ensures Valid()
      ensures Completed(r, pos) == DecodeIntAt(data, old(pos))
    {
      var consumed := Read();
      var text := ReadUntil(ASCII_E);
      if text.None? {
        return Err(EndOfInput);
      }
      var number := ParseLong(text.value);
      if number.None? {
        return Err(NumberFormat);
      }
      r := Ok(BInt(number.value));
    }

    /** `parse` */
    method Parse() returns (r: Result<BObject, ParseError>)
      requires Valid()
      modifies this
      ensures Valid()
      ensures Completed(r, pos) == ParseAt(data, old(pos))
      decreases |data| - pos, 1
    {
      var peek := Peek();
      if peek.None? {
        return Err(InvalidData);
      }
      var b := peek.value;
      if IsDigit(b) {
        r := DecodeString();
      } else if b == ASCII_I {
        r := DecodeInt();
      } else if b == ASCII_L {
        r := DecodeList();
      } else if b == ASCII_D {
        r := DecodeDict();
      } else {
        r := Err(InvalidData);
      }
    }

    /** `decodeList` */
    method DecodeList() returns (r: Result<BObject, ParseError>)
      requires Valid() && pos < |data|
      modifies this
      ensures Valid()
      ensures Completed(r, pos) == DecodeListAt(data, old(pos))
      decreases |data| - pos, 0
    {
      var consumed := Read();
      var list := [];
      while true
        invariant Valid() && old(pos) < pos
        invariant DecodeListAt(data, old(pos)) == ListItemsFrom(data, pos, list)
        decreases |data| - pos
      {
        var peek := Peek();
        if peek == Some(ASCII_E) {
          consumed := Read();
          return Ok(BList(list));
        }
        var item := Parse();
        if item.Err? {
          return Err(item.error);
        }
        list := list + [item.value];
      }
    }

    /** `decodeDict` */
    method DecodeDict() returns (r: Result<BObject, ParseError>)
      requires Valid() && pos < |data|
      modifies this
      ensures Valid()
      ensures Completed(r, pos) == DecodeDictAt(data, old(pos))
      decreases |data| - pos, 0
    {
      var consumed := Read();
      var dict := [];
      while true
        invariant Valid() && old(pos) < pos
        invariant DecodeDictAt(data, old(pos)) == DictEntriesFrom(data, pos, dict)
        decreases |data| - pos
      {
        var peek := Peek();
        if peek == Some(ASCII_E) {
          consumed := Read();
          return Ok(BDict(dict));
        }
        var key := DecodeStringBytes();
        if key.Err? {
          return Err(key.error);
        }
        var value := Parse();
        if value.Err? {
          return Err(value.error);
        }
        dict := Put(dict, key.value, value.value);
      }
    }
  }
}
