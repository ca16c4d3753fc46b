/** Bencoding (BEP 3, section "bencoding"): a lenient reader that accepts redundant numerals and keys
    in any order, as the decoder that TorrentFileToMagnet calls does, and the canonical printer. The
    reader keeps the syntax it saw (Raw), so "the bytes of the file" can be compared with "the bytes
    printed again". */
module Bencode {
  import opened Options
  import opened ByteStrings

  datatype Raw =
    | RawInt(text: Bytes)
    | RawStr(len: Bytes, body: Bytes)
    | RawList(items: seq<Raw>)
    | RawDict(entries: seq<RawEntry>)
  datatype RawEntry = RawEntry(keyLen: Bytes, key: Bytes, val: Raw)

  /** A decoded dictionary is a Go map; here its entries stand in ascending key order. */
  datatype Value = Int(i: int) | Str(s: Bytes) | List(items: seq<Value>) | Dict(entries: seq<Entry>)
  datatype Entry = Entry(key: Bytes, val: Value)

  /** Integers the decoder can hold: an int64, or else a uint64. */
  predicate InRange(i: int) {
    -0x8000_0000_0000_0000 <= i < 0x1_0000_0000_0000_0000
  }

  // ---- syntax trees and their text ----

  function Flatten(r: Raw): Bytes
    decreases r, 0
  {
    match r
    case RawInt(text) => "i" + text + "e"
    case RawStr(len, body) => len + ":" + body
    case RawList(items) => "l" + FlattenItems(items) + "e"
    case RawDict(entries) => "d" + FlattenEntries(entries) + "e"
  }

  function FlattenItems(items: seq<Raw>): Bytes
    decreases items, 1
  {
    if items == [] then [] else Flatten(items[0]) + FlattenItems(items[1..])
  }

  function FlattenEntries(entries: seq<RawEntry>): Bytes
    decreases entries, 1
  {
    if entries == [] then []
    else entries[0].keyLen + ":" + entries[0].key + Flatten(entries[0].val) + FlattenEntries(entries[1..])
  }

  predicate IsLength(len: Bytes, body: Bytes) {
    IsNumber(len) && NumberOf(len) == |body|
  }

  /** Trees the reader can produce. */
  predicate Readable(r: Raw)
    decreases r, 0
  {
    match r
    case RawInt(text) => IsNumber(text) && InRange(NumberOf(text))
    case RawStr(len, body) => IsLength(len, body) && IsDigit(len[0])
    case RawList(items) => ReadableItems(items)
    case RawDict(entries) => ReadableEntries(entries)
  }

  predicate ReadableItems(items: seq<Raw>)
    decreases items, 1
  {
    items == [] || (Readable(items[0]) && ReadableItems(items[1..]))
  }

  predicate ReadableEntries(entries: seq<RawEntry>)
    decreases entries, 1
  {
    entries == []
    || (IsLength(entries[0].keyLen, entries[0].key) && Readable(entries[0].val) && ReadableEntries(entries[1..]))
  }

  // ---- the reader ----

  function ReadString(bs: Bytes): (r: Option<(Bytes, Bytes, Bytes)>)
    ensures r.Some? ==> |r.value.2| < |bs|
  {
    var j := Find(bs, ':');
    if j == |bs| || !IsNumber(bs[..j]) then None
    else
      var n := NumberOf(bs[..j]);
      var rest := bs[j + 1..];
      if n < 0 || n > |rest| then None else Some((bs[..j], rest[..n], rest[n..]))
  }

  function ReadInt(bs: Bytes): (r: Option<(Bytes, Bytes)>)
    ensures r.Some? ==> |r.value.1| < |bs|
  {
    var j := Find(bs, 'e');
    if j == |bs| || !IsNumber(bs[..j]) || !InRange(NumberOf(bs[..j])) then None
    else Some((bs[..j], bs[j + 1..]))
  }

  function Read(bs: Bytes): (r: Option<(Raw, Bytes)>)
    ensures r.Some? ==> |r.value.1| < |bs|
    decreases |bs|, 0
  {
    if bs == [] then None
    else if IsDigit(bs[0]) then
      match ReadString(bs)
      case None => None
      case Some((len, body, rest)) => Some((RawStr(len, body), rest))
    else if bs[0] == 'i' then
      match ReadInt(bs[1..])
      case None => None
      case Some((text, rest)) => Some((RawInt(text), rest))
    else if bs[0] == 'l' then
      match ReadItems(bs[1..])
      case None => None
      case Some((items, rest)) => Some((RawList(items), rest))
    else if bs[0] == 'd' then
      match ReadEntries(bs[1..])
      case None => None
      case Some((entries, rest)) => Some((RawDict(entries), rest))
    else None
  }

  function ReadItems(bs: Bytes): (r: Option<(seq<Raw>, Bytes)>)
    ensures r.Some? ==> |r.value.1| < |bs|
    decreases |bs|, 1
  {
    if bs == [] then None
    else if bs[0] == 'e' then Some(([], bs[1..]))
    else
      match Read(bs)
      case None => None
      case Some((item, rest)) =>
        match ReadItems(rest)
        case None => None
        case Some((items, rest')) => Some(([item] + items, rest'))
  }

  function ReadEntries(bs: Bytes): (r: Option<(seq<RawEntry>, Bytes)>)
    ensures r.Some? ==> |r.value.1| < |bs|
    decreases |bs|, 1
  {
    if bs == [] then None
    else if bs[0] == 'e' then Some(([], bs[1..]))
    else
      match ReadString(bs)
      case None => None
      case Some((len, key, rest)) =>
        match Read(rest)
        case None => None
        case Some((val, rest')) =>
          match ReadEntries(rest')
          case None => None
          case Some((entries, rest'')) => Some(([RawEntry(len, key, val)] + entries, rest''))
  }

  // ---- reading loses nothing ----

  lemma ReadStringFlattens(bs: Bytes)
    ensures ReadString(bs).Some? ==> var (len, body, rest) := ReadString(bs).value;
      len + ":" + body + rest == bs && IsLength(len, body)
  {
    var j := Find(bs, ':');
    if ReadString(bs).Some? {
      var n := NumberOf(bs[..j]);
      assert bs == bs[..j] + [bs[j]] + bs[j + 1..];
      assert bs[j + 1..] == bs[j + 1..][..n] + bs[j + 1..][n..];
    }
  }

  lemma ReadIntFlattens(bs: Bytes)
    ensures ReadInt(bs).Some? ==> var (text, rest) := ReadInt(bs).value;
      text + "e" + rest == bs && IsNumber(text) && InRange(NumberOf(text))
  {
    var j := Find(bs, 'e');
    assert j < |bs| ==> bs == bs[..j] + [bs[j]] + bs[j + 1..];
  }

  lemma {:induction false} ReadFlattens(bs: Bytes)
    ensures Read(bs).Some? ==> var (r, rest) := Read(bs).value; Flatten(r) + rest == bs && Readable(r)
    decreases |bs|, 0
  {
    if bs != [] && Read(bs).Some? {
      var tail := bs[1..];
      assert bs == [bs[0]] + tail;
      if IsDigit(bs[0]) {
        ReadStringFlattens(bs);
      } else if bs[0] == 'i' {
        ReadIntFlattens(tail);
      } else if bs[0] == 'l' {
        ReadItemsFlattens(tail);
      } else {
        ReadEntriesFlattens(tail);
      }
      var (r, rest) := Read(bs).value;
      MarkedText(r, rest);
    }
  }

  /** The mark of a value's first byte and the text after it. */
  lemma MarkedText(r: Raw, rest: Bytes)
    ensures match r
      case RawInt(text) => Flatten(r) + rest == ['i'] + (text + "e" + rest)
      case RawStr(len, body) => Flatten(r) + rest == len + ":" + body + rest
      case RawList(items) => Flatten(r) + rest == ['l'] + (FlattenItems(items) + "e" + rest)
      case RawDict(entries) => Flatten(r) + rest == ['d'] + (FlattenEntries(entries) + "e" + rest)
  {
  }

  lemma {:induction false} ReadItemsFlattens(bs: Bytes)
    ensures ReadItems(bs).Some? ==> var (rs, rest) := ReadItems(bs).value; FlattenItems(rs) + "e" + rest == bs && ReadableItems(rs)
    decreases |bs|, 1
  {
    if ReadItems(bs).Some? {
      if bs[0] == 'e' {
        assert bs == "e" + bs[1..];
      } else {
        ReadFlattens(bs);
        var (item, rest) := Read(bs).value;
        ReadItemsFlattens(rest);
        var (items, rest') := ReadItems(rest).value;
        ConsItem(item, items, rest');
      }
    }
  }

  lemma ConsItem(item: Raw, items: seq<Raw>, rest: Bytes)
    ensures FlattenItems([item] + items) + "e" + rest == Flatten(item) + (FlattenItems(items) + "e" + rest)
    ensures ReadableItems([item] + items) <==> Readable(item) && ReadableItems(items)
  {
    assert ([item] + items)[1..] == items;
  }

  lemma ConsEntry(e: RawEntry, entries: seq<RawEntry>, rest: Bytes)
    ensures FlattenEntries([e] + entries) + "e" + rest
         == e.keyLen + ":" + e.key + (Flatten(e.val) + (FlattenEntries(entries) + "e" + rest))
    ensures ReadableEntries([e] + entries) <==> IsLength(e.keyLen, e.key) && Readable(e.val) && ReadableEntries(entries)
  {
    assert ([e] + entries)[1..] == entries;
    var key := e.keyLen + ":" + e.key;
    assert FlattenEntries([e] + entries) == key + Flatten(e.val) + FlattenEntries(entries);
    assert key + Flatten(e.val) + FlattenEntries(entries) + "e" + rest
        == key + (Flatten(e.val) + (FlattenEntries(entries) + "e" + rest));
  }

  lemma {:induction false} ReadEntriesFlattens(bs: Bytes)
    ensures ReadEntries(bs).Some? ==> var (es, rest) := ReadEntries(bs).value; FlattenEntries(es) + "e" + rest == bs && ReadableEntries(es)
    decreases |bs|, 1
  {
    if ReadEntries(bs).Some? {
      if bs[0] == 'e' {
        assert bs == "e" + bs[1..];
      } else {
        ReadStringFlattens(bs);
        var (len, key, rest) := ReadString(bs).value;
        ReadFlattens(rest);
        var (val, rest') := Read(rest).value;
        ReadEntriesFlattens(rest');
        var (entries, rest'') := ReadEntries(rest').value;
        ConsEntry(RawEntry(len, key, val), entries, rest'');
      }
    }
  }

  lemma NumberHasNo(t: Bytes, c: Byte)
    requires IsNumber(t) && !IsDigit(c) && c != '-' && c != '+'
    ensures c !in t
  {
    assert t == Unsigned(t) || t == [t[0]] + Unsigned(t);
  }

  lemma ReadStringOf(len: Bytes, body: Bytes, rest: Bytes)
    requires IsLength(len, body)
    ensures ReadString(len + ":" + body + rest) == Some((len, body, rest))
  {
    var bs := len + ":" + body + rest;
    NumberHasNo(len, ':');
    assert bs == len + [':'] + (body + rest);
    FindIn(len, ':', body + rest);
    assert bs[..|len|] == len && bs[|len| + 1..] == body + rest;
    assert (body + rest)[..|body|] == body && (body + rest)[|body|..] == rest;
  }

  lemma ReadIntOf(text: Bytes, rest: Bytes)
    requires IsNumber(text) && InRange(NumberOf(text))
    ensures ReadInt(text + "e" + rest) == Some((text, rest))
  {
    NumberHasNo(text, 'e');
    FindIn(text, 'e', rest);
    var bs := text + ['e'] + rest;
    assert bs[..|text|] == text && bs[|text| + 1..] == rest;
  }

  lemma ReadStr(len: Bytes, body: Bytes, rest: Bytes)
    requires IsLength(len, body) && IsDigit(len[0])
    ensures Read(len + ":" + body + rest) == Some((RawStr(len, body), rest))
  {
    ReadStringOf(len, body, rest);
  }

  lemma ReadMarked(bs: Bytes, mark: Byte, tail: Bytes)
    requires bs == [mark] + tail
    ensures mark == 'i' && ReadInt(tail).Some? ==> Read(bs) == Some((RawInt(ReadInt(tail).value.0), ReadInt(tail).value.1))
    ensures mark == 'l' && ReadItems(tail).Some? ==> Read(bs) == Some((RawList(ReadItems(tail).value.0), ReadItems(tail).value.1))
    ensures mark == 'd' && ReadEntries(tail).Some? ==> Read(bs) == Some((RawDict(ReadEntries(tail).value.0), ReadEntries(tail).value.1))
  {
    assert bs[1..] == tail;
  }

  lemma {:induction false} ReadOfFlatten(r: Raw, rest: Bytes)
    requires Readable(r)
    ensures Read(Flatten(r) + rest) == Some((r, rest))
    decreases r, 0
  {
    MarkedText(r, rest);
    var bs := Flatten(r) + rest;
    match r {
      case RawInt(text) =>
        ReadIntOf(text, rest);
        ReadMarked(bs, 'i', text + "e" + rest);
      case RawStr(len, body) =>
        ReadStr(len, body, rest);
      case RawList(items) =>
        ReadItemsOfFlatten(items, rest);
        ReadMarked(bs, 'l', FlattenItems(items) + "e" + rest);
      case RawDict(entries) =>
        ReadEntriesOfFlatten(entries, rest);
        ReadMarked(bs, 'd', FlattenEntries(entries) + "e" + rest);
    }
  }

  lemma FirstByte(r: Raw)
    requires Readable(r)
    ensures Flatten(r) != [] && Flatten(r)[0] != 'e'
  {
  }

  lemma {:induction false} ReadItemsOfFlatten(items: seq<Raw>, rest: Bytes)
    requires ReadableItems(items)
    ensures ReadItems(FlattenItems(items) + "e" + rest) == Some((items, rest))
    decreases items, 1
  {
    if items == [] {
      assert (FlattenItems(items) + "e" + rest)[1..] == rest;
    } else {
      FirstByte(items[0]);
      ConsItem(items[0], items[1..], rest);
      assert items == [items[0]] + items[1..];
      ReadOfFlatten(items[0], FlattenItems(items[1..]) + "e" + rest);
      ReadItemsOfFlatten(items[1..], rest);
    }
  }

  lemma {:induction false} ReadEntriesOfFlatten(entries: seq<RawEntry>, rest: Bytes)
    requires ReadableEntries(entries)
    ensures ReadEntries(FlattenEntries(entries) + "e" + rest) == Some((entries, rest))
    decreases entries, 1
  {
    if entries == [] {
      assert (FlattenEntries(entries) + "e" + rest)[1..] == rest;
    } else {
      var e := entries[0];
      NumberHasNo(e.keyLen, 'e');
      ConsEntry(e, entries[1..], rest);
      assert entries == [e] + entries[1..];
      var tail := FlattenEntries(entries[1..]) + "e" + rest;
      ReadStringOf(e.keyLen, e.key, Flatten(e.val) + tail);
      ReadOfFlatten(e.val, tail);
      ReadEntriesOfFlatten(entries[1..], rest);
    }
  }
}
