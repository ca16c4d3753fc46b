/** Decoding (values of syntax trees) and encoding (canonical syntax trees of values). Printing what
    was read gives back the very bytes exactly when those bytes were canonical. */
module BencodeValues {
  import opened Options
  import opened ByteStrings
  import opened Bencode

  /** Map assignment m[k] = v, on entries in ascending key order. */
  function Insert(es: seq<Entry>, k: Bytes, v: Value): seq<Entry> {
    if es == [] then [Entry(k, v)]
    else if es[0].key == k then [Entry(k, v)] + es[1..]
    else if Less(k, es[0].key) then [Entry(k, v)] + es
    else [es[0]] + Insert(es[1..], k, v)
  }

  function Lookup(es: seq<Entry>, k: Bytes): Option<Value> {
    if es == [] then None else if es[0].key == k then Some(es[0].val) else Lookup(es[1..], k)
  }

  function ValueOf(r: Raw): Value
    requires Readable(r)
    decreases r, 0
  {
    match r
    case RawInt(text) => Int(NumberOf(text))
    case RawStr(_, body) => Str(body)
    case RawList(items) => List(ValuesOf(items))
    case RawDict(entries) => Dict(InsertAll([], entries))
  }

  function ValuesOf(items: seq<Raw>): seq<Value>
    requires ReadableItems(items)
    decreases items, 1
  {
    if items == [] then [] else [ValueOf(items[0])] + ValuesOf(items[1..])
  }

  /** The entries in file order, each overwriting an earlier one with its key. */
  function InsertAll(acc: seq<Entry>, entries: seq<RawEntry>): seq<Entry>
    requires ReadableEntries(entries)
    decreases entries, 1
  {
    if entries == [] then acc
    else InsertAll(Insert(acc, entries[0].key, ValueOf(entries[0].val)), entries[1..])
  }

  function Decode(bs: Bytes): Option<(Value, Bytes)> {
    match Read(bs)
    case None => None
    case Some((r, rest)) => ReadFlattens(bs); Some((ValueOf(r), rest))
  }

  // ---- encoding ----

  function RawString(s: Bytes): Raw {
    RawStr(Decimal(|s|), s)
  }

  function Print(v: Value): Raw
    decreases v, 0
  {
    match v
    case Int(i) => RawInt(Numeral(i))
    case Str(s) => RawString(s)
    case List(items) => RawList(PrintItems(items))
    case Dict(entries) => RawDict(PrintEntries(entries))
  }

  function PrintItems(items: seq<Value>): seq<Raw>
    decreases items, 1
  {
    if items == [] then [] else [Print(items[0])] + PrintItems(items[1..])
  }

  function PrintEntries(entries: seq<Entry>): seq<RawEntry>
    decreases entries, 1
  {
    if entries == [] then []
    else [RawEntry(Decimal(|entries[0].key|), entries[0].key, Print(entries[0].val))] + PrintEntries(entries[1..])
  }

  /** The encoder: canonical numerals, entries in ascending key order. */
  function Encode(v: Value): Bytes {
    Flatten(Print(v))
  }

  // ---- well-formed values, canonical trees ----

  predicate AllAbove(es: seq<Entry>, k: Bytes) {
    forall e :: e in es ==> Less(k, e.key)
  }

  predicate AllBelow(es: seq<Entry>, k: Bytes) {
    forall e :: e in es ==> Less(e.key, k)
  }

  predicate RawAbove(es: seq<RawEntry>, k: Bytes) {
    forall e :: e in es ==> Less(k, e.key)
  }

  predicate WellFormed(v: Value)
    decreases v, 0
  {
    match v
    case Int(i) => InRange(i)
    case Str(_) => true
    case List(items) => WellFormedItems(items)
    case Dict(entries) => WellFormedEntries(entries)
  }

  predicate WellFormedItems(items: seq<Value>)
    decreases items, 1
  {
    items == [] || (WellFormed(items[0]) && WellFormedItems(items[1..]))
  }

  predicate WellFormedEntries(es: seq<Entry>)
    decreases es, 1
  {
    es == [] || (WellFormed(es[0].val) && AllAbove(es[1..], es[0].key) && WellFormedEntries(es[1..]))
  }

  /** Canonical bencode, judged on the text: numerals without redundancy, keys strictly ascending. */
  predicate Canonical(r: Raw)
    decreases r, 0
  {
    match r
    case RawInt(text) => CanonicalInt(text)
    case RawStr(len, _) => CanonicalNat(len)
    case RawList(items) => CanonicalItems(items)
    case RawDict(entries) => CanonicalEntries(entries)
  }

  predicate CanonicalItems(items: seq<Raw>)
    decreases items, 1
  {
    items == [] || (Canonical(items[0]) && CanonicalItems(items[1..]))
  }

  predicate CanonicalEntries(es: seq<RawEntry>)
    decreases es, 1
  {
    es == []
    || (CanonicalNat(es[0].keyLen) && Canonical(es[0].val) && RawAbove(es[1..], es[0].key) && CanonicalEntries(es[1..]))
  }

  // ---- values are well formed ----

  lemma {:induction false} InsertKeeps(es: seq<Entry>, k: Bytes, v: Value)
    requires WellFormedEntries(es) && WellFormed(v)
    ensures WellFormedEntries(Insert(es, k, v))
    ensures forall b :: AllAbove(es, b) && Less(b, k) ==> AllAbove(Insert(es, k, v), b)
    decreases |es|
  {
    if es != [] {
      LessTrichotomy(k, es[0].key);
      var tail := es[1..];
      assert es == [es[0]] + tail;
      if es[0].key == k {
        assert ([Entry(k, v)] + tail)[1..] == tail;
      } else if Less(k, es[0].key) {
        assert ([Entry(k, v)] + es)[1..] == es;
        forall e | e in es ensures Less(k, e.key) {
          if e in tail { LessTransitive(k, es[0].key, e.key); }
        }
      } else {
        InsertKeeps(tail, k, v);
        assert ([es[0]] + Insert(tail, k, v))[1..] == Insert(tail, k, v);
      }
    } else {
      assert [Entry(k, v)][1..] == [];
    }
  }

  lemma {:induction false} ValueIsWellFormed(r: Raw)
    requires Readable(r)
    ensures WellFormed(ValueOf(r))
    decreases r, 0
  {
    match r {
      case RawInt(_) =>
      case RawStr(_, _) =>
      case RawList(items) => ValuesAreWellFormed(items);
      case RawDict(entries) => InsertAllIsWellFormed([], entries);
    }
  }

  lemma {:induction false} ValuesAreWellFormed(items: seq<Raw>)
    requires ReadableItems(items)
    ensures WellFormedItems(ValuesOf(items))
    decreases items, 1
  {
    if items != [] {
      ValueIsWellFormed(items[0]);
      ValuesAreWellFormed(items[1..]);
      assert ValuesOf(items)[1..] == ValuesOf(items[1..]);
    }
  }

  lemma {:induction false} InsertAllIsWellFormed(acc: seq<Entry>, entries: seq<RawEntry>)
    requires ReadableEntries(entries) && WellFormedEntries(acc)
    ensures WellFormedEntries(InsertAll(acc, entries))
    decreases entries, 1
  {
    if entries != [] {
      ValueIsWellFormed(entries[0].val);
      InsertKeeps(acc, entries[0].key, ValueOf(entries[0].val));
      InsertAllIsWellFormed(Insert(acc, entries[0].key, ValueOf(entries[0].val)), entries[1..]);
    }
  }

  // ---- printing a value gives a canonical tree of that value ----

  lemma {:induction false} InsertLast(es: seq<Entry>, k: Bytes, v: Value)
    requires AllBelow(es, k)
    ensures Insert(es, k, v) == es + [Entry(k, v)]
    decreases |es|
  {
    if es != [] {
      LessTrichotomy(es[0].key, k);
      InsertLast(es[1..], k, v);
      assert es == [es[0]] + es[1..];
    }
  }

  lemma StaysBelow(es: seq<Entry>, e: Entry, k: Bytes)
    requires AllBelow(es, e.key) && Less(e.key, k)
    ensures AllBelow(es + [e], k)
  {
    forall x | x in es + [e] ensures Less(x.key, k) {
      if x in es { LessTransitive(x.key, e.key, k); }
    }
  }

  lemma {:induction false} PrintIsReadable(v: Value)
    requires WellFormed(v)
    ensures Readable(Print(v)) && Canonical(Print(v)) && ValueOf(Print(v)) == v
    decreases v, 0
  {
    match v {
      case Int(i) => NumeralReads(i);
      case Str(s) => LengthIsCanonical(s);
      case List(items) => PrintItemsReadable(items);
      case Dict(entries) =>
        PrintEntriesReadable(entries);
        InsertPrinted([], entries);
        assert [] + entries == entries;
    }
  }

  lemma LengthIsCanonical(s: Bytes)
    ensures IsLength(Decimal(|s|), s) && CanonicalNat(Decimal(|s|)) && IsDigit(Decimal(|s|)[0])
  {
    NatOfDecimal(|s|);
    assert Decimal(|s|) == Numeral(|s|);
    NumeralReads(|s|);
  }

  lemma {:induction false} PrintItemsReadable(items: seq<Value>)
    requires WellFormedItems(items)
    ensures ReadableItems(PrintItems(items)) && CanonicalItems(PrintItems(items)) && ValuesOf(PrintItems(items)) == items
    decreases items, 1
  {
    if items != [] {
      PrintIsReadable(items[0]);
      PrintItemsReadable(items[1..]);
      assert PrintItems(items)[1..] == PrintItems(items[1..]);
    }
  }

  lemma {:induction false} PrintEntriesKeys(entries: seq<Entry>, k: Bytes)
    requires AllAbove(entries, k)
    ensures RawAbove(PrintEntries(entries), k)
    decreases |entries|
  {
    if entries != [] {
      PrintEntriesKeys(entries[1..], k);
    }
  }

  lemma {:induction false} PrintEntriesReadable(entries: seq<Entry>)
    requires WellFormedEntries(entries)
    ensures ReadableEntries(PrintEntries(entries)) && CanonicalEntries(PrintEntries(entries))
    decreases entries, 1
  {
    if entries != [] {
      var e := entries[0];
      assert PrintEntries(entries)[1..] == PrintEntries(entries[1..]);
      LengthIsCanonical(e.key);
      PrintIsReadable(e.val);
      PrintEntriesKeys(entries[1..], e.key);
      PrintEntriesReadable(entries[1..]);
    }
  }

  lemma InsertAllStep(acc: seq<Entry>, entries: seq<RawEntry>) returns (value: Entry)
    requires ReadableEntries(entries) && entries != [] && AllBelow(acc, entries[0].key)
    ensures value == Entry(entries[0].key, ValueOf(entries[0].val))
    ensures InsertAll(acc, entries) == InsertAll(acc + [value], entries[1..])
  {
    value := Entry(entries[0].key, ValueOf(entries[0].val));
    InsertLast(acc, value.key, value.val);
  }

  lemma JoinEntries(acc: seq<Entry>, e: Entry, tail: seq<Entry>, whole: seq<Entry>)
    requires whole == [e] + tail
    ensures acc + [e] + tail == acc + whole
  {
  }

  lemma {:induction false} InsertPrinted(acc: seq<Entry>, entries: seq<Entry>)
    requires WellFormedEntries(entries) && ReadableEntries(PrintEntries(entries))
    requires entries != [] ==> AllBelow(acc, entries[0].key)
    ensures InsertAll(acc, PrintEntries(entries)) == acc + entries
    decreases entries, 1
  {
    hide Less, ValueOf, Insert, Readable, Canonical, Print, WellFormed;
    if entries == [] {
      assert PrintEntries(entries) == [];
      assert acc + entries == acc;
    } else {
      var e := entries[0];
      var tail := entries[1..];
      var printed := PrintEntries(entries);
      assert printed[1..] == PrintEntries(tail) && printed[0].key == e.key && printed[0].val == Print(e.val);
      PrintIsReadable(e.val);
      var value := InsertAllStep(acc, printed);
      assert value == e;
      if tail != [] { StaysBelow(acc, e, tail[0].key); }
      InsertPrinted(acc + [e], tail);
      JoinEntries(acc, e, tail, entries);
    }
  }

  // ---- a canonical tree is the printed form of its value ----

  lemma {:induction false} PrintOfCanonical(r: Raw)
    requires Readable(r) && Canonical(r)
    ensures Print(ValueOf(r)) == r
    decreases r, 0
  {
    match r {
      case RawInt(text) => NumeralOfNumber(text);
      case RawStr(len, body) => DecimalOfNat(len);
      case RawList(items) => PrintItemsOfCanonical(items);
      case RawDict(entries) =>
        PrintEntriesOfCanonical([], entries);
        assert [] + entries == entries;
    }
  }

  lemma {:induction false} PrintItemsOfCanonical(items: seq<Raw>)
    requires ReadableItems(items) && CanonicalItems(items)
    ensures PrintItems(ValuesOf(items)) == items
    decreases items, 1
  {
    if items != [] {
      PrintOfCanonical(items[0]);
      PrintItemsOfCanonical(items[1..]);
      assert ValuesOf(items)[1..] == ValuesOf(items[1..]);
    }
  }

  lemma {:induction false} PrintEntriesAppend(a: seq<Entry>, e: Entry)
    ensures PrintEntries(a + [e]) == PrintEntries(a) + PrintEntries([e])
    decreases |a|
  {
    if a == [] {
      assert a + [e] == [e];
    } else {
      assert (a + [e])[1..] == a[1..] + [e];
      PrintEntriesAppend(a[1..], e);
    }
  }

  lemma PrintOneEntry(e: RawEntry)
    requires IsLength(e.keyLen, e.key) && CanonicalNat(e.keyLen) && Readable(e.val) && Print(ValueOf(e.val)) == e.val
    ensures PrintEntries([Entry(e.key, ValueOf(e.val))]) == [e]
  {
    DecimalOfNat(e.keyLen);
    assert Unsigned(e.keyLen) == e.keyLen;
    assert [Entry(e.key, ValueOf(e.val))][1..] == [];
  }

  lemma JoinPrinted(printed: seq<RawEntry>, e: RawEntry, tail: seq<RawEntry>, whole: seq<RawEntry>)
    requires whole == [e] + tail
    ensures printed + [e] + tail == printed + whole
  {
  }

  lemma {:induction false} PrintEntriesOfCanonical(acc: seq<Entry>, entries: seq<RawEntry>)
    requires ReadableEntries(entries) && CanonicalEntries(entries)
    requires entries != [] ==> AllBelow(acc, entries[0].key)
    ensures PrintEntries(InsertAll(acc, entries)) == PrintEntries(acc) + entries
    decreases entries, 1
  {
    if entries == [] {
      assert InsertAll(acc, entries) == acc;
    } else {
      var e := entries[0];
      var tail := entries[1..];
      var value := InsertAllStep(acc, entries);
      assert PrintEntries(acc + [value]) == PrintEntries(acc) + [e] by {
        PrintOfCanonical(e.val);
        PrintOneEntry(e);
        PrintEntriesAppend(acc, value);
      }
      if tail != [] { StaysBelow(acc, value, tail[0].key); }
      PrintEntriesOfCanonical(acc + [value], tail);
      assert InsertAll(acc, entries) == InsertAll(acc + [value], tail);
      JoinPrinted(PrintEntries(acc), e, tail, entries);
    }
  }

  // ---- main results ----

  /** parse after print: every value decodes from its own encoding, whatever follows it. */
  lemma DecodeEncode(v: Value, rest: Bytes)
    requires WellFormed(v)
    ensures Decode(Encode(v) + rest) == Some((v, rest))
  {
    PrintIsReadable(v);
    ReadOfFlatten(Print(v), rest);
  }

  /** print after parse: re-encoding gives back the bytes read if and only if they were canonical. */
  lemma EncodeDecode(r: Raw)
    requires Readable(r)
    ensures Encode(ValueOf(r)) == Flatten(r) <==> Canonical(r)
  {
    if Canonical(r) {
      PrintOfCanonical(r);
    }
    ValueIsWellFormed(r);
    PrintIsReadable(ValueOf(r));
    if Encode(ValueOf(r)) == Flatten(r) {
      ReadOfFlatten(r, []);
      ReadOfFlatten(Print(ValueOf(r)), []);
    }
  }

  /** Different values have different encodings, so a hash taken of the encoding is a hash of the value. */
  lemma EncodeInjective(v: Value, v': Value)
    requires WellFormed(v) && WellFormed(v') && Encode(v) == Encode(v')
    ensures v == v'
  {
    DecodeEncode(v, []);
    DecodeEncode(v', []);
  }

  // ---- where a key's value sits in the file ----

  /** The last entry of a dictionary text with the given key. */
  function LastEntry(entries: seq<RawEntry>, k: Bytes): Option<RawEntry> {
    if entries == [] then None
    else
      match LastEntry(entries[1..], k)
      case Some(e) => Some(e)
      case None => if entries[0].key == k then Some(entries[0]) else None
  }

  lemma {:induction false} InsertLookup(es: seq<Entry>, k: Bytes, v: Value, k': Bytes)
    requires WellFormedEntries(es)
    ensures Lookup(Insert(es, k, v), k') == if k == k' then Some(v) else Lookup(es, k')
    decreases |es|
  {
    if es == [] {
      assert [Entry(k, v)][1..] == [];
    } else if es[0].key == k {
      assert ([Entry(k, v)] + es[1..])[1..] == es[1..];
    } else if Less(k, es[0].key) {
      assert ([Entry(k, v)] + es)[1..] == es;
    } else {
      InsertLookup(es[1..], k, v, k');
      assert ([es[0]] + Insert(es[1..], k, v))[1..] == Insert(es[1..], k, v);
    }
  }

  lemma {:induction false} LookupIsLastEntry(acc: seq<Entry>, entries: seq<RawEntry>, k: Bytes)
    requires ReadableEntries(entries) && WellFormedEntries(acc)
    ensures LastEntry(entries, k).Some? ==> LastEntry(entries, k).value in entries && Readable(LastEntry(entries, k).value.val)
    ensures Lookup(InsertAll(acc, entries), k)
         == if LastEntry(entries, k).Some? then Some(ValueOf(LastEntry(entries, k).value.val)) else Lookup(acc, k)
    decreases |entries|
  {
    if entries != [] {
      var e := entries[0];
      var acc' := Insert(acc, e.key, ValueOf(e.val));
      ValueIsWellFormed(e.val);
      InsertKeeps(acc, e.key, ValueOf(e.val));
      LookupIsLastEntry(acc', entries[1..], k);
      InsertLookup(acc, e.key, ValueOf(e.val), k);
    }
  }

  /** The integers it reads are those of an int64 or a uint64. */
  lemma DecodeInteger(i: int, rest: Bytes)
    ensures Decode("i" + Numeral(i) + "e" + rest)
         == if -0x8000_0000_0000_0000 <= i <= 0xFFFF_FFFF_FFFF_FFFF then Some((Int(i), rest)) else None
  {
    var text := Numeral(i);
    var bs := "i" + text + "e" + rest;
    NumeralReads(i);
    NumberHasNo(text, 'e');
    FindIn(text, 'e', rest);
    assert bs[1..] == text + ['e'] + rest;
    assert bs[1..][..|text|] == text && bs[1..][|text| + 1..] == rest;
  }

  function ItemsText(items: seq<Value>): Bytes {
    if items == [] then [] else Encode(items[0]) + ItemsText(items[1..])
  }

  function EntriesText(entries: seq<Entry>): Bytes {
    if entries == [] then [] else Encode(Str(entries[0].key)) + Encode(entries[0].val) + EntriesText(entries[1..])
  }

  lemma {:induction false} ItemsPrinted(items: seq<Value>)
    ensures FlattenItems(PrintItems(items)) == ItemsText(items)
    decreases |items|
  {
    if items != [] {
      ItemsPrinted(items[1..]);
      assert PrintItems(items)[1..] == PrintItems(items[1..]);
    }
  }

  lemma {:induction false} EntriesPrinted(entries: seq<Entry>)
    ensures FlattenEntries(PrintEntries(entries)) == EntriesText(entries)
    decreases |entries|
  {
    if entries != [] {
      EntriesPrinted(entries[1..]);
      assert PrintEntries(entries)[1..] == PrintEntries(entries[1..]);
      assert Encode(Str(entries[0].key)) == Decimal(|entries[0].key|) + ":" + entries[0].key;
    }
  }

  /** The four forms of BEP 3. */
  lemma EncodeForms(v: Value)
    ensures match v
      case Int(i) => Encode(v) == "i" + Numeral(i) + "e"
      case Str(s) => Encode(v) == Decimal(|s|) + ":" + s
      case List(items) => Encode(v) == "l" + ItemsText(items) + "e"
      case Dict(entries) => Encode(v) == "d" + EntriesText(entries) + "e"
  {
    match v {
      case Int(_) =>
      case Str(_) =>
      case List(items) => ItemsPrinted(items);
      case Dict(entries) => EntriesPrinted(entries);
    }
  }
}
