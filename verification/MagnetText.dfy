/** The text of a magnet URI (BEP 9, section "magnet URI format"): query escaping (section 2.1 of
    RFC 3986, with + for a space) and the query parser that DecodeMagnetURL relies on. */
module MagnetText {
  import opened Options
  import opened ByteStrings

  type Digest = d: Bytes | |d| == 20 witness "aaaaaaaaaaaaaaaaaaaa"

  // ---- escapes ----

  predicate IsLetter(c: Byte) {
    'a' <= c <= 'z' || 'A' <= c <= 'Z'
  }

  predicate Unreserved(c: Byte) {
    IsLetter(c) || IsDigit(c) || c == '-' || c == '_' || c == '.' || c == '~'
  }

  function HexDigit(n: nat, ten: Byte): Byte
    requires n < 16 && ten in ['a', 'A']
  {
    if n < 10 then Digit(n) else (ten as int + n - 10) as char
  }

  function HexValue(c: Byte): Option<nat> {
    if IsDigit(c) then Some(DigitValue(c))
    else if 'a' <= c <= 'f' then Some(c as int - 'a' as int + 10)
    else if 'A' <= c <= 'F' then Some(c as int - 'A' as int + 10)
    else None
  }

  function EscapeByte(c: Byte): Bytes {
    if Unreserved(c) then [c]
    else if c == ' ' then "+"
    else ['%', HexDigit(c as int / 16, 'A'), HexDigit(c as int % 16, 'A')]
  }

  /** url.QueryEscape */
  function Escape(s: Bytes): Bytes {
    if s == [] then [] else EscapeByte(s[0]) + Escape(s[1..])
  }

  /** url.QueryUnescape */
  function Unescape(s: Bytes): Option<Bytes>
    decreases |s|
  {
    if s == [] then Some([])
    else if s[0] == '%' then
      if |s| < 3 || HexValue(s[1]).None? || HexValue(s[2]).None? then None
      else
        match Unescape(s[3..])
        case None => None
        case Some(t) => Some([(16 * HexValue(s[1]).value + HexValue(s[2]).value) as char] + t)
    else
      match Unescape(s[1..])
      case None => None
      case Some(t) => Some([if s[0] == '+' then ' ' else s[0]] + t)
  }

  /** Bytes that end no field, no query and no URI. */
  predicate Plain(c: Byte) {
    ' ' < c < '~' + 1 as char && c !in ['#', '&', '=', ';', '?']
  }

  predicate AllPlain(s: Bytes) {
    forall c :: c in s ==> Plain(c)
  }

  lemma UnescapeByte(c: Byte, rest: Bytes)
    requires Unescape(rest).Some?
    ensures Unescape(EscapeByte(c) + rest) == Some([c] + Unescape(rest).value)
    ensures AllPlain(EscapeByte(c))
  {
    var s := EscapeByte(c) + rest;
    assert s[|EscapeByte(c)|..] == rest;
  }

  lemma {:induction false} UnescapeEscape(s: Bytes)
    ensures Unescape(Escape(s)) == Some(s) && AllPlain(Escape(s))
    decreases |s|
  {
    if s != [] {
      UnescapeEscape(s[1..]);
      UnescapeByte(s[0], Escape(s[1..]));
      assert s == [s[0]] + s[1..];
    }
  }

  /** Escaped text has no reserved character: RFC 3986's unreserved ones, percent signs, and + for a space. */
  lemma {:induction false} EscapeAlphabet(s: Bytes)
    ensures forall c :: c in Escape(s) ==> Unreserved(c) || c in ['%', '+']
    decreases |s|
  {
    if s != [] {
      EscapeAlphabet(s[1..]);
    }
  }

  lemma {:induction false} UnescapePlain(s: Bytes)
    requires '%' !in s && '+' !in s
    ensures Unescape(s) == Some(s)
    decreases |s|
  {
    if s != [] {
      UnescapePlain(s[1..]);
      assert s == [s[0]] + s[1..];
    }
  }

  /** hex.EncodeToString */
  function Hex(d: Bytes): Bytes {
    if d == [] then []
    else [HexDigit(d[0] as int / 16, 'a'), HexDigit(d[0] as int % 16, 'a')] + Hex(d[1..])
  }

  lemma {:induction false} HexIsPlain(d: Bytes)
    ensures AllPlain(Hex(d)) && '%' !in Hex(d) && '+' !in Hex(d) && |Hex(d)| == 2 * |d|
    decreases |d|
  {
    if d != [] {
      HexIsPlain(d[1..]);
    }
  }

  lemma {:induction false} HexInjective(d: Bytes, d': Bytes)
    requires Hex(d) == Hex(d')
    ensures d == d'
    decreases |d|
  {
    HexIsPlain(d);
    HexIsPlain(d');
    if d != [] {
      assert Hex(d)[2..] == Hex(d[1..]) && Hex(d')[2..] == Hex(d'[1..]);
      assert Hex(d)[0] == Hex(d')[0] && Hex(d)[1] == Hex(d')[1];
      HexInjective(d[1..], d'[1..]);
    }
  }

  /** The value of a lower-case hexadecimal digit, given apart from the printer. */
  function LowerHexValue(c: Byte): Option<nat> {
    if '0' <= c <= '9' then Some(c as int - '0' as int)
    else if 'a' <= c <= 'f' then Some(c as int - 'a' as int + 10)
    else None
  }

  /** text is d in lower-case hexadecimal: two digits a byte, the high one first. */
  predicate HexOf(text: Bytes, d: Bytes) {
    && |text| == 2 * |d|
    && forall i :: 0 <= i < |d| ==>
         LowerHexValue(text[2 * i]).Some? && LowerHexValue(text[2 * i + 1]).Some?
         && 16 * LowerHexValue(text[2 * i]).value + LowerHexValue(text[2 * i + 1]).value == d[i] as int
  }

  lemma {:induction false} HexPrints(d: Bytes)
    ensures HexOf(Hex(d), d)
    decreases |d|
  {
    if d != [] {
      HexPrints(d[1..]);
      var text, rest := Hex(d), Hex(d[1..]);
      forall i | 0 <= i < |d|
        ensures LowerHexValue(text[2 * i]).Some? && LowerHexValue(text[2 * i + 1]).Some?
        ensures 16 * LowerHexValue(text[2 * i]).value + LowerHexValue(text[2 * i + 1]).value == d[i] as int
      {
        if i > 0 {
          assert text[2 * i] == rest[2 * (i - 1)] && text[2 * i + 1] == rest[2 * (i - 1) + 1] && d[i] == d[1..][i - 1];
        }
      }
    }
  }

  lemma SameDigits(x: Byte, y: Byte, x': Byte, y': Byte)
    requires LowerHexValue(x).Some? && LowerHexValue(y).Some? && LowerHexValue(x').Some? && LowerHexValue(y').Some?
    requires 16 * LowerHexValue(x).value + LowerHexValue(y).value == 16 * LowerHexValue(x').value + LowerHexValue(y').value
    ensures x == x' && y == y'
  {
  }

  /** Only one text is d in hexadecimal. */
  lemma HexOfOne(text: Bytes, d: Bytes)
    requires HexOf(text, d)
    ensures text == Hex(d)
  {
    hide LowerHexValue, Hex;
    HexPrints(d);
    forall j | 0 <= j < |text| ensures text[j] == Hex(d)[j] {
      var i := j / 2;
      SameDigits(text[2 * i], text[2 * i + 1], Hex(d)[2 * i], Hex(d)[2 * i + 1]);
    }
  }

  /** The unescaper reads digits of both cases and nothing else. */
  lemma HexValueIs(c: Byte)
    ensures HexValue(c) == if 'A' <= c <= 'F' then Some(c as int - 'A' as int + 10) else LowerHexValue(c)
  {
  }

  /** RFC 3986, section 2.3. */
  lemma UnreservedIs(c: Byte)
    ensures Unreserved(c)
       <==> 'A' <= c <= 'Z' || 'a' <= c <= 'z' || '0' <= c <= '9' || c == '-' || c == '.' || c == '_' || c == '~'
  {
  }

  /** A byte is written as itself, as a plus sign, or as a percent sign and its two upper-case digits. */
  lemma EscapeWrites(c: Byte)
    ensures var text := Escape([c]);
      if Unreserved(c) then text == [c]
      else if c == ' ' then text == "+"
      else exists hi, lo :: 0 <= hi < 16 && 0 <= lo < 16 && 16 * hi + lo == c as int
             && text == "%" + ["0123456789ABCDEF"[hi]] + ["0123456789ABCDEF"[lo]]
  {
    assert [c][1..] == [];
    assert Escape([c]) == EscapeByte(c) + Escape([]);
    if !Unreserved(c) && c != ' ' {
      var hi, lo := c as int / 16, c as int % 16;
      assert Escape([c]) == "%" + ["0123456789ABCDEF"[hi]] + ["0123456789ABCDEF"[lo]];
    }
  }

  lemma {:induction false} EscapeConcat(a: Bytes, b: Bytes)
    ensures Escape(a + b) == Escape(a) + Escape(b)
    decreases |a|
  {
    if a == [] {
      assert a + b == b;
    } else {
      assert (a + b)[1..] == a[1..] + b;
      EscapeConcat(a[1..], b);
    }
  }

  predicate BrokenEscape(s: Bytes, i: int) {
    0 <= i < |s| && s[i] == '%' && !(i + 2 < |s| && HexValue(s[i + 1]).Some? && HexValue(s[i + 2]).Some?)
  }

  /** Unescaping fails exactly on a percent sign that two hexadecimal digits do not follow. */
  lemma {:induction false} UnescapeFailsIff(s: Bytes)
    ensures Unescape(s).None? <==> exists i :: BrokenEscape(s, i)
    decreases |s|
  {
    if s != [] {
      var k := if s[0] == '%' then 3 else 1;
      if BrokenEscape(s, 0) {
      } else {
        var rest := s[k..];
        UnescapeFailsIff(rest);
        if i :| BrokenEscape(rest, i) {
          assert BrokenEscape(s, i + k);
        }
        if i :| BrokenEscape(s, i) {
          assert i >= k;
          assert BrokenEscape(rest, i - k);
        }
      }
    }
  }

  /** A well-formed escape, in either case, stands for its byte. */
  lemma UnescapePercent(x: Byte, y: Byte, rest: Bytes)
    requires HexValue(x).Some? && HexValue(y).Some? && Unescape(rest).Some?
    ensures Unescape(['%', x, y] + rest) == Some([(16 * HexValue(x).value + HexValue(y).value) as char] + Unescape(rest).value)
  {
    assert (['%', x, y] + rest)[3..] == rest;
  }

  // ---- queries ----

  datatype Param = Param(key: Bytes, value: Bytes)

  function ReadParam(piece: Bytes): Option<Param> {
    if piece == [] || ';' in piece then None
    else
      var (k, v) := CutAt(piece, '=');
      if Unescape(k).Some? && Unescape(v).Some? then Some(Param(Unescape(k).value, Unescape(v).value)) else None
  }

  function ParamOf(piece: Bytes): seq<Param> {
    match ReadParam(piece) case None => [] case Some(p) => [p]
  }

  /** url.ParseQuery with its errors ignored, as URL.Query does: bad pieces are skipped. */
  function ParseQuery(q: Bytes): seq<Param>
    decreases |q|
  {
    if q == [] then []
    else
      var (piece, rest) := CutAt(q, '&');
      ParamOf(piece) + ParseQuery(rest)
  }

  function ValuesFor(params: seq<Param>, key: Bytes): seq<Bytes> {
    if params == [] then []
    else (if params[0].key == key then [params[0].value] else []) + ValuesFor(params[1..], key)
  }

  /** A piece is skipped exactly if it is empty, holds a semicolon or has a broken escape before or after
      its first equals sign. */
  lemma SkippedIff(piece: Bytes)
    ensures var (k, v) := CutAt(piece, '=');
      ReadParam(piece).None? <==> piece == [] || ';' in piece || (exists i :: BrokenEscape(k, i)) || exists i :: BrokenEscape(v, i)
  {
    var (k, v) := CutAt(piece, '=');
    UnescapeFailsIff(k);
    UnescapeFailsIff(v);
  }

  /** A piece without an equals sign is a key with an empty value. */
  lemma BareKey(piece: Bytes)
    requires piece != [] && ';' !in piece && '=' !in piece && '%' !in piece && '+' !in piece
    ensures ReadParam(piece) == Some(Param(piece, []))
  {
    CutIn(piece, '=', []);
    UnescapePlain(piece);
  }

  lemma {:induction false} ValuesForConcat(a: seq<Param>, b: seq<Param>, key: Bytes)
    ensures ValuesFor(a + b, key) == ValuesFor(a, key) + ValuesFor(b, key)
    ensures forall p: Param :: ValuesFor([p], key) == if p.key == key then [p.value] else []
    decreases |a|
  {
    forall p: Param ensures ValuesFor([p], key) == if p.key == key then [p.value] else [] {
      assert [p][1..] == [];
    }
    if a == [] {
      assert a + b == b;
    } else {
      assert (a + b)[1..] == a[1..] + b;
      ValuesForConcat(a[1..], b, key);
    }
  }

  lemma ReadWritten(key: Bytes, text: Bytes, value: Bytes)
    requires AllPlain(key) && '%' !in key && '+' !in key
    requires AllPlain(text) && Unescape(text) == Some(value)
    ensures ReadParam(key + "=" + text) == Some(Param(key, value))
    ensures '&' !in key + "=" + text
  {
    CutIn(key, '=', text);
    UnescapePlain(key);
  }

  lemma EmptyPiece()
    ensures ReadParam([]) == None
  {
  }

  lemma ParseStep(piece: Bytes, rest: Bytes)
    requires '&' !in piece
    ensures ParseQuery(piece + "&" + rest) == ParamOf(piece) + ParseQuery(rest)
    ensures ParseQuery(piece) == ParamOf(piece)
  {
    hide ReadParam;
    CutIn(piece, '&', rest);
    EmptyPiece();
    assert ParseQuery([]) == [];
  }

  /** A query is the list of its pieces: parsing cuts at every & and nowhere else. */
  lemma {:induction false} ParseQueryConcat(a: Bytes, b: Bytes)
    ensures ParseQuery(a + "&" + b) == ParseQuery(a) + ParseQuery(b)
    decreases |a|
  {
    hide ParamOf, ParseQuery;
    var j := Find(a, '&');
    var piece := a[..j];
    if j == |a| {
      ParseStep(a, b);
    } else {
      var rest := a[j + 1..];
      assert a == piece + "&" + rest;
      assert a + "&" + b == piece + "&" + (rest + "&" + b);
      ParseStep(piece, rest);
      ParseStep(piece, rest + "&" + b);
      ParseQueryConcat(rest, b);
    }
  }

  lemma ParseFirst(piece: Bytes, p: Param, rest: Bytes)
    requires '&' !in piece && ReadParam(piece) == Some(p)
    ensures ParseQuery(piece + "&" + rest) == [p] + ParseQuery(rest)
    ensures ParseQuery(piece) == [p]
  {
    ParseStep(piece, rest);
  }

  // ---- the link ----

  function TrackerText(trackers: seq<Bytes>): Bytes {
    if trackers == [] then [] else "&tr=" + Escape(trackers[0]) + TrackerText(trackers[1..])
  }

  function NameText(name: Option<Bytes>): Bytes {
    match name
    case None => []
    case Some(n) => "&dn=" + Escape(n)
  }

  function Topic(hash: Digest): Bytes {
    "urn:btih:" + Hex(hash)
  }

  /** The string the builder in TorrentFileToMagnet ends with, for one order of the tracker set. */
  function Link(hash: Digest, name: Option<Bytes>, trackers: seq<Bytes>): Bytes {
    "magnet:?xt=" + Topic(hash) + NameText(name) + TrackerText(trackers)
  }

  function TrackerParams(trackers: seq<Bytes>): seq<Param> {
    if trackers == [] then [] else [Param("tr", trackers[0])] + TrackerParams(trackers[1..])
  }

  lemma Joined(a: Bytes, piece: Bytes, rest: Bytes)
    ensures a + ("&" + piece + rest) == a + "&" + (piece + rest)
  {
  }

  lemma TrackerPiece(t: Bytes)
    ensures var piece := "tr" + "=" + Escape(t);
      "&tr=" + Escape(t) == "&" + piece && '&' !in piece && ReadParam(piece) == Some(Param("tr", t))
  {
    hide Escape, Unescape, ReadParam;
    UnescapeEscape(t);
    ReadWritten("tr", Escape(t), t);
    assert "&tr=" + Escape(t) == "&" + ("tr" + "=" + Escape(t));
  }

  lemma {:induction false} ParseTrackers(first: Bytes, p: Param, trackers: seq<Bytes>)
    requires '&' !in first && ReadParam(first) == Some(p)
    ensures ParseQuery(first + TrackerText(trackers)) == [p] + TrackerParams(trackers)
    decreases |trackers|
  {
    if trackers == [] {
      assert first + TrackerText(trackers) == first;
      ParseFirst(first, p, []);
    } else {
      var piece := "tr" + "=" + Escape(trackers[0]);
      TrackerPiece(trackers[0]);
      Joined(first, piece, TrackerText(trackers[1..]));
      ParseFirst(first, p, piece + TrackerText(trackers[1..]));
      ParseTrackers(piece, Param("tr", trackers[0]), trackers[1..]);
    }
  }

  function LinkParams(hash: Digest, name: Option<Bytes>, trackers: seq<Bytes>): seq<Param> {
    [Param("xt", Topic(hash))]
    + (match name case None => [] case Some(n) => [Param("dn", n)])
    + TrackerParams(trackers)
  }

  lemma TopicIsPlain(hash: Digest)
    ensures AllPlain(Topic(hash)) && '%' !in Topic(hash) && '+' !in Topic(hash)
  {
    HexIsPlain(hash);
  }

  lemma TopicReads(hash: Digest)
    ensures ReadParam("xt=" + Topic(hash)) == Some(Param("xt", Topic(hash))) && '&' !in "xt=" + Topic(hash)
  {
    hide Unescape, ReadParam, Topic;
    var topic := Topic(hash);
    TopicIsPlain(hash);
    UnescapePlain(topic);
    ReadWritten("xt", topic, topic);
    assert "xt" + "=" + topic == "xt=" + topic;
  }

  lemma NamePiece(n: Bytes)
    ensures var piece := "dn" + "=" + Escape(n);
      NameText(Some(n)) == "&" + piece && '&' !in piece && ReadParam(piece) == Some(Param("dn", n))
  {
    hide Escape, Unescape, ReadParam;
    UnescapeEscape(n);
    ReadWritten("dn", Escape(n), n);
    assert "&dn=" + Escape(n) == "&" + ("dn" + "=" + Escape(n));
  }

  lemma ParseNamed(first: Bytes, p: Param, n: Bytes, trackers: seq<Bytes>)
    requires '&' !in first && ReadParam(first) == Some(p)
    ensures ParseQuery(first + NameText(Some(n)) + TrackerText(trackers)) == [p] + [Param("dn", n)] + TrackerParams(trackers)
  {
    var piece := "dn" + "=" + Escape(n);
    var tail := TrackerText(trackers);
    NamePiece(n);
    assert first + ("&" + piece) + tail == first + ("&" + piece + tail);
    Joined(first, piece, tail);
    ParseFirst(first, p, piece + tail);
    ParseTrackers(piece, Param("dn", n), trackers);
    assert [p] + ([Param("dn", n)] + TrackerParams(trackers)) == [p] + [Param("dn", n)] + TrackerParams(trackers);
  }

  lemma QueryOfLink(hash: Digest, name: Option<Bytes>, trackers: seq<Bytes>)
    ensures ParseQuery("xt=" + Topic(hash) + NameText(name) + TrackerText(trackers)) == LinkParams(hash, name, trackers)
  {
    var first := "xt=" + Topic(hash);
    var p := Param("xt", Topic(hash));
    TopicReads(hash);
    match name {
      case None =>
        assert first + NameText(name) == first && [p] + [] + TrackerParams(trackers) == [p] + TrackerParams(trackers);
        ParseTrackers(first, p, trackers);
      case Some(n) =>
        ParseNamed(first, p, n, trackers);
    }
  }

  lemma {:induction false} TrackerValues(trackers: seq<Bytes>)
    ensures ValuesFor(TrackerParams(trackers), "tr") == trackers
    ensures ValuesFor(TrackerParams(trackers), "xt") == [] && ValuesFor(TrackerParams(trackers), "dn") == []
    decreases |trackers|
  {
    if trackers != [] {
      TrackerValues(trackers[1..]);
      assert TrackerParams(trackers)[1..] == TrackerParams(trackers[1..]);
    }
  }

  lemma LinkValues(hash: Digest, name: Option<Bytes>, trackers: seq<Bytes>)
    ensures var ps := LinkParams(hash, name, trackers);
      && ValuesFor(ps, "xt") == [Topic(hash)]
      && ValuesFor(ps, "dn") == (match name case None => [] case Some(n) => [n])
      && ValuesFor(ps, "tr") == trackers
  {
    TrackerValues(trackers);
    var ps := LinkParams(hash, name, trackers);
    match name {
      case None =>
        assert ps[1..] == TrackerParams(trackers);
      case Some(n) =>
        assert ps[1..] == [Param("dn", n)] + TrackerParams(trackers);
        assert ps[1..][1..] == TrackerParams(trackers);
    }
  }
}
