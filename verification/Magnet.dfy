/** core/pkg/magnet/magnet.go: TorrentFileToMagnet and DecodeMagnetURL. SHA-1 is any function from
    byte strings to 20 bytes. */
module Magnet {
  import opened Options
  import opened ByteStrings
  import opened Bencode
  import opened BencodeValues
  import opened MagnetText

  // ---- what the torrent file says ----

  /** The top-level dictionary and its info dictionary, if the file has both. */
  function Torrent(data: Bytes): Option<(seq<Entry>, seq<Entry>)> {
    match Decode(data)
    case None => None
    case Some((v, _)) =>
      if !v.Dict? then None
      else
        match Lookup(v.entries, "info")
        case Some(Dict(info)) => Some((v.entries, info))
        case _ => None
  }

  function DisplayName(info: seq<Entry>): Option<Bytes> {
    match Lookup(info, "name")
    case Some(Str(name)) => Some(name)
    case _ => None
  }

  /** What is read from the file, key by key. */
  lemma TorrentReads(data: Bytes, top: seq<Entry>, info: seq<Entry>)
    ensures Torrent(data) == Some((top, info))
       <==> Lookup(top, "info") == Some(Dict(info)) && Decode(data).Some? && Decode(data).value.0 == Dict(top)
    ensures forall n :: DisplayName(info) == Some(n) <==> Lookup(info, "name") == Some(Str(n))
  {
    match Lookup(info, "name") {
      case Some(Str(name)) =>
      case _ =>
    }
  }

  function NonEmptyStrings(tier: seq<Value>): set<Bytes> {
    set v | v in tier && v.Str? && v.s != [] :: v.s
  }

  function TierTrackers(tiers: seq<Value>): set<Bytes> {
    set tier, v | tier in tiers && tier.List? && v in tier.items && v.Str? && v.s != [] :: v.s
  }

  /** The non-empty announce and announce-list URLs. */
  function Trackers(top: seq<Entry>): set<Bytes> {
    (match Lookup(top, "announce") case Some(Str(url)) => (if url != [] then {url} else {}) case _ => {})
    + (match Lookup(top, "announce-list") case Some(List(tiers)) => TierTrackers(tiers) case _ => {})
  }

  predicate Announced(top: seq<Entry>, url: Bytes) {
    Lookup(top, "announce") == Some(Str(url))
  }

  predicate Tiered(top: seq<Entry>, url: Bytes) {
    var tiers := Lookup(top, "announce-list");
    tiers.Some? && tiers.value.List? && exists tier :: tier in tiers.value.items && tier.List? && Str(url) in tier.items
  }

  /** An order in which a range over the set can produce it. */
  ghost predicate Enumerates(order: seq<Bytes>, s: set<Bytes>) {
    (forall t :: t in order <==> t in s) && (forall i, j :: 0 <= i < j < |order| ==> order[i] != order[j])
  }

  method TorrentFileToMagnet(data: Bytes, sha1: Bytes -> Digest) returns (r: Option<Bytes>)
    ensures r.None? <==> Torrent(data).None?
    ensures r.Some? ==> StartsWithHash(r.value, sha1(Encode(Dict(Torrent(data).value.1))))
    ensures r.Some? ==> var (top, info) := Torrent(data).value;
      exists order :: Enumerates(order, Trackers(top)) && r.value == Link(sha1(Encode(Dict(info))), DisplayName(info), order)
  {
    var decoded := Decode(data);
    if decoded.None? || !decoded.value.0.Dict? { return None; }
    var torrentInfo := decoded.value.0.entries;
    var infoValue := Lookup(torrentInfo, "info");
    if infoValue.None? || !infoValue.value.Dict? { return None; }
    var info := infoValue.value.entries;
    var hash := sha1(Encode(Dict(info)));

    var magnetLink: Bytes := "magnet:?xt=urn:btih:";
    magnetLink := magnetLink + Hex(hash);
    var name := Lookup(info, "name");
    if name.Some? && name.value.Str? {
      magnetLink := magnetLink + "&dn=" + Escape(name.value.s);
    }
    LinkHead(hash, DisplayName(info), magnetLink);
    var trackerUrls := CollectTrackers(torrentInfo);
    ghost var head := magnetLink;
    magnetLink := WriteTrackers(magnetLink, trackerUrls);
    ghost var order :| Enumerates(order, trackerUrls) && magnetLink == head + TrackerText(order);
    assert magnetLink == Link(hash, DisplayName(info), order);
    LinkStartsWithHash(hash, DisplayName(info), order);
    r := Some(magnetLink);
  }

  /** The hash follows the prefix, in lower-case hexadecimal. */
  predicate StartsWithHash(link: Bytes, hash: Digest) {
    |link| >= 60 && link[..20] == "magnet:?xt=urn:btih:" && HexOf(link[20..60], hash)
  }

  lemma LinkStartsWithHash(hash: Digest, name: Option<Bytes>, trackers: seq<Bytes>)
    ensures StartsWithHash(Link(hash, name, trackers), hash)
  {
    hide HexOf, Hex, NameText, TrackerText;
    HexPrints(hash);
    HexIsPlain(hash);
    var link := Link(hash, name, trackers);
    assert link == "magnet:?xt=urn:btih:" + Hex(hash) + NameText(name) + TrackerText(trackers);
    assert link[20..60] == Hex(hash);
  }

  lemma LinkHead(hash: Digest, name: Option<Bytes>, text: Bytes)
    requires text == match name
      case None => "magnet:?xt=urn:btih:" + Hex(hash)
      case Some(n) => "magnet:?xt=urn:btih:" + Hex(hash) + "&dn=" + Escape(n)
    ensures text == "magnet:?xt=" + Topic(hash) + NameText(name)
  {
    assert "magnet:?xt=" + ("urn:btih:" + Hex(hash)) == "magnet:?xt=urn:btih:" + Hex(hash);
  }

  method CollectTrackers(torrentInfo: seq<Entry>) returns (trackerUrls: set<Bytes>)
    ensures trackerUrls == Trackers(torrentInfo)
    ensures forall url :: url in trackerUrls <==> url != [] && (Announced(torrentInfo, url) || Tiered(torrentInfo, url))
  {
    trackerUrls := {};
    var announce := Lookup(torrentInfo, "announce");
    if announce.Some? && announce.value.Str? && announce.value.s != [] {
      trackerUrls := trackerUrls + {announce.value.s};
    }
    var announceList := Lookup(torrentInfo, "announce-list");
    if announceList.Some? && announceList.value.List? {
      trackerUrls := AddTiers(trackerUrls, announceList.value.items);
    }
  }

  /** The range over the tracker map, in whatever order it comes. */
  method WriteTrackers(start: Bytes, trackerUrls: set<Bytes>) returns (magnetLink: Bytes)
    ensures exists order :: Enumerates(order, trackerUrls) && magnetLink == start + TrackerText(order)
  {
    hide Escape, TrackerText;
    magnetLink := start;
    ghost var order: seq<Bytes> := [];
    EmptyTrackers();
    var todo := trackerUrls;
    while todo != {}
      invariant todo <= trackerUrls
      invariant Enumerates(order, trackerUrls - todo)
      invariant magnetLink == start + TrackerText(order)
      decreases todo
    {
      var tracker :| tracker in todo;
      todo := todo - {tracker};
      magnetLink := magnetLink + ("&tr=" + Escape(tracker));
      AppendTracker(order, tracker);
      order := order + [tracker];
    }
  }

  lemma EmptyTrackers()
    ensures TrackerText([]) == []
  {
  }

  lemma {:induction false} AppendTracker(order: seq<Bytes>, t: Bytes)
    ensures TrackerText(order + [t]) == TrackerText(order) + ("&tr=" + Escape(t))
    decreases |order|
  {
    if order == [] {
      assert [t][1..] == [];
      assert TrackerText([t]) == "&tr=" + Escape(t) + TrackerText([]);
    } else {
      assert (order + [t])[1..] == order[1..] + [t];
      AppendTracker(order[1..], t);
      var piece := "&tr=" + Escape(order[0]);
      assert TrackerText(order + [t]) == piece + TrackerText(order[1..] + [t]);
    }
  }

  method AddTiers(found: set<Bytes>, tiers: seq<Value>) returns (urls: set<Bytes>)
    ensures urls == found + TierTrackers(tiers)
  {
    urls := found;
    for i := 0 to |tiers|
      invariant urls == found + TierTrackers(tiers[..i])
    {
      assert tiers[..i + 1] == tiers[..i] + [tiers[i]];
      var tier := tiers[i];
      if !tier.List? {
        assert TierTrackers(tiers[..i + 1]) == TierTrackers(tiers[..i]);
        continue;
      }
      ghost var before := urls;
      for j := 0 to |tier.items|
        invariant urls == before + NonEmptyStrings(tier.items[..j])
      {
        assert tier.items[..j + 1] == tier.items[..j] + [tier.items[j]];
        if tier.items[j].Str? && tier.items[j].s != [] {
          urls := urls + {tier.items[j].s};
          assert NonEmptyStrings(tier.items[..j + 1]) == NonEmptyStrings(tier.items[..j]) + {tier.items[j].s};
        } else {
          assert NonEmptyStrings(tier.items[..j + 1]) == NonEmptyStrings(tier.items[..j]);
        }
      }
      assert tier.items[..|tier.items|] == tier.items;
    }
    assert tiers[..|tiers|] == tiers;
  }

  // ---- DecodeMagnetURL ----

  datatype Components = Components(infoHash: Bytes, displayName: Bytes, trackers: seq<Bytes>, exactTopics: seq<Bytes>)

  function Lower(s: Bytes): Bytes {
    if s == [] then []
    else [if 'A' <= s[0] <= 'Z' then (s[0] as int + 32) as char else s[0]] + Lower(s[1..])
  }

  predicate SchemeByte(c: Byte) {
    IsLetter(c) || IsDigit(c) || c in ['+', '-', '.']
  }

  /** The scheme and what follows its colon; None where url.Parse finds no scheme or reports one missing. */
  function SchemeOf(u: Bytes): Option<(Bytes, Bytes)> {
    var j := Find(u, ':');
    if 0 < j < |u| && IsLetter(u[0]) && (forall i :: 0 <= i < j ==> SchemeByte(u[i])) then Some((Lower(u[..j]), u[j + 1..]))
    else None
  }

  predicate NoControlBytes(u: Bytes) {
    forall i :: 0 <= i < |u| ==> ' ' <= u[i] && u[i] as int != 127
  }

  /** The scheme and raw query url.Parse reports. rooted is its verdict on an authority or rooted path,
      which a magnet link does not have. */
  function ParseURL(uri: Bytes, rooted: Bytes -> bool): Option<(Bytes, Bytes)> {
    var (u, fragment) := CutAt(uri, '#');
    if !NoControlBytes(u) || SchemeOf(u).None? then None
    else
      var (scheme, rest) := SchemeOf(u).value;
      var (path, query) := CutAt(rest, '?');
      if (path != [] && path[0] == '/' && !rooted(path)) || Unescape(fragment).None? then None
      else Some((scheme, query))
  }

  const BTIH: Bytes := "urn:btih:"

  predicate NamesHash(topic: Bytes) {
    BTIH <= topic && topic != BTIH
  }

  /** The hash in the first topic that names one. */
  function FirstHash(topics: seq<Bytes>): Bytes {
    if topics == [] then []
    else if NamesHash(topics[0]) then topics[0][|BTIH|..]
    else FirstHash(topics[1..])
  }

  predicate IsFirst(topics: seq<Bytes>, i: int) {
    0 <= i < |topics| && NamesHash(topics[i]) && forall j :: 0 <= j < i ==> !NamesHash(topics[j])
  }

  /** The info hash is empty exactly if no topic names one; otherwise it is the first that does. */
  lemma {:induction false} FirstHashIs(topics: seq<Bytes>)
    ensures FirstHash(topics) == [] <==> (forall t :: t in topics ==> !NamesHash(t))
    ensures forall i :: IsFirst(topics, i) ==> topics[i] == BTIH + FirstHash(topics)
    decreases |topics|
  {
    if topics != [] {
      FirstHashIs(topics[1..]);
      if !NamesHash(topics[0]) {
        forall i | IsFirst(topics, i) ensures topics[i] == BTIH + FirstHash(topics) {
          assert topics[1..][i - 1] == topics[i];
          assert forall j :: 0 <= j < i - 1 ==> topics[1..][j] == topics[j + 1];
          assert IsFirst(topics[1..], i - 1);
        }
      }
    }
  }

  function DecodeMagnet(uri: Bytes, rooted: Bytes -> bool): Option<Components> {
    match ParseURL(uri, rooted)
    case None => None
    case Some((scheme, query)) =>
      if scheme != "magnet" then None
      else
        var params := ParseQuery(query);
        var names := ValuesFor(params, "dn");
        Some(Components(FirstHash(ValuesFor(params, "xt")), if names == [] then [] else names[0],
                        ValuesFor(params, "tr"), ValuesFor(params, "xt")))
  }

  /** What the program asks of a URI: no control byte before the fragment, the scheme magnet in either
      case, an authority or rooted path that url.Parse likes, no broken escape in the fragment. */
  ghost predicate Acceptable(uri: Bytes, rooted: Bytes -> bool) {
    var u := uri[..Find(uri, '#')];
    && (forall i :: 0 <= i < |u| ==> u[i] as int >= 32 && u[i] as int != 127)
    && |u| > 6 && Lower(u[..6]) == "magnet" && u[6] == ':'
    && (|u| > 7 && u[7] == '/' ==> rooted(CutAt(u[7..], '?').0))
    && !exists i :: BrokenEscape(CutAt(uri, '#').1, i)
  }

  /** Decoding fails on every other URI, and only there. */
  lemma DecodesIff(uri: Bytes, rooted: Bytes -> bool)
    ensures DecodeMagnet(uri, rooted).Some? <==> Acceptable(uri, rooted)
  {
    hide ParseQuery, ValuesFor, FirstHash, Unescape, BrokenEscape, SchemeOf, Lower;
    var u := uri[..Find(uri, '#')];
    assert uri[..|uri|] == uri;
    assert CutAt(uri, '#').0 == u;
    UnescapeFailsIff(CutAt(uri, '#').1);
    MagnetSchemeIff(u);
    if |u| >= 7 { PathOf(u); }
  }

  lemma PathOf(u: Bytes)
    requires |u| >= 7
    ensures var path := CutAt(u[7..], '?').0; path != [] && path[0] == '/' <==> |u| > 7 && u[7] == '/'
  {
  }

  lemma MagnetSchemeIff(u: Bytes)
    ensures SchemeOf(u).Some? && SchemeOf(u).value.0 == "magnet" <==> |u| > 6 && Lower(u[..6]) == "magnet" && u[6] == ':'
    ensures SchemeOf(u).Some? && SchemeOf(u).value.0 == "magnet" ==> SchemeOf(u).value.1 == u[7..]
  {
    var j := Find(u, ':');
    LowerKeepsLength(u[..j]);
    if |u| > 6 && Lower(u[..6]) == "magnet" && u[6] == ':' {
      MagnetIsScheme(u);
    }
  }

  lemma MagnetIsScheme(u: Bytes)
    requires |u| > 6 && Lower(u[..6]) == "magnet" && u[6] == ':'
    ensures SchemeOf(u) == Some(("magnet", u[7..]))
  {
    var name := u[..6];
    LowerKeepsLength(name);
    forall i | 0 <= i < 6 ensures IsLetter(name[i]) {
      assert IsLetter(Lower(name)[i]);
    }
    assert u == name + [':'] + u[7..];
    assert forall i :: 0 <= i < 6 ==> name[i] == u[i];
    FindIn(name, ':', u[7..]);
  }

  /** A fragment changes nothing. */
  lemma FragmentIgnored(uri: Bytes, fragment: Bytes, rooted: Bytes -> bool)
    requires '#' !in uri && Unescape(fragment).Some?
    ensures DecodeMagnet(uri + "#" + fragment, rooted) == DecodeMagnet(uri, rooted)
  {
    CutIn(uri, '#', fragment);
    assert Unescape([]) == Some([]);
  }

  lemma {:induction false} LowerKeepsLength(s: Bytes)
    ensures |Lower(s)| == |s|
    ensures forall i :: 0 <= i < |s| ==> Lower(s)[i] == if 'A' <= s[i] <= 'Z' then (s[i] as int + 32) as char else s[i]
  {
    if s != [] {
      LowerKeepsLength(s[1..]);
    }
  }

  /** Place i holds the first of the parameters with that key. */
  predicate FirstParam(params: seq<Param>, i: int, key: Bytes) {
    0 <= i < |params| && params[i].key == key && forall j :: 0 <= j < i ==> params[j].key != key
  }

  lemma {:induction false} FirstValue(params: seq<Param>, key: Bytes)
    ensures forall i :: FirstParam(params, i, key) ==>
      ValuesFor(params, key) != [] && ValuesFor(params, key)[0] == params[i].value
    ensures (forall p :: p in params ==> p.key != key) ==> ValuesFor(params, key) == []
    decreases |params|
  {
    if params != [] {
      FirstValue(params[1..], key);
      if params[0].key != key {
        forall i | FirstParam(params, i, key)
          ensures ValuesFor(params, key) != [] && ValuesFor(params, key)[0] == params[i].value
        {
          assert params[1..][i - 1] == params[i];
          assert FirstParam(params[1..], i - 1, key);
        }
      }
    }
  }

  /** The display name is the first dn parameter, empty if there is none; trackers and topics are all the
      tr and xt parameters. */
  lemma DecodeReads(uri: Bytes, query: Bytes, rooted: Bytes -> bool)
    requires ParseURL(uri, rooted) == Some(("magnet", query))
    ensures var decoded, params := DecodeMagnet(uri, rooted), ParseQuery(query);
      && decoded.Some?
      && (forall i :: FirstParam(params, i, "dn") ==> decoded.value.displayName == params[i].value)
      && ((forall p :: p in params ==> p.key != "dn") ==> decoded.value.displayName == [])
      && decoded.value.trackers == ValuesFor(params, "tr")
      && decoded.value.exactTopics == ValuesFor(params, "xt")
  {
    hide ParseURL, ParseQuery, ValuesFor;
    FirstValue(ParseQuery(query), "dn");
  }

  method DecodeMagnetURL(uri: Bytes, rooted: Bytes -> bool) returns (r: Option<Components>)
    ensures r == DecodeMagnet(uri, rooted)
  {
    hide ParseURL, ParseQuery, ValuesFor;
    var components := Components([], [], [], []);
    var parsed := ParseURL(uri, rooted);
    if parsed.None? || parsed.value.0 != "magnet" { return None; }
    var params := ParseQuery(parsed.value.1);
    var xtValues := ValuesFor(params, "xt");
    components := components.(exactTopics := xtValues);
    var i := 0;
    while i < |xtValues|
      invariant 0 <= i <= |xtValues|
      invariant components == Components([], [], [], xtValues)
      invariant FirstHash(xtValues) == FirstHash(xtValues[i..])
    {
      if BTIH <= xtValues[i] {
        var hash := xtValues[i][|BTIH|..];
        if hash != [] {
          components := components.(infoHash := hash);
          break;
        }
      }
      i := i + 1;
    }
    var names := ValuesFor(params, "dn");
    if names != [] {
      components := components.(displayName := names[0]);
    }
    components := components.(trackers := ValuesFor(params, "tr"));
    r := Some(components);
  }

  // ---- round trip ----

  predicate UriByte(c: Byte) {
    ' ' < c && c as int < 127 && c != '#'
  }

  predicate UriBytes(s: Bytes) {
    forall i :: 0 <= i < |s| ==> UriByte(s[i])
  }

  lemma PlainIsUri(s: Bytes)
    requires AllPlain(s)
    ensures UriBytes(s)
  {
    forall i | 0 <= i < |s| ensures UriByte(s[i]) {
      assert s[i] in s;
    }
  }

  lemma {:induction false} TrackerTextIsUri(trackers: seq<Bytes>)
    ensures UriBytes(TrackerText(trackers))
    decreases |trackers|
  {
    if trackers != [] {
      UnescapeEscape(trackers[0]);
      PlainIsUri(Escape(trackers[0]));
      TrackerTextIsUri(trackers[1..]);
    }
  }

  lemma NameTextIsUri(name: Option<Bytes>)
    ensures UriBytes(NameText(name))
  {
    if name.Some? {
      UnescapeEscape(name.value);
      PlainIsUri(Escape(name.value));
    }
  }

  lemma LinkIsUri(hash: Digest, name: Option<Bytes>, trackers: seq<Bytes>)
    ensures UriBytes(Link(hash, name, trackers))
  {
    TopicIsPlain(hash);
    PlainIsUri(Topic(hash));
    NameTextIsUri(name);
    TrackerTextIsUri(trackers);
  }

  lemma MagnetScheme(rest: Bytes)
    ensures SchemeOf("magnet:" + rest) == Some(("magnet", rest))
  {
    var uri := "magnet:" + rest;
    assert uri == "magnet" + [':'] + rest;
    FindIn("magnet", ':', rest);
    assert uri[..6] == "magnet" && uri[7..] == rest;
    assert Lower("magnet") == "magnet";
  }

  lemma ParseMagnet(query: Bytes, rooted: Bytes -> bool)
    requires UriBytes("magnet:?" + query)
    ensures ParseURL("magnet:?" + query, rooted) == Some(("magnet", query))
  {
    MagnetScheme("?" + query);
    assert "magnet:" + ("?" + query) == "magnet:?" + query;
  }

  lemma LinkParses(hash: Digest, name: Option<Bytes>, trackers: seq<Bytes>, rooted: Bytes -> bool)
    ensures ParseURL(Link(hash, name, trackers), rooted)
         == Some(("magnet", "xt=" + Topic(hash) + NameText(name) + TrackerText(trackers)))
  {
    LinkIsUri(hash, name, trackers);
    Reassociate(Topic(hash), NameText(name), TrackerText(trackers));
    ParseMagnet("xt=" + Topic(hash) + NameText(name) + TrackerText(trackers), rooted);
  }

  lemma Reassociate(topic: Bytes, name: Bytes, trackers: Bytes)
    ensures "magnet:?xt=" + topic + name + trackers == "magnet:?" + ("xt=" + topic + name + trackers)
  {
  }

  /** Printing and decoding a magnet link is the identity, for every name and every list of trackers. */
  lemma MagnetRoundTrip(hash: Digest, name: Option<Bytes>, trackers: seq<Bytes>, rooted: Bytes -> bool)
    ensures DecodeMagnet(Link(hash, name, trackers), rooted)
         == Some(Components(Hex(hash), if name.Some? then name.value else [], trackers, [Topic(hash)]))
    ensures HexOf(Hex(hash), hash)
  {
    HexPrints(hash);
    LinkParses(hash, name, trackers, rooted);
    QueryOfLink(hash, name, trackers);
    LinkValues(hash, name, trackers);
  }

  /** A torrent file converted and decoded again: the same info hash, the same display name (empty if
      absent) and exactly the file's non-empty tracker URLs, each once, in every order of the set. */
  lemma TorrentRoundTrip(data: Bytes, sha1: Bytes -> Digest, order: seq<Bytes>, rooted: Bytes -> bool)
    requires Torrent(data).Some? && Enumerates(order, Trackers(Torrent(data).value.0))
    ensures var (top, info) := Torrent(data).value; var hash := sha1(Encode(Dict(info)));
      var decoded := DecodeMagnet(Link(hash, DisplayName(info), order), rooted);
      && decoded.Some?
      && HexOf(decoded.value.infoHash, hash)
      && decoded.value.displayName == (match DisplayName(info) case None => [] case Some(n) => n)
      && Enumerates(decoded.value.trackers, Trackers(top))
      && multiset(decoded.value.trackers) == multiset(Trackers(top))
  {
    var (top, info) := Torrent(data).value;
    MagnetRoundTrip(sha1(Encode(Dict(info))), DisplayName(info), order, rooted);
    EnumerationIsSet(order, Trackers(top));
  }

  lemma {:induction false} EnumerationIsSet(order: seq<Bytes>, s: set<Bytes>)
    requires Enumerates(order, s)
    ensures multiset(order) == multiset(s)
    decreases |order|
  {
    if order == [] {
      assert s == {};
    } else {
      var t := order[0];
      var tail := order[1..];
      assert order == [t] + tail;
      assert t !in tail by {
        forall i | 0 <= i < |tail| ensures tail[i] != t { assert tail[i] == order[i + 1]; }
      }
      EnumerationIsSet(tail, s - {t});
      assert multiset(s) == multiset(s - {t}) + multiset{t};
    }
  }

  /** The info hash is the hash of the file's own bytes: the last info dictionary of the file is a
      slice of it, and that slice is what gets hashed exactly when it is canonical bencode. */
  lemma InfoHashOfFile(data: Bytes, sha1: Bytes -> Digest) returns (before: Bytes, slice: Raw, after: Bytes)
    requires Torrent(data).Some?
    ensures data == before + Flatten(slice) + after
    ensures Readable(slice) && slice.RawDict? && ValueOf(slice) == Dict(Torrent(data).value.1)
    ensures Encode(Dict(Torrent(data).value.1)) == Flatten(slice) <==> Canonical(slice)
    ensures Canonical(slice) ==> sha1(Encode(Dict(Torrent(data).value.1))) == sha1(Flatten(slice))
  {
    var entries, rest := TorrentSyntax(data);
    hide Read, ValueOf, InsertAll, Encode, Print, Torrent;
    slice := LastEntry(entries, "info").value.val;
    EncodeDecode(slice);
    var i :| 0 <= i < |entries| && entries[i] == LastEntry(entries, "info").value;
    var b, a := SliceOfEntries(entries, i);
    before := "d" + b;
    after := a + "e" + rest;
    Regroup(b, Flatten(slice), a, rest);
  }

  lemma TorrentSyntax(data: Bytes) returns (entries: seq<RawEntry>, rest: Bytes)
    requires Torrent(data).Some?
    ensures data == "d" + FlattenEntries(entries) + "e" + rest
    ensures var info := LastEntry(entries, "info");
      && info.Some? && info.value in entries && Readable(info.value.val) && info.value.val.RawDict?
      && ValueOf(info.value.val) == Dict(Torrent(data).value.1)
  {
    ReadFlattens(data);
    var (file, tail) := Read(data).value;
    entries, rest := file.entries, tail;
    LookupIsLastEntry([], entries, "info");
  }

  lemma Regroup(b: Bytes, slice: Bytes, a: Bytes, rest: Bytes)
    ensures "d" + (b + slice + a) + "e" + rest == "d" + b + slice + (a + "e" + rest)
  {
  }

  lemma {:induction false} SliceOfEntries(entries: seq<RawEntry>, i: nat) returns (before: Bytes, after: Bytes)
    requires i < |entries|
    ensures FlattenEntries(entries) == before + Flatten(entries[i].val) + after
    decreases |entries|
  {
    var e := entries[0];
    var head := e.keyLen + ":" + e.key;
    if i == 0 {
      before, after := head, FlattenEntries(entries[1..]);
    } else {
      var b, a := SliceOfEntries(entries[1..], i - 1);
      before, after := head + Flatten(e.val) + b, a;
    }
  }
}
