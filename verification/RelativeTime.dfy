/** CustomRelTime of core/pkg/litany/time.go with its table of magnitudes. Times are nanoseconds. */
module RelativeTime {
  import opened Options
  import opened ByteStrings

  const SECOND := 1_000_000_000
  const MINUTE := 60 * SECOND
  const HOUR := 60 * MINUTE
  const DAY := 24 * HOUR
  const WEEK := 7 * DAY
  const MONTH := 30 * DAY
  const YEAR := 12 * MONTH
  const LONG_TIME := 37 * YEAR
  const MAX_DURATION := 0x7FFF_FFFF_FFFF_FFFF

  datatype Magnitude = Magnitude(limit: int, format: string, divBy: int)

  /** defaultMagnitudes */
  function Row(n: nat): Magnitude {
    match n
    case 0 => Magnitude(SECOND, "now", SECOND)
    case 1 => Magnitude(2 * SECOND, "1 second %s", 1)
    case 2 => Magnitude(MINUTE, "%d seconds %s", SECOND)
    case 3 => Magnitude(2 * MINUTE, "1 minute %s", 1)
    case 4 => Magnitude(HOUR, "%d minutes %s", MINUTE)
    case 5 => Magnitude(2 * HOUR, "1 hour %s", 1)
    case 6 => Magnitude(DAY, "%d hours %s", HOUR)
    case 7 => Magnitude(2 * DAY, "1 day %s", 1)
    case 8 => Magnitude(WEEK, "%d days %s", DAY)
    case 9 => Magnitude(2 * WEEK, "1 week %s", 1)
    case 10 => Magnitude(MONTH, "%d weeks %s", WEEK)
    case 11 => Magnitude(2 * MONTH, "1 month %s", 1)
    case 12 => Magnitude(YEAR, "%d months %s", MONTH)
    case 13 => Magnitude(18 * MONTH, "1 year %s", 1)
    case 14 => Magnitude(2 * YEAR, "2 years %s", 1)
    case 15 => Magnitude(LONG_TIME, "%d years %s", YEAR)
    case _ => Magnitude(MAX_DURATION, "a long while %s", 1)
  }

  function Table(): seq<Magnitude> {
    seq(17, i requires 0 <= i < 17 => Row(i))
  }

  // ---- the bucket ----

  ghost predicate Ascending(table: seq<Magnitude>) {
    forall i, j :: 0 <= i < j < |table| ==> table[i].limit < table[j].limit
  }

  /** The first row whose limit exceeds the difference. */
  function Bucket(table: seq<Magnitude>, diff: int): (n: nat)
    ensures n <= |table| && (n < |table| ==> table[n].limit > diff)
    ensures forall i :: 0 <= i < n ==> table[i].limit <= diff
  {
    if table == [] || table[0].limit > diff then 0 else 1 + Bucket(table[1..], diff)
  }

  /** Binary search of rows i to j for one whose limit exceeds the difference. */
  function SearchFrom(table: seq<Magnitude>, diff: int, i: nat, j: nat): (n: nat)
    requires i <= j <= |table|
    ensures i <= n <= j
    decreases j - i
  {
    if i == j then i
    else
      var h := (i + j) / 2;
      if table[h].limit > diff then SearchFrom(table, diff, i, h) else SearchFrom(table, diff, h + 1, j)
  }

  /** sort.Search over the limits: in any table, sorted or not, a row whose limit exceeds the difference,
      or the end, right after a row whose limit does not. */
  method Search(table: seq<Magnitude>, diff: int) returns (n: nat)
    ensures n == SearchFrom(table, diff, 0, |table|)
    ensures n <= |table| && (n < |table| ==> table[n].limit > diff) && (n > 0 ==> table[n - 1].limit <= diff)
  {
    var i, j := 0, |table|;
    while i < j
      invariant 0 <= i <= j <= |table|
      invariant SearchFrom(table, diff, i, j) == SearchFrom(table, diff, 0, |table|)
      invariant i > 0 ==> table[i - 1].limit <= diff
      invariant j < |table| ==> table[j].limit > diff
    {
      var h := (i + j) / 2;
      if table[h].limit > diff { j := h; } else { i := h + 1; }
    }
    n := i;
  }

  /** In an ascending table it finds the first such row. */
  lemma {:induction false} SearchIsBucket(table: seq<Magnitude>, diff: int, i: nat, j: nat)
    requires Ascending(table) && i <= j <= |table|
    requires i > 0 ==> table[i - 1].limit <= diff
    requires j < |table| ==> table[j].limit > diff
    ensures SearchFrom(table, diff, i, j) == Bucket(table, diff)
    decreases j - i
  {
    if i < j {
      var h := (i + j) / 2;
      if table[h].limit > diff { SearchIsBucket(table, diff, i, h); } else { SearchIsBucket(table, diff, h + 1, j); }
    }
  }

  // ---- arguments and text ----

  datatype Arg = Label(text: string) | Count(n: int)

  /** The arguments the scan of the format collects. */
  function ScanArgs(format: string, escaped: bool, lbl: string, count: int): seq<Arg> {
    if format == [] then []
    else if escaped then
      (if format[0] == 's' then [Label(lbl)] else if format[0] == 'd' then [Count(count)] else [])
      + ScanArgs(format[1..], false, lbl, count)
    else ScanArgs(format[1..], format[0] == '%', lbl, count)
  }

  /** fmt.Sprintf for %s, %d and %%; None where the verbs and the arguments do not match in number and
      kind. */
  function Sprintf(format: string, args: seq<Arg>): Option<string>
    decreases |format|
  {
    if format == [] then (if args == [] then Some([]) else None)
    else if format[0] != '%' then Prepend([format[0]], Sprintf(format[1..], args))
    else if |format| < 2 then None
    else if format[1] == '%' then Prepend("%", Sprintf(format[2..], args))
    else if format[1] == 's' && args != [] && args[0].Label? then Prepend(args[0].text, Sprintf(format[2..], args[1..]))
    else if format[1] == 'd' && args != [] && args[0].Count? then Prepend(Numeral(args[0].n), Sprintf(format[2..], args[1..]))
    else None
  }

  function Prepend(a: string, r: Option<string>): Option<string> {
    match r
    case None => None
    case Some(b) => Some(a + b)
  }

  /** The format printed with the arguments scanned from it. */
  function Shown(format: string, lbl: string, count: int): Option<string> {
    Sprintf(format, ScanArgs(format, false, lbl, count))
  }

  /** Formats made of text and the verbs %s, %d, %%. */
  predicate KnownVerbs(format: string)
    decreases |format|
  {
    format == []
    || (if format[0] != '%' then KnownVerbs(format[1..])
        else |format| >= 2 && format[1] in ['%', 's', 'd'] && KnownVerbs(format[2..]))
  }

  /** For every such format the scan supplies exactly the arguments its verbs ask for. */
  lemma {:induction false} ArgsMatchVerbs(format: string, lbl: string, count: int)
    requires KnownVerbs(format)
    ensures Shown(format, lbl, count).Some?
    decreases |format|
  {
    if format != [] {
      if format[0] != '%' {
        ArgsMatchVerbs(format[1..], lbl, count);
      } else {
        ArgsMatchVerbs(format[2..], lbl, count);
        assert format[1..][1..] == format[2..];
        var rest := ScanArgs(format[2..], false, lbl, count);
        assert ScanArgs(format, false, lbl, count) == ScanArgs(format[1..], true, lbl, count);
        if format[1] == 's' {
          assert ([Label(lbl)] + rest)[1..] == rest;
        } else if format[1] == 'd' {
          assert ([Count(count)] + rest)[1..] == rest;
        } else {
          assert [] + rest == rest;
        }
      }
    }
  }

  lemma {:induction false} PlainText(text: string, rest: string, lbl: string, count: int, args: seq<Arg>)
    requires '%' !in text
    ensures ScanArgs(text + rest, false, lbl, count) == ScanArgs(rest, false, lbl, count)
    ensures Sprintf(text + rest, args) == Prepend(text, Sprintf(rest, args))
    decreases |text|
  {
    if text == [] {
      assert text + rest == rest;
      assert Sprintf(rest, args).Some? ==> [] + Sprintf(rest, args).value == Sprintf(rest, args).value;
    } else {
      assert (text + rest)[1..] == text[1..] + rest;
      PlainText(text[1..], rest, lbl, count, args);
      assert text == [text[0]] + text[1..];
      var tail := Sprintf(rest, args);
      assert tail.Some? ==> [text[0]] + (text[1..] + tail.value) == text + tail.value;
    }
  }

  /** A doubled percent sign prints one. */
  lemma PercentVerb(rest: string, lbl: string, count: int)
    ensures Shown("%%" + rest, lbl, count) == Prepend("%", Shown(rest, lbl, count))
  {
    var format := "%%" + rest;
    assert format[1..][1..] == rest && format[2..] == rest;
    assert ScanArgs(format, false, lbl, count) == ScanArgs(format[1..], true, lbl, count);
    var args := ScanArgs(rest, false, lbl, count);
    assert [] + args == args;
    assert Sprintf(format, args) == Prepend("%", Sprintf(rest, args));
  }

  lemma LabelVerb(lbl: string, count: int)
    ensures ScanArgs("%s", false, lbl, count) == [Label(lbl)] && Sprintf("%s", [Label(lbl)]) == Some(lbl)
  {
    assert "%s"[1..] == "s" && "s"[1..] == "" && "%s"[2..] == "" && [Label(lbl)][1..] == [];
    assert ScanArgs("s", true, lbl, count) == [Label(lbl)] + ScanArgs("", false, lbl, count);
    assert lbl + [] == lbl;
  }

  lemma FixedText(text: string, lbl: string, count: int)
    requires '%' !in text
    ensures Sprintf(text + "%s", ScanArgs(text + "%s", false, lbl, count)) == Some(text + lbl)
  {
    PlainText(text, "%s", lbl, count, [Label(lbl)]);
    LabelVerb(lbl, count);
  }

  lemma CountedText(text: string, lbl: string, count: int)
    requires '%' !in text
    ensures var format := "%d" + text + "%s";
      Sprintf(format, ScanArgs(format, false, lbl, count)) == Some(Numeral(count) + text + lbl)
  {
    var format := "%d" + text + "%s";
    var tail := text + "%s";
    PlainText(text, "%s", lbl, count, [Label(lbl)]);
    LabelVerb(lbl, count);
    assert format[1..][1..] == tail && format[2..] == tail && format[1] == 'd';
    assert ScanArgs(format, false, lbl, count) == ScanArgs(format[1..], true, lbl, count);
    var args := [Count(count)] + [Label(lbl)];
    assert args[1..] == [Label(lbl)];
    assert Numeral(count) + (text + lbl) == Numeral(count) + text + lbl;
  }

  // ---- CustomRelTime ----

  /** Time.Sub saturates at the largest duration. */
  function Distance(a: int, b: int): nat {
    var d := if a > b then a - b else b - a;
    if d > MAX_DURATION then MAX_DURATION else d
  }

  function Picked(table: seq<Magnitude>, diff: int): Magnitude
    requires table != []
  {
    var n := SearchFrom(table, diff, 0, |table|);
    table[if n >= |table| then |table| - 1 else n]
  }

  /** Integer division of a duration, truncating as Go does. */
  function Quo(d: nat, divisor: int): int
    requires divisor != 0
  {
    if divisor > 0 then d / divisor else -(d / -divisor)
  }

  function RelTime(diff: nat, lbl: string, table: seq<Magnitude>): Option<string>
    requires table != [] && forall m :: m in table ==> m.divBy != 0
  {
    var mag := Picked(table, diff);
    Shown(mag.format, lbl, Quo(diff, mag.divBy))
  }

  /** The loop over the runes of the format. */
  method CollectArgs(format: string, lbl: string, count: int) returns (args: seq<Arg>)
    ensures args == ScanArgs(format, false, lbl, count)
  {
    args := [];
    var escaped := false;
    for i := 0 to |format|
      invariant ScanArgs(format, false, lbl, count) == args + ScanArgs(format[i..], escaped, lbl, count)
    {
      assert format[i..][1..] == format[i + 1..];
      var ch := format[i];
      if escaped {
        if ch == 's' { args := args + [Label(lbl)]; }
        else if ch == 'd' { args := args + [Count(count)]; }
        escaped := false;
      } else {
        escaped := ch == '%';
      }
    }
    assert format[|format|..] == "" && args + [] == args;
  }

  method CustomRelTime(a: int, b: int, albl: string, blbl: string, magnitudes: seq<Magnitude>) returns (r: Option<string>)
    requires magnitudes != [] && forall m :: m in magnitudes ==> m.divBy != 0
    ensures r == RelTime(Distance(a, b), if a > b then blbl else albl, magnitudes)
  {
    hide Sprintf, ScanArgs;
    var lbl, diff := albl, if b - a > MAX_DURATION then MAX_DURATION else b - a;
    if a > b {
      lbl := blbl;
      diff := if a - b > MAX_DURATION then MAX_DURATION else a - b;
    }
    var n := Search(magnitudes, diff);
    if n >= |magnitudes| { n := |magnitudes| - 1; }
    var mag := magnitudes[n];
    var args := CollectArgs(mag.format, lbl, Quo(diff, mag.divBy));
    r := Sprintf(mag.format, args);
  }

  /** The time between the two, at most what a duration can hold. */
  lemma DistanceIs(a: int, b: int)
    ensures Distance(a, b) == Distance(b, a) <= MAX_DURATION
    ensures Distance(a, b) == MAX_DURATION || b == a + Distance(a, b) || a == b + Distance(a, b)
    ensures Distance(a, b) == MAX_DURATION <==> b - a >= MAX_DURATION || a - b >= MAX_DURATION
  {
  }

  /** What a reader is told about a duration, range by range. */
  function Told(d: int, lbl: string): string {
    if d < SECOND then "now"
    else if d < 2 * SECOND then "1 second " + lbl
    else if d < MINUTE then Numeral(d / SECOND) + " seconds " + lbl
    else if d < 2 * MINUTE then "1 minute " + lbl
    else if d < HOUR then Numeral(d / MINUTE) + " minutes " + lbl
    else if d < 2 * HOUR then "1 hour " + lbl
    else if d < DAY then Numeral(d / HOUR) + " hours " + lbl
    else if d < 2 * DAY then "1 day " + lbl
    else if d < WEEK then Numeral(d / DAY) + " days " + lbl
    else if d < 2 * WEEK then "1 week " + lbl
    else if d < MONTH then Numeral(d / WEEK) + " weeks " + lbl
    else if d < 2 * MONTH then "1 month " + lbl
    else if d < YEAR then Numeral(d / MONTH) + " months " + lbl
    else if d < 18 * MONTH then "1 year " + lbl
    else if d < 2 * YEAR then "2 years " + lbl
    else if d < LONG_TIME then Numeral(d / YEAR) + " years " + lbl
    else "a long while " + lbl
  }

  lemma TableAscends()
    ensures Ascending(Table()) && forall m :: m in Table() ==> m.divBy > 0
  {
  }

  lemma BucketIs(n: nat, d: int)
    requires n < 17 && d < Row(n).limit && (n > 0 ==> Row(n - 1).limit <= d)
    ensures Picked(Table(), d) == Row(n)
  {
    TableAscends();
    hide Row;
    assert n > 0 ==> forall i :: 0 <= i < n ==> Table()[i].limit <= Table()[n - 1].limit;
    assert Table()[n] == Row(n);
    assert Bucket(Table(), d) == n;
    SearchIsBucket(Table(), d, 0, 17);
  }

  /** A printed count and what it stands for. */
  predicate CountFits(d: int, unit: int, least: int, most: int)
    requires unit > 0
  {
    least <= d / unit <= most && d / unit * unit <= d < (d / unit + 1) * unit
  }

  lemma Quotient(d: int, unit: int, least: int, most: int)
    requires unit > 0 && least * unit <= d < (most + 1) * unit
    ensures CountFits(d, unit, least, most)
  {
    var q := d / unit;
    assert q * unit <= d < (q + 1) * unit;
    Smaller(least, q + 1, unit);
    Smaller(q, most + 1, unit);
  }

  lemma Smaller(a: int, b: int, unit: int)
    requires unit > 0 && a * unit < b * unit
    ensures a < b
  {
  }

  /** Every printed count is in its unit's range. */
  lemma CountsInRange(d: int)
    ensures 2 * SECOND <= d < MINUTE ==> CountFits(d, SECOND, 2, 59)
    ensures 2 * MINUTE <= d < HOUR ==> CountFits(d, MINUTE, 2, 59)
    ensures 2 * HOUR <= d < DAY ==> CountFits(d, HOUR, 2, 23)
    ensures 2 * DAY <= d < WEEK ==> CountFits(d, DAY, 2, 6)
    ensures 2 * WEEK <= d < MONTH ==> CountFits(d, WEEK, 2, 4)
    ensures 2 * MONTH <= d < YEAR ==> CountFits(d, MONTH, 2, 11)
    ensures 2 * YEAR <= d < LONG_TIME ==> CountFits(d, YEAR, 2, 36)
  {
    hide CountFits;
    if 2 * SECOND <= d < MINUTE { Quotient(d, SECOND, 2, 59); }
    if 2 * MINUTE <= d < HOUR { Quotient(d, MINUTE, 2, 59); }
    if 2 * HOUR <= d < DAY { Quotient(d, HOUR, 2, 23); }
    if 2 * DAY <= d < WEEK { Quotient(d, DAY, 2, 6); }
    if 2 * WEEK <= d < MONTH { Quotient(d, WEEK, 2, 4); }
    if 2 * MONTH <= d < YEAR { Quotient(d, MONTH, 2, 11); }
    if 2 * YEAR <= d < LONG_TIME { Quotient(d, YEAR, 2, 36); }
  }

  lemma FixedFormat(format: string, text: string, lbl: string, count: int)
    requires '%' !in text && format == text + "%s"
    ensures Shown(format, lbl, count) == Some(text + lbl)
  {
    FixedText(text, lbl, count);
  }

  lemma CountedFormat(format: string, text: string, lbl: string, count: int)
    requires '%' !in text && format == "%d" + text + "%s"
    ensures Shown(format, lbl, count) == Some(Numeral(count) + text + lbl)
  {
    CountedText(text, lbl, count);
  }

  lemma NowFormat(lbl: string, count: int)
    ensures Shown("now", lbl, count) == Some("now")
  {
    PlainText("now", "", lbl, count, []);
    assert "now" + "" == "now";
  }

  lemma SecondsTold(d: int, lbl: string)
    requires 0 <= d < MINUTE
    ensures RelTime(d, lbl, Table()) == Some(Told(d, lbl))
  {
    hide Shown, Numeral;
    if d < SECOND {
      BucketIs(0, d);
      NowFormat(lbl, d / SECOND);
    } else if d < 2 * SECOND {
      BucketIs(1, d);
      FixedFormat("1 second %s", "1 second ", lbl, d);
    } else {
      BucketIs(2, d);
      CountedFormat("%d seconds %s", " seconds ", lbl, d / SECOND);
    }
  }

  lemma MinutesTold(d: int, lbl: string)
    requires MINUTE <= d < HOUR
    ensures RelTime(d, lbl, Table()) == Some(Told(d, lbl))
  {
    hide Shown, Numeral;
    if d < 2 * MINUTE {
      BucketIs(3, d);
      FixedFormat("1 minute %s", "1 minute ", lbl, d);
    } else {
      BucketIs(4, d);
      CountedFormat("%d minutes %s", " minutes ", lbl, d / MINUTE);
    }
  }

  lemma HoursTold(d: int, lbl: string)
    requires HOUR <= d < DAY
    ensures RelTime(d, lbl, Table()) == Some(Told(d, lbl))
  {
    hide Shown, Numeral;
    if d < 2 * HOUR {
      BucketIs(5, d);
      FixedFormat("1 hour %s", "1 hour ", lbl, d);
    } else {
      BucketIs(6, d);
      CountedFormat("%d hours %s", " hours ", lbl, d / HOUR);
    }
  }

  lemma DaysTold(d: int, lbl: string)
    requires DAY <= d < WEEK
    ensures RelTime(d, lbl, Table()) == Some(Told(d, lbl))
  {
    hide Shown, Numeral;
    if d < 2 * DAY {
      BucketIs(7, d);
      FixedFormat("1 day %s", "1 day ", lbl, d);
    } else {
      BucketIs(8, d);
      CountedFormat("%d days %s", " days ", lbl, d / DAY);
    }
  }

  lemma WeeksTold(d: int, lbl: string)
    requires WEEK <= d < MONTH
    ensures RelTime(d, lbl, Table()) == Some(Told(d, lbl))
  {
    hide Shown, Numeral;
    if d < 2 * WEEK {
      BucketIs(9, d);
      FixedFormat("1 week %s", "1 week ", lbl, d);
    } else {
      BucketIs(10, d);
      CountedFormat("%d weeks %s", " weeks ", lbl, d / WEEK);
    }
  }

  lemma MonthsTold(d: int, lbl: string)
    requires MONTH <= d < YEAR
    ensures RelTime(d, lbl, Table()) == Some(Told(d, lbl))
  {
    hide Shown, Numeral;
    if d < 2 * MONTH {
      BucketIs(11, d);
      FixedFormat("1 month %s", "1 month ", lbl, d);
    } else {
      BucketIs(12, d);
      CountedFormat("%d months %s", " months ", lbl, d / MONTH);
    }
  }

  lemma YearsTold(d: int, lbl: string)
    requires YEAR <= d < LONG_TIME
    ensures RelTime(d, lbl, Table()) == Some(Told(d, lbl))
  {
    hide Shown, Numeral;
    if d < 18 * MONTH {
      BucketIs(13, d);
      FixedFormat("1 year %s", "1 year ", lbl, d);
    } else if d < 2 * YEAR {
      BucketIs(14, d);
      FixedFormat("2 years %s", "2 years ", lbl, d);
    } else {
      BucketIs(15, d);
      CountedFormat("%d years %s", " years ", lbl, d / YEAR);
    }
  }

  lemma LongTold(d: int, lbl: string)
    requires LONG_TIME <= d <= MAX_DURATION
    ensures RelTime(d, lbl, Table()) == Some(Told(d, lbl))
  {
    hide Shown, Numeral, Picked;
    LastBucket(d);
    FixedFormat("a long while %s", "a long while ", lbl, d);
  }

  lemma LastBucket(d: int)
    requires LONG_TIME <= d <= MAX_DURATION
    ensures Picked(Table(), d) == Row(16)
  {
    TableAscends();
    assert Row(15).limit == LONG_TIME;
    hide Row;
    assert Table()[15] == Row(15) && Table()[16] == Row(16);
    assert forall i :: 0 <= i < 16 ==> Table()[i].limit <= Table()[15].limit;
  }

  /** For every duration an int64 can hold the program prints what its range says. */
  lemma EveryDuration(d: int, lbl: string)
    requires 0 <= d <= MAX_DURATION
    ensures RelTime(d, lbl, Table()) == Some(Told(d, lbl))
  {
    hide RelTime, Told;
    if d < MINUTE { SecondsTold(d, lbl); }
    else if d < HOUR { MinutesTold(d, lbl); }
    else if d < DAY { HoursTold(d, lbl); }
    else if d < WEEK { DaysTold(d, lbl); }
    else if d < MONTH { WeeksTold(d, lbl); }
    else if d < YEAR { MonthsTold(d, lbl); }
    else if d < LONG_TIME { YearsTold(d, lbl); }
    else { LongTold(d, lbl); }
  }

  /** The same in seconds, for less than a day. */
  function InSeconds(n: nat, lbl: string): string {
    if n == 0 then "now"
    else if n == 1 then "1 second " + lbl
    else if n < 60 then Numeral(n) + " seconds " + lbl
    else if n < 120 then "1 minute " + lbl
    else if n < 3600 then Numeral(n / 60) + " minutes " + lbl
    else if n < 7200 then "1 hour " + lbl
    else Numeral(n / 3600) + " hours " + lbl
  }

  /** And in days: a month is 30 of them, a year 360. */
  function InDays(n: nat, lbl: string): string {
    if n == 1 then "1 day " + lbl
    else if n < 7 then Numeral(n) + " days " + lbl
    else if n < 14 then "1 week " + lbl
    else if n < 30 then Numeral(n / 7) + " weeks " + lbl
    else if n < 60 then "1 month " + lbl
    else if n < 360 then Numeral(n / 30) + " months " + lbl
    else if n < 540 then "1 year " + lbl
    else if n < 720 then "2 years " + lbl
    else if n < 13320 then Numeral(n / 360) + " years " + lbl
    else "a long while " + lbl
  }

  lemma QuotientOfMultiple(n: nat, unit: nat, k: nat, rest: nat)
    requires unit > 0 && k > 0 && rest < unit
    ensures (n * unit + rest) / (k * unit) == n / k
  {
    var q, r := n / k, n % k;
    assert n * unit + rest == q * (k * unit) + (r * unit + rest) by { assert n == q * k + r; }
    assert 0 <= r * unit + rest < k * unit by { assert (r + 1) * unit <= k * unit; }
    DividesOnce(q, k * unit, r * unit + rest);
  }

  lemma DividesOnce(q: nat, d: nat, r: nat)
    requires r < d
    ensures (q * d + r) / d == q
  {
    var a := q * d + r;
    var p := a / d;
    assert p * d <= a < (p + 1) * d;
    Smaller(q, p + 1, d);
    Smaller(p, q + 1, d);
  }

  lemma ToldInSeconds(n: nat, rest: nat, lbl: string)
    requires n < 86400 && rest < 1_000_000_000
    ensures Told(n * 1_000_000_000 + rest, lbl) == InSeconds(n, lbl)
  {
    hide Numeral;
    QuotientOfMultiple(n, 1_000_000_000, 1, rest);
    QuotientOfMultiple(n, 1_000_000_000, 60, rest);
    QuotientOfMultiple(n, 1_000_000_000, 3600, rest);
  }

  /** A duration of so many whole seconds, a part of one more dropped. */
  lemma SecondsPrinted(n: nat, rest: nat, lbl: string)
    requires n < 86400 && rest < 1_000_000_000
    ensures RelTime(n * 1_000_000_000 + rest, lbl, Table()) == Some(InSeconds(n, lbl))
  {
    assert n * 1_000_000_000 + rest <= MAX_DURATION;
    hide *;
    EveryDuration(n * 1_000_000_000 + rest, lbl);
    ToldInSeconds(n, rest, lbl);
  }

  lemma ToldInDays(n: nat, rest: nat, lbl: string)
    requires n > 0 && rest < 86_400_000_000_000
    ensures Told(n * 86_400_000_000_000 + rest, lbl) == InDays(n, lbl)
  {
    hide Numeral;
    QuotientOfMultiple(n, 86_400_000_000_000, 1, rest);
    QuotientOfMultiple(n, 86_400_000_000_000, 7, rest);
    QuotientOfMultiple(n, 86_400_000_000_000, 30, rest);
    QuotientOfMultiple(n, 86_400_000_000_000, 360, rest);
  }

  lemma DaysPrinted(n: nat, rest: nat, lbl: string)
    requires n > 0 && rest < 86_400_000_000_000 && n * 86_400_000_000_000 + rest <= MAX_DURATION
    ensures RelTime(n * 86_400_000_000_000 + rest, lbl, Table()) == Some(InDays(n, lbl))
  {
    hide *;
    EveryDuration(n * 86_400_000_000_000 + rest, lbl);
    ToldInDays(n, rest, lbl);
  }

  lemma TableIsUsable()
    ensures Table() != [] && forall m :: m in Table() ==> m.divBy != 0
  {
  }

  lemma LongestTold()
    ensures Told(MAX_DURATION, "ago") == "a long while ago"
    ensures Told(MAX_DURATION, "from now") == "a long while from now"
  {
  }

  /** timeago: the range of the time between then and now. */
  method TimeAgo(then': int, now: int) returns (r: Option<string>)
    ensures 0 <= now - then' <= MAX_DURATION ==> r == Some(Told(now - then', "ago"))
    ensures 0 < then' - now <= MAX_DURATION ==> r == Some(Told(then' - now, "from now"))
    ensures now - then' > MAX_DURATION ==> r == Some("a long while ago")
    ensures then' - now > MAX_DURATION ==> r == Some("a long while from now")
  {
    hide *;
    TableIsUsable();
    DistanceIs(then', now);
    EveryDuration(Distance(then', now), if then' > now then "from now" else "ago");
    LongestTold();
    r := CustomRelTime(then', now, "ago", "from now", Table());
  }
}
