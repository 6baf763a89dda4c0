/**
 * The archive download script: it completes the requested time window, asks
 * the archive for the scans in it, and names one output file per scan.
 * The HTTP requests and the file writes are not modelled; the archive's
 * answer is an input.
 */
module ArchiveQuery {
  import opened Wrappers
  import opened PyStr

  // ---- The time window ----

  /** `\d{4}-\d{2}-\d{2}`: a bare calendar date. */
  const DatePattern: seq<Atom> :=
    [Digit, Digit, Digit, Digit, Lit('-'), Digit, Digit, Lit('-'), Digit, Digit]

  /** `\d{4}-\d{2}-\d{2}T00`: a date at hour zero. */
  const ZeroHourPattern: seq<Atom> := DatePattern + [Lit('T'), Lit('0'), Lit('0')]

  /** `\d{4}-\d{2}-\d{2}T00:00`: a date at hour and minute zero. */
  const ZeroMinutePattern: seq<Atom> := ZeroHourPattern + [Lit(':'), Lit('0'), Lit('0')]

  /** Which end of the window a date string gives. */
  datatype Bound = Start | End

  /** What a bare date is completed with: midnight for the start, 23:59 for the end. */
  function DayDefault(b: Bound): string
  {
    match b
    case Start => "T00:00:00"
    case End => "T23:59:00"
  }

  /**
   * What gets appended to a date whose spaces are already `T`s: the suffix of
   * the first of the three checks that matches, or nothing. The script runs
   * the checks one after another; NormaliseDate shows that at most one fires.
   */
  function Completion(t: string, b: Bound): (r: string)
    ensures r != "" ==> |t| >= 10 && Spells(DatePattern, t[..10])
    ensures r != "" ==> |t + r| == 19 || |t + r| == 20
  {
    if MatchesToEnd(DatePattern, t) then DayDefault(b)
    else if MatchesToEnd(ZeroHourPattern, t) then ":00:00"
    else if MatchesToEnd(ZeroMinutePattern, t) then ":00"
    else ""
  }

  /** The date string sent to the archive for the user's `raw` date. */
  function Normalised(raw: string, b: Bound): (date: string)
    ensures ' ' !in date
    ensures |raw| <= |date|
    ensures forall i :: 0 <= i < |raw| ==> date[i] == (if raw[i] == ' ' then 'T' else raw[i])
  {
    var t := Substitute(raw, ' ', 'T');
    t + Completion(t, b)
  }

  /**
   * The script's own steps: spaces become `T`, then three checks, each of
   * which may extend the string the next one looks at.
   */
  method NormaliseDate(raw: string, b: Bound) returns (date: string)
    ensures date == Normalised(raw, b)
  {
    date := Substitute(raw, ' ', 'T');
    if MatchesToEnd(DatePattern, date) {
      date := date + DayDefault(b);
    }
    if MatchesToEnd(ZeroHourPattern, date) {
      date := date + ":00:00";
    }
    if MatchesToEnd(ZeroMinutePattern, date) {
      date := date + ":00";
    }
  }

  /** A bare date gets midnight as start and 23:59 as end. */
  lemma BareDateGetsDayDefault(raw: string, b: Bound)
    requires Spells(DatePattern, raw)
    ensures Normalised(raw, b) == raw + DayDefault(b)
    ensures b == Start ==> Normalised(raw, b) == raw + "T00:00:00"
    ensures b == End ==> Normalised(raw, b) == raw + "T23:59:00"
  {
    assert ' ' !in raw by {
      forall i | 0 <= i < |raw| ensures raw[i] != ' ' {
        assert AtomMatches(DatePattern[i], raw[i]);
      }
    }
  }

  /**
   * A bare date followed by one newline still passes the `$` check: the day
   * default is appended after the newline, so the result keeps the newline
   * inside it and does not end in one.
   */
  lemma NewlineDateCompletedAfterNewline(raw: string, b: Bound)
    requires Spells(DatePattern, raw)
    ensures Normalised(raw + "\n", b) == raw + "\n" + DayDefault(b)
    ensures |Normalised(raw + "\n", b)| == 20 && Normalised(raw + "\n", b)[10] == '\n'
    ensures Normalised(raw + "\n", b)[19] != '\n'
  {
    var d := raw + "\n";
    assert ' ' !in d by {
      forall i | 0 <= i < |d| ensures d[i] != ' ' {
        if i < |raw| {
          assert AtomMatches(DatePattern[i], raw[i]) && d[i] == raw[i];
        }
      }
    }
    assert d[..10] == raw;
    assert MatchesToEnd(DatePattern, d);
  }

  /** The example date `2024-01-05` followed by a newline, as the end of the window. */
  lemma NewlineDateExample(d: string)
    requires d == "2024-01-05"
    ensures Normalised(d + "\n", End) == d + "\n" + "T23:59:00"
  {
    forall i | 0 <= i < |DatePattern| ensures AtomMatches(DatePattern[i], d[i]) {
    }
    NewlineDateCompletedAfterNewline(d, End);
  }

  /**
   * Hour zero, typed with a space or a `T`, is completed to `T00:00:00`, at
   * either end of the window.
   */
  lemma ZeroHourCompleted(raw: string, b: Bound)
    requires Spells(ZeroHourPattern, Substitute(raw, ' ', 'T'))
    ensures Normalised(raw, b) == Substitute(raw, ' ', 'T') + ":00:00"
    ensures Spells(ZeroMinutePattern + [Lit(':'), Lit('0'), Lit('0')], Normalised(raw, b))
  {
    var t := Substitute(raw, ' ', 'T');
    assert !MatchesToEnd(DatePattern, t);
    var date := t + ":00:00";
    var p := ZeroMinutePattern + [Lit(':'), Lit('0'), Lit('0')];
    forall i | 0 <= i < |p| ensures AtomMatches(p[i], date[i]) {
      if i < |t| {
        assert p[i] == ZeroHourPattern[i] && date[i] == t[i];
      }
    }
  }

  /**
   * Hour and minute zero, typed with a space or a `T`, are completed to
   * `T00:00:00`, at either end of the window.
   */
  lemma ZeroMinuteCompleted(raw: string, b: Bound)
    requires Spells(ZeroMinutePattern, Substitute(raw, ' ', 'T'))
    ensures Normalised(raw, b) == Substitute(raw, ' ', 'T') + ":00"
    ensures Spells(ZeroMinutePattern + [Lit(':'), Lit('0'), Lit('0')], Normalised(raw, b))
  {
    var t := Substitute(raw, ' ', 'T');
    assert !MatchesToEnd(DatePattern, t);
    assert !MatchesToEnd(ZeroHourPattern, t);
    var date := t + ":00";
    var p := ZeroMinutePattern + [Lit(':'), Lit('0'), Lit('0')];
    forall i | 0 <= i < |p| ensures AtomMatches(p[i], date[i]) {
      if i < |t| {
        assert p[i] == ZeroMinutePattern[i] && date[i] == t[i];
      }
    }
  }

  /**
   * Any hour other than `00` is left as typed: `2024-01-05 13` is sent as
   * `2024-01-05T13`, with no minutes or seconds added.
   */
  lemma OtherHoursLeftOpen(raw: string, b: Bound)
    requires |raw| == 13 && Spells(DatePattern, raw[..10])
    requires raw[10] == ' ' || raw[10] == 'T'
    requires IsDigit(raw[11]) && IsDigit(raw[12]) && raw[11..] != "00"
    ensures Normalised(raw, b) == raw[..10] + "T" + raw[11..]
  {
    var t := Substitute(raw, ' ', 'T');
    assert ' ' !in raw[..10] by {
      forall i | 0 <= i < 10 ensures raw[..10][i] != ' ' {
        assert AtomMatches(DatePattern[i], raw[..10][i]);
      }
    }
    assert t[11..] == raw[11..];
    assert t == raw[..10] + "T" + raw[11..];
    assert !Spells(ZeroHourPattern, t) by {
      if t[11] == '0' {
        assert t[12] != '0';
        assert !AtomMatches(ZeroHourPattern[12], t[12]);
      } else {
        assert !AtomMatches(ZeroHourPattern[11], t[11]);
      }
    }
  }

  /** A date that matches none of the checks is only changed by the space replacement. */
  lemma UnmatchedOnlySubstituted(raw: string, b: Bound)
    requires !MatchesToEnd(DatePattern, Substitute(raw, ' ', 'T'))
    requires !MatchesToEnd(ZeroHourPattern, Substitute(raw, ' ', 'T'))
    requires !MatchesToEnd(ZeroMinutePattern, Substitute(raw, ' ', 'T'))
    ensures Normalised(raw, b) == Substitute(raw, ' ', 'T')
    ensures ' ' !in raw ==> Normalised(raw, b) == raw
  {
  }

  /** Normalising a normalised date changes nothing. */
  lemma NormalisedIsIdempotent(raw: string, b: Bound)
    ensures Normalised(Normalised(raw, b), b) == Normalised(raw, b)
  {
    var t := Substitute(raw, ' ', 'T');
    var date := Normalised(raw, b);
    assert Substitute(date, ' ', 'T') == date;
    if Completion(t, b) != "" {
      NoCompletionOnceLong(date, b);
    } else {
      assert date == t + "";
    }
  }

  /** No check matches a string longer than `DDDD-DD-DDT00:00` and a newline. */
  lemma NoCompletionOnceLong(s: string, b: Bound)
    requires |s| > |ZeroMinutePattern| + 1
    ensures Completion(s, b) == ""
  {
  }

  /** The bare date `2024-01-05` as start and as end of the window. */
  lemma BareDateExample(d: string)
    requires d == "2024-01-05"
    ensures Normalised(d, Start) == "2024-01-05T00:00:00"
    ensures Normalised(d, End) == "2024-01-05T23:59:00"
  {
    forall i | 0 <= i < |DatePattern| ensures AtomMatches(DatePattern[i], d[i]) {
    }
    BareDateGetsDayDefault(d, Start);
    BareDateGetsDayDefault(d, End);
  }

  /** Hour zero typed with a space, `2024-01-05 00`, is completed to midnight, even as the end. */
  lemma ZeroHourExample(d: string)
    requires d == "2024-01-05 00"
    ensures Normalised(d, End) == "2024-01-05T00" + ":00:00"
  {
    ZeroHourSpelled("2024-01-05T00");
    ZeroHourSubstituted(d);
    ZeroHourCompleted(d, End);
  }

  /** `2024-01-05T00` spells ZeroHourPattern. */
  lemma ZeroHourSpelled(t: string)
    requires t == "2024-01-05T00"
    ensures Spells(ZeroHourPattern, t)
  {
    forall i | 0 <= i < |DatePattern| ensures AtomMatches(DatePattern[i], t[..10][i]) {
    }
    assert t[10..] == "T00";
    forall i | 0 <= i < 13 ensures AtomMatches(ZeroHourPattern[i], t[i]) {
      if i < 10 {
        assert ZeroHourPattern[i] == DatePattern[i] && t[i] == t[..10][i];
      } else {
        assert ZeroHourPattern[i] == [Lit('T'), Lit('0'), Lit('0')][i - 10] && t[i] == t[10..][i - 10];
      }
    }
  }

  /** The space in `2024-01-05 00` becomes a `T`. */
  lemma ZeroHourSubstituted(d: string)
    requires d == "2024-01-05 00"
    ensures Substitute(d, ' ', 'T') == "2024-01-05T00"
  {
    var t := Substitute(d, ' ', 'T');
    assert |t| == 13 && t[10] == 'T';
    assert forall i :: 0 <= i < 13 && i != 10 ==> t[i] == d[i];
  }

  /** Hour 13, `2024-01-05 13`, is sent without minutes or seconds. */
  lemma OtherHourExample(d: string)
    requires d == "2024-01-05 13"
    ensures Normalised(d, Start) == "2024-01-05T13"
  {
    forall i | 0 <= i < |DatePattern| ensures AtomMatches(DatePattern[i], d[..10][i]) {
    }
    OtherHoursLeftOpen(d, Start);
  }

  // ---- Timestamps in file names ----

  /** Spaces become `_` and colons are dropped. */
  function Cleaned(ts: string): (r: string)
    ensures ' ' !in r && ':' !in r
    ensures |r| <= |ts|
  {
    Delete(Substitute(ts, ' ', '_'), ':')
  }

  /**
   * The timestamp as it appears in a file name: spaces become `_`, colons are
   * dropped, and the fraction of a second, from the first `.` on, is cut off.
   */
  function SanitisedTimestamp(ts: string): (r: string)
    ensures ' ' !in r && ':' !in r && '.' !in r
    ensures |r| <= |ts|
  {
    Split(Cleaned(ts), '.')[0]
  }

  /** Cleaned, one character at a time from the front. */
  lemma CleanedCons(x: char, rest: string)
    ensures Cleaned([x] + rest)
         == (if x == ':' then [] else [if x == ' ' then '_' else x]) + Cleaned(rest)
  {
    SubstituteCons(x, rest, ' ', '_');
    DeleteCons(if x == ' ' then '_' else x, Substitute(rest, ' ', '_'), ':');
  }

  /** One step of SanitiseCutsFirst: a first character other than `.`. */
  lemma SanitiseCutsStep(x: char, rest: string)
    requires x != '.'
    requires SanitisedTimestamp(rest) == Cleaned(SplitHead(rest, '.'))
    ensures SanitisedTimestamp([x] + rest) == Cleaned(SplitHead([x] + rest, '.'))
  {
    var h := SplitHead(rest, '.');
    assert SanitisedTimestamp([x] + rest) == SplitHead(Cleaned([x] + rest), '.');
    assert SanitisedTimestamp(rest) == SplitHead(Cleaned(rest), '.');
    CleanedCons(x, rest);
    SplitHeadCons(x, rest, '.');
    assert SplitHead([x] + rest, '.') == [x] + h;
    CleanedCons(x, h);
    if x == ':' {
      assert Cleaned([x] + rest) == Cleaned(rest);
      assert Cleaned([x] + h) == Cleaned(h);
    } else {
      var c := if x == ' ' then '_' else x;
      assert Cleaned([x] + rest) == [c] + Cleaned(rest);
      assert Cleaned([x] + h) == [c] + Cleaned(h);
      SplitHeadCons(c, Cleaned(rest), '.');
    }
  }

  /**
   * Cutting at the first `.` before cleaning gives the same name: the
   * sanitised timestamp is the cleaned text before the raw timestamp's first `.`.
   */
  lemma {:induction false} SanitiseCutsFirst(ts: string)
    ensures SanitisedTimestamp(ts) == Cleaned(SplitHead(ts, '.'))
  {
    if ts != [] {
      var x, rest := ts[0], ts[1..];
      assert ts == [x] + rest;
      if x == '.' {
        assert SanitisedTimestamp(ts) == SplitHead(Cleaned(ts), '.');
        CleanedCons(x, rest);
        SplitHeadCons('.', Cleaned(rest), '.');
        SplitHeadCons('.', rest, '.');
        assert Cleaned([]) == [];
      } else {
        SanitiseCutsFirst(rest);
        SanitiseCutsStep(x, rest);
      }
    }
  }

  /** Sanitising a sanitised timestamp changes nothing. */
  lemma SanitiseIsIdempotent(ts: string)
    ensures SanitisedTimestamp(SanitisedTimestamp(ts)) == SanitisedTimestamp(ts)
  {
    var r := SanitisedTimestamp(ts);
    assert Cleaned(r) == r;
  }

  /** Sanitising adds no character other than `_`. */
  lemma SanitiseAddsOnlyUnderscore(ts: string, ch: char)
    requires ch != '_' && ch !in ts
    ensures ch !in SanitisedTimestamp(ts)
  {
    SanitiseCutsFirst(ts);
    var h := SplitHead(ts, '.');
    assert h == ts[..|h|];
    assert ch !in h;
    assert ch !in Substitute(h, ' ', '_');
  }

  /** Cleaning works piece by piece. */
  lemma CleanedAppend(x: string, y: string)
    ensures Cleaned(x + y) == Cleaned(x) + Cleaned(y)
  {
    var sx, sy := Substitute(x, ' ', '_'), Substitute(y, ' ', '_');
    var sxy := Substitute(x + y, ' ', '_');
    forall i | 0 <= i < |sxy|
      ensures sxy[i] == (sx + sy)[i]
    {
      if i < |x| {
        assert (x + y)[i] == x[i];
      } else {
        assert (x + y)[i] == y[i - |x|];
      }
    }
    assert sxy == sx + sy;
    DeleteAppend(sx, sy, ':');
  }

  /** Cleaning `<date> <hh>:<mm>:<ss>` gives `<date>_<hh><mm><ss>`. */
  lemma CleanedClock(date: string, hh: string, mm: string, ss: string)
    requires ' ' !in date && ':' !in date && ' ' !in hh && ':' !in hh
    requires ' ' !in mm && ':' !in mm && ' ' !in ss && ':' !in ss
    ensures Cleaned(date + " " + hh + ":" + mm + ":" + ss) == date + "_" + hh + mm + ss
  {
    var a := date + " ";
    var b := a + hh + ":";
    var c := b + mm + ":";
    calc {
      Cleaned(a);
      { CleanedAppend(date, " "); assert Cleaned(" ") == "_"; }
      date + "_";
    }
    calc {
      Cleaned(b);
      { CleanedAppend(a + hh, ":"); CleanedAppend(a, hh); assert Cleaned(":") == ""; }
      date + "_" + hh;
    }
    calc {
      Cleaned(c);
      { CleanedAppend(b + mm, ":"); CleanedAppend(b, mm); assert Cleaned(":") == ""; }
      date + "_" + hh + mm;
    }
    CleanedAppend(c, ss);
  }

  /**
   * A timestamp written `<date> <hh>:<mm>:<ss>.<fraction>` becomes
   * `<date>_<hh><mm><ss>`: the space turns into `_`, the colons go and the
   * fraction of a second is cut off.
   */
  lemma ClockTimestamp(date: string, hh: string, mm: string, ss: string, fraction: string)
    requires ' ' !in date && ':' !in date && '.' !in date && ' ' !in hh && ':' !in hh && '.' !in hh
    requires ' ' !in mm && ':' !in mm && '.' !in mm && ' ' !in ss && ':' !in ss && '.' !in ss
    ensures SanitisedTimestamp(date + " " + hh + ":" + mm + ":" + ss + "." + fraction) == date + "_" + hh + mm + ss
  {
    var whole := date + " " + hh + ":" + mm + ":" + ss;
    assert date + " " + hh + ":" + mm + ":" + ss + "." + fraction == whole + ['.'] + fraction;
    assert '.' !in whole;
    SanitiseCutsFirst(whole + ['.'] + fraction);
    SplitHeadAtSeparator(whole, '.', fraction);
    CleanedClock(date, hh, mm, ss);
  }

  // ---- Output files ----

  /** The output file for one scan. */
  function FileName(dataId: string, mac: string, ts: string): (name: string)
    ensures |name| >= 12 && name[..7] == "output/" && name[|name| - 5..] == ".json"
  {
    "output/" + dataId + "-" + mac + "-" + SanitisedTimestamp(ts) + ".json"
  }

  /** Reads a file name back into data id, MAC address and sanitised timestamp. */
  function ParseFileName(name: string): Option<(string, string, string)>
  {
    if |name| < 12 || name[..7] != "output/" || name[|name| - 5..] != ".json" then None
    else ParseStem(name[7..|name| - 5])
  }

  /** Reads `<data id>-<mac>-<rest>` back into its three parts, cutting at the first two `-`. */
  function ParseStem(inner: string): Option<(string, string, string)>
  {
    var id := SplitHead(inner, '-');
    if |id| == |inner| then None
    else
      var rest := inner[|id| + 1..];
      var mac := SplitHead(rest, '-');
      if |mac| == |rest| then None else Some((id, mac, rest[|mac| + 1..]))
  }

  /** A stem built from parts without `-` (the last part aside) reads back as those parts. */
  lemma ParseStemOf(dataId: string, mac: string, st: string)
    requires '-' !in dataId && '-' !in mac
    ensures ParseStem(dataId + "-" + mac + "-" + st) == Some((dataId, mac, st))
  {
    var rest := mac + "-" + st;
    var inner := dataId + "-" + rest;
    assert inner == dataId + "-" + mac + "-" + st;
    SplitHeadAtSeparator(dataId, '-', rest);
    assert inner[|dataId| + 1..] == rest;
    SplitHeadAtSeparator(mac, '-', st);
    assert rest[|mac| + 1..] == st;
  }

  /** A name built from parts without `-` (the last part aside) reads back as those parts. */
  lemma ParseFileNameOf(dataId: string, mac: string, st: string)
    requires '-' !in dataId && '-' !in mac
    ensures ParseFileName("output/" + dataId + "-" + mac + "-" + st + ".json") == Some((dataId, mac, st))
  {
    var inner := dataId + "-" + mac + "-" + st;
    var name := "output/" + dataId + "-" + mac + "-" + st + ".json";
    assert name == "output/" + inner + ".json";
    assert name[..7] == "output/";
    assert name[|name| - 5..] == ".json";
    assert name[7..|name| - 5] == inner;
    ParseStemOf(dataId, mac, st);
  }

  /** A data id and MAC address without `-` can be read back from the file name. */
  lemma FileNameRoundTrip(dataId: string, mac: string, ts: string)
    requires '-' !in dataId && '-' !in mac
    ensures ParseFileName(FileName(dataId, mac, ts)) == Some((dataId, mac, SanitisedTimestamp(ts)))
  {
    ParseFileNameOf(dataId, mac, SanitisedTimestamp(ts));
  }

  /**
   * The name is not injective once a data id or MAC address holds `-`:
   * data id `a-b` with MAC `c` and data id `a` with MAC `b-c` share a file.
   */
  lemma FileNameDashCollision(a: string, b: string, c: string, ts: string)
    ensures FileName(a + "-" + b, c, ts) == FileName(a, b + "-" + c, ts)
  {
  }

  /** With no `/` in the data id, MAC address and timestamp, the file lands directly in `output`. */
  lemma FileNameStaysInOutput(dataId: string, mac: string, ts: string)
    requires '/' !in dataId && '/' !in mac && '/' !in ts
    ensures forall i :: 0 <= i < |FileName(dataId, mac, ts)| && FileName(dataId, mac, ts)[i] == '/' ==> i == 6
  {
    SanitiseAddsOnlyUnderscore(ts, '/');
    SlashOnlyAfterOutput(dataId, mac, SanitisedTimestamp(ts));
  }

  /** The only `/` in a name built from parts without `/` is the one after `output`. */
  lemma SlashOnlyAfterOutput(dataId: string, mac: string, st: string)
    requires '/' !in dataId && '/' !in mac && '/' !in st
    ensures var name := "output/" + dataId + "-" + mac + "-" + st + ".json";
            forall i :: 0 <= i < |name| && name[i] == '/' ==> i == 6
  {
    var tail := dataId + "-" + mac + "-" + st + ".json";
    var name := "output/" + tail;
    assert name == "output/" + dataId + "-" + mac + "-" + st + ".json";
    assert '/' !in tail;
  }

  // ---- Request URLs ----

  /** The archive server. */
  const Server: string := "http://radiohound.ee.nd.edu:5000"

  /** The query for the scans of `node` in the window. */
  function ArchiveUrl(node: string, start: string, end: string): (url: string)
    ensures |url| > |Server| && url[..|Server|] == Server
  {
    Server + "/archive?node_id=" + node + "&start_date=" + start + "&end_date=" + end
  }

  /** The request for the full record of one scan. */
  function DataUrl(dataId: string): (url: string)
    ensures |url| > |Server| && url[..|Server|] == Server
  {
    Server + "/data?id=" + dataId
  }

  /** One query field `key=value` read back: the key is everything before the first `=`. */
  function FieldPair(field: string): (string, string)
  {
    var key := SplitHead(field, '=');
    (key, if |key| == |field| then "" else field[|key| + 1..])
  }

  /** The key-value pairs of a URL's query, the part after its first `?`, in order. */
  function QueryPairs(url: string): seq<(string, string)>
  {
    var path := SplitHead(url, '?');
    if |path| == |url| then []
    else
      var fields := Split(url[|path| + 1..], '&');
      seq(|fields|, i requires 0 <= i < |fields| => FieldPair(fields[i]))
  }

  /** A path without `?` followed by `?` and joined fields has exactly those fields as its query. */
  lemma QueryOfJoin(path: string, fields: seq<string>)
    requires '?' !in path && |fields| >= 1
    requires forall i :: 0 <= i < |fields| ==> '&' !in fields[i]
    ensures QueryPairs(path + "?" + Join(fields, '&'))
         == seq(|fields|, i requires 0 <= i < |fields| => FieldPair(fields[i]))
  {
    var q := Join(fields, '&');
    var url := path + "?" + q;
    SplitHeadAtSeparator(path, '?', q);
    assert url[|path| + 1..] == q;
    SplitJoin(fields, '&');
  }

  /** `key=value` with no `=` in the key reads back as that key and value. */
  lemma FieldPairOf(key: string, value: string)
    requires '=' !in key
    ensures FieldPair(key + "=" + value) == (key, value)
  {
    SplitHeadAtSeparator(key, '=', value);
    assert (key + "=" + value)[|key| + 1..] == value;
  }

  /** A path without `?`, then `?` and three joined fields: the query is those three fields. */
  lemma QueryOfThree(path: string, a: string, b: string, c: string)
    requires '?' !in path && '&' !in a && '&' !in b && '&' !in c
    ensures QueryPairs(path + "?" + Join([a, b, c], '&')) == [FieldPair(a), FieldPair(b), FieldPair(c)]
  {
    QueryOfJoin(path, [a, b, c]);
  }

  /** The archive query is the path, `?`, and the three fields joined by `&`. */
  lemma ArchiveUrlFields(node: string, start: string, end: string)
    ensures ArchiveUrl(node, start, end)
         == Server + "/archive" + "?"
            + Join(["node_id" + "=" + node, "start_date" + "=" + start, "end_date" + "=" + end], '&')
  {
    var a, b, c := "node_id" + "=" + node, "start_date" + "=" + start, "end_date" + "=" + end;
    JoinThree(a, b, c, '&');
    ArchiveUrlPath(node, start, end);
    ArchiveUrlQuery(node, start, end);
  }

  /** The archive query splits at its `?` into the path and the fields. */
  lemma ArchiveUrlPath(node: string, start: string, end: string)
    ensures ArchiveUrl(node, start, end)
         == Server + "/archive" + "?" + ("node_id=" + node + "&start_date=" + start + "&end_date=" + end)
  {
    assert "/archive?node_id=" == "/archive" + "?" + "node_id=";
  }

  /** The fields of the archive query, each written `key=value`, separated by `&`. */
  lemma ArchiveUrlQuery(node: string, start: string, end: string)
    ensures "node_id=" + node + "&start_date=" + start + "&end_date=" + end
         == ("node_id" + "=" + node) + "&" + ("start_date" + "=" + start) + "&" + ("end_date" + "=" + end)
  {
    assert "node_id=" == "node_id" + "=";
    assert "&start_date=" == "&" + "start_date" + "=";
    assert "&end_date=" == "&" + "end_date" + "=";
  }

  /** The archive query carries node, start and end unchanged, provided none of them holds `&`. */
  lemma ArchiveUrlRoundTrip(node: string, start: string, end: string)
    requires '&' !in node && '&' !in start && '&' !in end
    ensures QueryPairs(ArchiveUrl(node, start, end))
         == [("node_id", node), ("start_date", start), ("end_date", end)]
  {
    var a, b, c := "node_id" + "=" + node, "start_date" + "=" + start, "end_date" + "=" + end;
    var path := Server + "/archive";
    ArchiveUrlFields(node, start, end);
    assert ArchiveUrl(node, start, end) == path + "?" + Join([a, b, c], '&');
    assert '?' !in path;
    QueryOfThree(path, a, b, c);
    FieldPairOf("node_id", node);
    FieldPairOf("start_date", start);
    FieldPairOf("end_date", end);
  }

  /** The data request carries the data id unchanged, provided it holds no `&`. */
  lemma DataUrlRoundTrip(dataId: string)
    requires '&' !in dataId
    ensures QueryPairs(DataUrl(dataId)) == [("id", dataId)]
  {
    var fields := ["id" + "=" + dataId];
    var path := Server + "/data";
    assert DataUrl(dataId) == path + "?" + Join(fields, '&');
    QueryOfJoin(path, fields);
    FieldPairOf("id", dataId);
  }

  // ---- The download loop ----

  /** What the script does for one listed scan: the data request it sends and the file it writes. */
  datatype Download = Download(request: string, file: string)

  /**
   * A listed scan is a JSON object, its values taken as text. The loop body
   * reads `data_id`, `fmin`, `mac_address` and `timestamp`; a missing key
   * raises KeyError before any request is sent for that scan.
   */
  predicate HasScanKeys(result: map<string, string>)
  {
    "data_id" in result && "fmin" in result && "mac_address" in result && "timestamp" in result
  }

  /** The data request and the output file for one listed scan. */
  function DownloadFor(result: map<string, string>): (d: Download)
    requires HasScanKeys(result)
    ensures |d.request| > |Server| && d.request[..|Server|] == Server && d.request[|Server|..] == "/data?id=" + result["data_id"]
    ensures |d.file| >= 12 && d.file[..7] == "output/" && d.file[|d.file| - 5..] == ".json"
  {
    var id := result["data_id"];
    Download(DataUrl(id), FileName(id, result["mac_address"], result["timestamp"]))
  }

  /**
   * The request and the file of one scan both identify it: the request's
   * query is its data id, and the file name reads back as its data id, MAC
   * address and sanitised timestamp.
   */
  lemma DownloadIdentifiesScan(result: map<string, string>)
    requires HasScanKeys(result)
    requires '&' !in result["data_id"] && '-' !in result["data_id"] && '-' !in result["mac_address"]
    ensures QueryPairs(DownloadFor(result).request) == [("id", result["data_id"])]
    ensures ParseFileName(DownloadFor(result).file)
         == Some((result["data_id"], result["mac_address"], SanitisedTimestamp(result["timestamp"])))
  {
    DataUrlRoundTrip(result["data_id"]);
    FileNameRoundTrip(result["data_id"], result["mac_address"], result["timestamp"]);
  }

  /** How a run of the script ends. */
  datatype RunOutcome =
    | ListRequestFailed(api: string)                                   // reported, exit status 1
    | Finished(api: string, downloads: seq<Download>)                  // every listed scan saved
    | Aborted(api: string, downloads: seq<Download>, failedAt: nat)    // KeyError on one listed scan

  /**
   * The loop over the listed scans: each one's data request and file, in
   * listing order, until a scan lacks a key the loop body reads. `stopped` is
   * the index of that scan, or None when every scan was saved.
   */
  method DownloadEach(results: seq<map<string, string>>)
    returns (downloads: seq<Download>, stopped: Option<nat>)
    ensures stopped.None? <==> forall i :: 0 <= i < |results| ==> HasScanKeys(results[i])
    ensures stopped.None? ==> |downloads| == |results|
    ensures stopped.Some? ==>
              stopped.value < |results| && !HasScanKeys(results[stopped.value]) &&
              |downloads| == stopped.value
    ensures |downloads| <= |results|
    ensures forall i :: 0 <= i < |downloads| ==>
              HasScanKeys(results[i]) && downloads[i] == DownloadFor(results[i])
  {
    downloads := [];
    for i := 0 to |results|
      invariant |downloads| == i
      invariant forall j :: 0 <= j < i ==> HasScanKeys(results[j]) && downloads[j] == DownloadFor(results[j])
    {
      if !HasScanKeys(results[i]) {
        return downloads, Some(i);
      }
      downloads := downloads + [DownloadFor(results[i])];
    }
    stopped := None;
  }

  /**
   * A run of the script: the window is completed, the archive is queried
   * (`listing` is its answer, None when the request or its decoding failed),
   * and each listed scan is fetched and saved in order.
   */
  method DownloadArchive(node: string, startDate: string, endDate: string,
                         listing: Option<seq<map<string, string>>>)
    returns (outcome: RunOutcome)
    ensures outcome.api == ArchiveUrl(node, Normalised(startDate, Start), Normalised(endDate, End))
    ensures outcome.ListRequestFailed? <==> listing.None?
    ensures outcome.Finished? <==>
              listing.Some? && forall i :: 0 <= i < |listing.value| ==> HasScanKeys(listing.value[i])
    ensures outcome.Finished? ==> |outcome.downloads| == |listing.value|
    ensures outcome.Aborted? ==>
              listing.Some? && outcome.failedAt < |listing.value| &&
              !HasScanKeys(listing.value[outcome.failedAt]) && |outcome.downloads| == outcome.failedAt
    ensures !outcome.ListRequestFailed? ==>
              listing.Some? && |outcome.downloads| <= |listing.value| &&
              forall i :: 0 <= i < |outcome.downloads| ==>
                HasScanKeys(listing.value[i]) && outcome.downloads[i] == DownloadFor(listing.value[i])
  {
    var start := NormaliseDate(startDate, Start);
    var end := NormaliseDate(endDate, End);
    var api := ArchiveUrl(node, start, end);
    if listing.None? {
      return ListRequestFailed(api);
    }
    var downloads, stopped := DownloadEach(listing.value);
    if stopped.None? {
      outcome := Finished(api, downloads);
    } else {
      outcome := Aborted(api, downloads, stopped.value);
    }
  }
}
