/** The decoded shapes of the three inputs and the string logic that runs on
    raw lines before, and instead of, JSON decoding. JSON decoding itself is a
    parameter of the passes (a `string -> Option<...>` function). */
module Records {
  import opened Wrappers
  import opened JavaText
  import opened JavaNumbers

  /** Java `long`. */
  type Int64 = x: int | -0x8000_0000_0000_0000 <= x < 0x8000_0000_0000_0000

  const LongMin: Int64 := -0x8000_0000_0000_0000
  const LongMax: Int64 := 0x7fff_ffff_ffff_ffff

  /** One telemetry record, every field optional (absent from the JSON). */
  datatype TelemetryRecord = TelemetryRecord(
    roomId: Option<int>,
    tempC: Option<real>,
    heaterOn: Option<bool>,
    energyWh: Option<real>,
    lowKWh: Option<real>,
    highKWh: Option<real>,
    simTimeMs: Option<Int64>)

  /** One HTTP audit record as read with `asText("")`: an absent field is "". */
  datatype AuditRecord = AuditRecord(path: string, timestamp: string)

  /** One entry of the configuration's `units` array: `room.id`,
      `room.expectedTemp` and `room.energy`, each possibly absent. */
  datatype RoomUnit = RoomUnit(id: Option<int>, expectedTemp: Option<string>, energy: Option<string>)

  /** The configuration document: its units and `simulacion.maxEnergy`. */
  datatype Config = Config(units: seq<RoomUnit>, maxEnergy: Option<string>)

  /** Telemetry lines holding this tag are console output, never data. */
  const StdoutMarker: string := "\"logger\":\"STDOUT\""

  /** The line filter of the telemetry pass: console lines and lines without
      an opening brace yield nothing; otherwise the candidate record is the
      suffix of the line from its LAST `{`. */
  function ExtractRecordText(line: string): (r: Option<string>)
    ensures r.None? <==> Contains(line, StdoutMarker) || '{' !in line
    ensures r.Some? ==> exists k :: 0 <= k < |line| && r.value == line[k..]
    ensures r.Some? ==> |r.value| > 0 && r.value[0] == '{' && '{' !in r.value[1..]
  {
    if Contains(line, StdoutMarker) then None
    else
      var start := LastIndexOf(line, '{');
      if start < 0 then None
      else
        assert line[start..][1..] == line[start + 1..];
        Some(line[start..])
  }

  /** The three substring tests an audit line must pass before it is decoded. */
  predicate PassesAuditFilters(line: string) {
    && Contains(line, "\"method\":\"POST\"")
    && Contains(line, "\"path\":\"/switch/")
    && Contains(line, "\"status\":200")
  }

  const SwitchPrefix: string := "/switch/"

  /** The characters of `s` before the first `c` (all of `s` if none). */
  function TakeUntil(s: string, c: char): (r: string)
    ensures StartsWith(s, r) && c !in r
    ensures |r| == |s| || s[|r|] == c
    decreases |s|
  {
    if |s| == 0 || s[0] == c then []
    else
      var rest := TakeUntil(s[1..], c);
      assert s[1..][..|rest|] == s[1..|rest| + 1];
      [s[0]] + rest
  }

  /** The room a `/switch/...` path names: the third `/`-separated segment,
      that is the text between the prefix and the next slash. (Java's
      `path.split("/")[2]` either yields this segment or, when the segment is
      empty and nothing non-empty follows, throws; in both empty cases
      `Integer.parseInt` would refuse it, so the outcome is the same.) */
  function SwitchSegment(path: string): (seg: string)
    requires StartsWith(path, SwitchPrefix)
    ensures '/' !in seg && StartsWith(path[|SwitchPrefix|..], seg)
    ensures |seg| == |path| - |SwitchPrefix| || path[|SwitchPrefix| + |seg|] == '/'
  {
    TakeUntil(path[|SwitchPrefix|..], '/')
  }

  /** The room id of a switch path, or `None` where `Integer.parseInt` throws. */
  function SwitchRoom(path: string): Option<int>
    requires StartsWith(path, SwitchPrefix)
  {
    ParseJavaInt(SwitchSegment(path))
  }

  /** The deduplication key of an audit record. */
  function DedupKey(path: string, timestamp: string): string {
    path + "|" + timestamp
  }

  /** `/switch/12/on` names room 12, and `/switch/-3` room -3: every 32-bit
      room id written after the prefix, up to the end or the next slash. */
  lemma SwitchRoomOfNumeral(n: int, tail: string)
    requires IntMin <= n <= IntMax
    ensures StartsWith(SwitchPrefix + IntText(n) + tail, SwitchPrefix)
    ensures tail == [] || tail[0] == '/' ==> SwitchRoom(SwitchPrefix + IntText(n) + tail) == Some(n)
  {
    var w := IntText(n);
    var p := SwitchPrefix + w + tail;
    assert StartsWith(p, SwitchPrefix) by {
      assert p[..|SwitchPrefix|] == SwitchPrefix;
    }
    if tail == [] || tail[0] == '/' {
      assert '/' !in w;
      calc {
        SwitchRoom(p);
        ParseJavaInt(TakeUntil(p[|SwitchPrefix|..], '/'));
        { assert p[|SwitchPrefix|..] == w + tail; }
        ParseJavaInt(TakeUntil(w + tail, '/'));
        { TakeUntilPrefix(w, tail, '/'); }
        ParseJavaInt(w);
        { IntTextParsesAsInt(n); }
        Some(n);
      }
    }
  }

  lemma {:induction false} TakeUntilPrefix(a: string, b: string, c: char)
    requires c !in a && (b == [] || b[0] == c)
    ensures TakeUntil(a + b, c) == a
    decreases |a|
  {
    if |a| > 0 {
      assert (a + b)[1..] == a[1..] + b;
      TakeUntilPrefix(a[1..], b, c);
    } else {
      assert a + b == b;
    }
  }
}
