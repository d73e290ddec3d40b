/** The telemetry pass: every line counts, qualifying records update their
    room, the global simulated-time range and the time buckets of rooms whose
    heater is on. */
module TelemetryModel {
  import opened Wrappers
  import opened JavaText
  import opened Records
  import opened RoomModel

  /** What the telemetry pass accumulates. */
  datatype Site = Site(
    rooms: map<int, Stats>,
    buckets: map<Int64, set<int>>,
    minSimTime: Int64,
    maxSimTime: Int64,
    totalLines: nat,
    validJson: nat)

  /** The state before the pass: the configured rooms, no bucket, the time
      range at its `Long.MAX_VALUE` / `Long.MIN_VALUE` sentinels, no line. */
  function StartSite(rooms: map<int, Stats>): Site {
    Site(rooms, map[], LongMax, LongMin, 0, 0)
  }

  /** A record is aggregated only when it has both `T_C` and `roomId`. */
  predicate Qualifies(r: TelemetryRecord) {
    r.tempC.Some? && r.roomId.Some?
  }

  /** `heaterOn` present and true; an absent field reads as false. */
  predicate HeaterOn(r: TelemetryRecord) {
    r.heaterOn == Some(true)
  }

  function SampleOf(r: TelemetryRecord): Sample
    requires Qualifies(r)
  {
    Sample(r.tempC.value, HeaterOn(r), r.energyWh, r.lowKWh, r.highKWh)
  }

  /** The room a record updates: the stored one, or a new one with Java's
      field defaults. */
  function RoomOrFresh(rooms: map<int, Stats>, id: int): Stats {
    if id in rooms then rooms[id] else FreshStats()
  }

  function BucketOrEmpty(buckets: map<Int64, set<int>>, t: Int64): set<int> {
    if t in buckets then buckets[t] else {}
  }

  /** One qualifying record. */
  function Observe(s: Site, r: TelemetryRecord): Site
    requires Qualifies(r)
  {
    var id := r.roomId.value;
    var s1 := s.(rooms := s.rooms[id := WithSample(RoomOrFresh(s.rooms, id), SampleOf(r))],
                 validJson := s.validJson + 1);
    match r.simTimeMs
    case None => s1
    case Some(t) =>
      var active := BucketOrEmpty(s.buckets, t);
      s1.(minSimTime := if t < s.minSimTime then t else s.minSimTime,
          maxSimTime := if t > s.maxSimTime then t else s.maxSimTime,
          buckets := s.buckets[t := if HeaterOn(r) then active + {id} else active])
  }

  /** The record a line yields, if any: the extracted text, decoded. */
  function Decoded(line: string, decode: string -> Option<TelemetryRecord>): Option<TelemetryRecord> {
    match ExtractRecordText(line)
    case None => None
    case Some(text) => decode(text)
  }

  predicate Accepted(line: string, decode: string -> Option<TelemetryRecord>) {
    Decoded(line, decode).Some? && Qualifies(Decoded(line, decode).value)
  }

  /** One line of the telemetry log. */
  function TelemetryStep(s: Site, line: string, decode: string -> Option<TelemetryRecord>): Site {
    var counted := s.(totalLines := s.totalLines + 1);
    if Accepted(line, decode) then Observe(counted, Decoded(line, decode).value) else counted
  }

  /** The pass over a whole log, line by line in file order. */
  function TelemetryPass(s: Site, lines: seq<string>, decode: string -> Option<TelemetryRecord>): Site
    decreases |lines|
  {
    if |lines| == 0 then s
    else TelemetryStep(TelemetryPass(s, lines[..|lines| - 1], decode), lines[|lines| - 1], decode)
  }

  /** The time range brackets every bucket and is attained; before any
      simulated time is seen both ends are still at their sentinels. */
  predicate TimeRangeInv(s: Site) {
    && (s.buckets == map[] ==> s.minSimTime == LongMax && s.maxSimTime == LongMin)
    && (s.buckets != map[] ==>
          && s.minSimTime in s.buckets && s.maxSimTime in s.buckets
          && forall t :: t in s.buckets ==> s.minSimTime <= t <= s.maxSimTime)
  }

  /** Every room active in a bucket has stats. */
  predicate BucketRoomsKnown(s: Site) {
    forall t, id :: t in s.buckets && id in s.buckets[t] ==> id in s.rooms
  }

  /** What holds after every line. */
  predicate SiteInv(s: Site) {
    && s.validJson <= s.totalLines
    && (forall id :: id in s.rooms ==> Inv(s.rooms[id]))
    && TimeRangeInv(s)
    && BucketRoomsKnown(s)
  }

  lemma StartSiteInv(rooms: map<int, Stats>)
    requires forall id :: id in rooms ==> Inv(rooms[id])
    ensures SiteInv(StartSite(rooms))
  {
  }

  /** Storing a room that satisfies the room invariant keeps the site
      invariant: rooms are only added or replaced, never removed. */
  lemma PutRoomKeepsInv(s: Site, id: int, st: Stats)
    requires SiteInv(s) && Inv(st)
    ensures SiteInv(s.(rooms := s.rooms[id := st]))
  {
    var s' := s.(rooms := s.rooms[id := st]);
    assert s.rooms.Keys <= s'.rooms.Keys;
  }

  /** The time bookkeeping of one record. */
  lemma ObserveTime(s: Site, r: TelemetryRecord)
    requires Qualifies(r) && TimeRangeInv(s)
    ensures TimeRangeInv(Observe(s, r))
  {
    if r.simTimeMs.Some? {
      var t := r.simTimeMs.value;
      var s' := Observe(s, r);
      assert t in s'.buckets;
      assert s'.buckets.Keys == s.buckets.Keys + {t};
      if s.buckets == map[] {
        assert s'.minSimTime == t && s'.maxSimTime == t;
        assert forall u :: u in s'.buckets ==> u == t;
      }
    }
  }

  /** A qualifying record on a line already counted keeps the invariant. */
  lemma ObserveKeepsInv(s: Site, r: TelemetryRecord)
    requires Qualifies(r) && SiteInv(s) && s.validJson < s.totalLines
    ensures SiteInv(Observe(s, r))
  {
    var id := r.roomId.value;
    var s' := Observe(s, r);
    ObserveRooms(s, r);
    ObserveBuckets(s, r);
    ObserveTime(s, r);
    assert forall j :: j in s'.rooms ==> Inv(s'.rooms[j]) by {
      FreshStatsInv();
      WithSampleKeepsInv(RoomOrFresh(s.rooms, id), SampleOf(r));
    }
    assert BucketRoomsKnown(s') by {
      assert s.rooms.Keys <= s'.rooms.Keys && id in s'.rooms;
    }
  }

  /** One line keeps the invariant. */
  lemma TelemetryStepKeepsInv(s: Site, line: string, decode: string -> Option<TelemetryRecord>)
    requires SiteInv(s)
    ensures SiteInv(TelemetryStep(s, line, decode))
  {
    if Accepted(line, decode) {
      ObserveKeepsInv(s.(totalLines := s.totalLines + 1), Decoded(line, decode).value);
    }
  }

  /** The whole pass keeps the invariant: in particular `validJson <=
      totalLines`, min <= max for every room with samples, and both time
      extremes bound every observed time. */
  lemma {:induction false} TelemetryPassKeepsInv(s: Site, lines: seq<string>, decode: string -> Option<TelemetryRecord>)
    requires SiteInv(s)
    ensures SiteInv(TelemetryPass(s, lines, decode))
    decreases |lines|
  {
    if |lines| > 0 {
      TelemetryPassKeepsInv(s, lines[..|lines| - 1], decode);
      TelemetryStepKeepsInv(TelemetryPass(s, lines[..|lines| - 1], decode), lines[|lines| - 1], decode);
    }
  }

  /** Console lines, lines without `{`, undecodable text and records lacking
      `T_C` or `roomId` change nothing but the line count; a line is counted
      as valid exactly when it is accepted. */
  lemma IgnoredLines(s: Site, line: string, decode: string -> Option<TelemetryRecord>)
    ensures !Accepted(line, decode) ==> TelemetryStep(s, line, decode) == s.(totalLines := s.totalLines + 1)
    ensures Contains(line, StdoutMarker) || '{' !in line ==> !Accepted(line, decode)
    ensures TelemetryStep(s, line, decode).totalLines == s.totalLines + 1
    ensures TelemetryStep(s, line, decode).validJson == s.validJson + (if Accepted(line, decode) then 1 else 0)
  {
  }

  /** What one qualifying record does to the rooms: its room exists
      afterwards and has taken the sample (a room seen first here starts from
      Java's defaults, expected temperature 0 and capacity 0), and no other
      room changes. */
  lemma ObserveRooms(s: Site, r: TelemetryRecord)
    requires Qualifies(r)
    ensures var id := r.roomId.value; var s' := Observe(s, r);
      && s'.rooms.Keys == s.rooms.Keys + {id}
      && s'.rooms[id] == WithSample(RoomOrFresh(s.rooms, id), SampleOf(r))
      && (id !in s.rooms ==> s'.rooms[id].expectedTemp == 0.0 && s'.rooms[id].energyKWh == 0.0)
      && (forall j :: j in s.rooms && j != id ==> s'.rooms[j] == s.rooms[j])
  {
  }

  /** What one qualifying record does to the buckets: a record with a
      simulated time always has a bucket afterwards, even with the heater off;
      its room is added to it exactly when the heater is on; no other bucket
      changes and nothing is ever removed. */
  lemma ObserveBuckets(s: Site, r: TelemetryRecord)
    requires Qualifies(r)
    ensures var s' := Observe(s, r);
      && (r.simTimeMs.None? ==> s'.buckets == s.buckets && s'.minSimTime == s.minSimTime && s'.maxSimTime == s.maxSimTime)
      && (r.simTimeMs.Some? ==>
            var t := r.simTimeMs.value;
            && t in s'.buckets
            && s'.buckets.Keys == s.buckets.Keys + {t}
            && (forall id :: id in s'.buckets[t] <==> id in BucketOrEmpty(s.buckets, t) || (id == r.roomId.value && HeaterOn(r)))
            && (forall u :: u in s.buckets && u != t ==> s'.buckets[u] == s.buckets[u]))
  {
  }

  /** Buckets only grow. */
  predicate BucketsGrow(before: map<Int64, set<int>>, after: map<Int64, set<int>>) {
    forall t :: t in before ==> t in after && before[t] <= after[t]
  }

  /** Over a whole pass buckets only grow, rooms are never removed and
      `userInteractions` is never touched. */
  lemma {:induction false} TelemetryPassGrows(s: Site, lines: seq<string>, decode: string -> Option<TelemetryRecord>)
    ensures var s' := TelemetryPass(s, lines, decode);
      && BucketsGrow(s.buckets, s'.buckets)
      && s.rooms.Keys <= s'.rooms.Keys
      && (forall id :: id in s.rooms ==> s'.rooms[id].userInteractions == s.rooms[id].userInteractions)
      && (forall id :: id in s'.rooms && id !in s.rooms ==> s'.rooms[id].userInteractions == 0)
      && s'.totalLines == s.totalLines + |lines|
    decreases |lines|
  {
    if |lines| > 0 {
      var prefix := lines[..|lines| - 1];
      TelemetryPassGrows(s, prefix, decode);
      var mid := TelemetryPass(s, prefix, decode);
      var line := lines[|lines| - 1];
      if Accepted(line, decode) {
        var r := Decoded(line, decode).value;
        ObserveRooms(mid.(totalLines := mid.totalLines + 1), r);
        ObserveBuckets(mid.(totalLines := mid.totalLines + 1), r);
      }
    }
  }
}
