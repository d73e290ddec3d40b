/** The analyser's state as the program keeps it: a map from room id to a
    mutable `RoomStats` object, the map of time buckets, the counters and the
    audit pass's set of keys, all changed in place by the passes. Every method
    is proved against the functions of the model modules. */
module Engine {
  import opened Wrappers
  import opened Sets
  import opened JavaText
  import opened Records
  import opened RoomModel
  import opened ConfigModel
  import opened TelemetryModel
  import opened AuditModel
  import opened DemandModel
  import opened RunModel

  /** One room's statistics, a Java object whose fields the passes update. */
  class RoomStats {
    var expectedTemp: real
    var energyKWh: real
    var temps: seq<real>
    var heaterOnCount: nat
    var lastEnergyWh: real
    var minTemp: Extreme
    var maxTemp: Extreme
    var userInteractions: nat
    var lowTicks: nat
    var highTicks: nat
    var lastLowKWh: real
    var lastHighKWh: real
    var totalLowKWh: real
    var totalHighKWh: real

    /** The fields as a value. */
    function View(): Stats
      reads this
    {
      Stats(expectedTemp, energyKWh, temps, heaterOnCount, lastEnergyWh, minTemp, maxTemp,
            userInteractions, lowTicks, highTicks, lastLowKWh, lastHighKWh, totalLowKWh, totalHighKWh)
    }

    /** `new RoomStats()`: Java's field defaults and initialisers. */
    constructor ()
      ensures View() == FreshStats()
    {
      expectedTemp, energyKWh := 0.0, 0.0;
      temps := [];
      heaterOnCount, lastEnergyWh := 0, 0.0;
      minTemp, maxTemp := PosInf, NegInf;
      userInteractions, lowTicks, highTicks := 0, 0, 0;
      lastLowKWh, lastHighKWh, totalLowKWh, totalHighKWh := 0.0, 0.0, 0.0, 0.0;
    }

    /** The temperature and its extrema. */
    method RecordTemperature(temp: real)
      modifies this
      ensures View() == old(View()).(temps := old(temps) + [temp],
        minTemp := if Below(temp, old(minTemp)) then Finite(temp) else old(minTemp),
        maxTemp := if Above(temp, old(maxTemp)) then Finite(temp) else old(maxTemp))
    {
      temps := temps + [temp];
      if Below(temp, minTemp) { minTemp := Finite(temp); }
      if Above(temp, maxTemp) { maxTemp := Finite(temp); }
    }

    /** The heater count and the energy reading. */
    method RecordHeater(heaterOn: bool, energyWh: Option<real>)
      modifies this
      ensures View() == old(View()).(heaterOnCount := if heaterOn then old(heaterOnCount) + 1 else old(heaterOnCount),
        lastEnergyWh := energyWh.GetOr(old(lastEnergyWh)))
    {
      if heaterOn { heaterOnCount := heaterOnCount + 1; }
      if energyWh.Some? { lastEnergyWh := energyWh.value; }
    }

    /** The tariff counters: a tick per tier whose reading rose while heating. */
    method RecordTariffs(heaterOn: bool, lowKWh: Option<real>, highKWh: Option<real>)
      modifies this
      ensures var low := lowKWh.GetOr(old(lastLowKWh)); var high := highKWh.GetOr(old(lastHighKWh));
        View() == old(View()).(
          lowTicks := if heaterOn && low > old(lastLowKWh) then old(lowTicks) + 1 else old(lowTicks),
          highTicks := if heaterOn && high > old(lastHighKWh) then old(highTicks) + 1 else old(highTicks),
          lastLowKWh := low, lastHighKWh := high, totalLowKWh := low, totalHighKWh := high)
    {
      var low := if lowKWh.Some? then lowKWh.value else lastLowKWh;
      var high := if highKWh.Some? then highKWh.value else lastHighKWh;
      if heaterOn {
        if low > lastLowKWh { lowTicks := lowTicks + 1; }
        if high > lastHighKWh { highTicks := highTicks + 1; }
      }
      lastLowKWh := low;
      lastHighKWh := high;
      totalLowKWh := low;
      totalHighKWh := high;
    }

    /** The body of the telemetry loop for one qualifying record's room. */
    method AddSample(x: Sample)
      modifies this
      ensures View() == WithSample(old(View()), x)
    {
      RecordTemperature(x.temp);
      RecordHeater(x.heaterOn, x.energyWh);
      RecordTariffs(x.heaterOn, x.lowKWh, x.highKWh);
    }

    /** `st.userInteractions++` */
    method AddInteraction()
      modifies this
      ensures View() == old(View()).(userInteractions := old(userInteractions) + 1)
    {
      userInteractions := userInteractions + 1;
    }
  }

  /** The state one run accumulates. */
  class Analyzer {
    var statsByRoom: map<int, RoomStats>
    var maxEnergyKWh: real
    var roomsOnAtTime: map<Int64, set<int>>
    var minSimTime: Int64
    var maxSimTime: Int64
    var totalLines: nat
    var validJson: nat
    var uniqueRequests: set<string>
    ghost var Repr: set<object>

    /** The rooms as values. */
    function Rooms(): map<int, Stats>
      reads this`statsByRoom, statsByRoom.Values
    {
      map id | id in statsByRoom :: statsByRoom[id].View()
    }

    /** The telemetry state as a value. */
    ghost function SiteView(): Site
      reads this, statsByRoom.Values
    {
      Site(Rooms(), roomsOnAtTime, minSimTime, maxSimTime, totalLines, validJson)
    }

    /** The audit state as a value. */
    ghost function AuditView(): Audit
      reads this, statsByRoom.Values
    {
      Audit(Rooms(), uniqueRequests)
    }

    /** Every room has its own object, and all of them belong to the analyser. */
    ghost predicate Owned()
      reads this
    {
      && this in Repr
      && statsByRoom.Values <= Repr
      && (forall i, j :: i in statsByRoom && j in statsByRoom && i != j ==> statsByRoom[i] != statsByRoom[j])
    }

    /** The objects are owned and the telemetry invariant holds. */
    ghost predicate Valid()
      reads this, Repr
    {
      Owned() && SiteInv(SiteView())
    }

    constructor ()
      ensures Valid() && fresh(Repr)
      ensures SiteView() == StartSite(map[])
      ensures uniqueRequests == {} && maxEnergyKWh == 0.0
    {
      statsByRoom := map[];
      maxEnergyKWh := 0.0;
      roomsOnAtTime := map[];
      minSimTime, maxSimTime := LongMax, LongMin;
      totalLines, validJson := 0, 0;
      uniqueRequests := {};
      Repr := {this};
      new;
      assert Rooms() == map[];
    }

    /** `statsByRoom.computeIfAbsent(id, k -> new RoomStats())`. */
    method RoomFor(id: int) returns (st: RoomStats)
      requires Owned()
      modifies this`statsByRoom, this`Repr
      ensures Owned() && fresh(Repr - old(Repr))
      ensures id in statsByRoom && st == statsByRoom[id]
      ensures statsByRoom.Keys == old(statsByRoom.Keys) + {id}
      ensures forall j :: j in old(statsByRoom) ==> statsByRoom[j] == old(statsByRoom[j])
      ensures id !in old(statsByRoom) ==> fresh(st)
      ensures Rooms() == old(Rooms())[id := RoomOrFresh(old(Rooms()), id)]
    {
      if id in statsByRoom {
        st := statsByRoom[id];
        assert Rooms()[id := RoomOrFresh(Rooms(), id)] == Rooms();
      } else {
        st := new RoomStats();
        ghost var before := Rooms();
        statsByRoom := statsByRoom[id := st];
        Repr := Repr + {st};
        assert Rooms() == before[id := FreshStats()];
      }
    }

    /** The sample a qualifying record adds to its room, created if absent. */
    method RecordSample(r: TelemetryRecord)
      requires Owned() && Qualifies(r)
      modifies Repr
      ensures Owned() && fresh(Repr - old(Repr))
      ensures Rooms() == old(Rooms())[r.roomId.value := WithSample(RoomOrFresh(old(Rooms()), r.roomId.value), SampleOf(r))]
      ensures roomsOnAtTime == old(roomsOnAtTime) && minSimTime == old(minSimTime) && maxSimTime == old(maxSimTime)
      ensures totalLines == old(totalLines) && validJson == old(validJson)
      ensures uniqueRequests == old(uniqueRequests) && maxEnergyKWh == old(maxEnergyKWh)
    {
      var id := r.roomId.value;
      var st := RoomFor(id);
      AddRoomSample(id, SampleOf(r));
    }

    /** `st.temps.add(temp)` and the rest of the sample, on room `id`'s object. */
    method AddRoomSample(id: int, x: Sample)
      requires Owned() && id in statsByRoom
      modifies statsByRoom[id]
      ensures Rooms() == old(Rooms())[id := WithSample(old(Rooms())[id], x)]
    {
      ghost var rooms := Rooms();
      var st := statsByRoom[id];
      st.AddSample(x);
      forall j | j in statsByRoom && j != id
        ensures statsByRoom[j].View() == rooms[j]
      {
        assert statsByRoom[j] != st;
      }
      assert Rooms() == rooms[id := st.View()];
    }

    /** The simulated time of a qualifying record: the range, and the bucket
        of that time, which gains the room when its heater is on. */
    method RecordSimTime(t: Int64, id: int, heaterOn: bool)
      modifies this`minSimTime, this`maxSimTime, this`roomsOnAtTime
      ensures minSimTime == (if t < old(minSimTime) then t else old(minSimTime))
      ensures maxSimTime == (if t > old(maxSimTime) then t else old(maxSimTime))
      ensures var active := BucketOrEmpty(old(roomsOnAtTime), t);
        roomsOnAtTime == old(roomsOnAtTime)[t := if heaterOn then active + {id} else active]
    {
      if t < minSimTime { minSimTime := t; }
      if t > maxSimTime { maxSimTime := t; }
      var active := if t in roomsOnAtTime then roomsOnAtTime[t] else {};
      if heaterOn { active := active + {id}; }
      roomsOnAtTime := roomsOnAtTime[t := active];
    }

    /** The update one qualifying record makes. */
    method ObserveRecord(r: TelemetryRecord)
      requires Owned() && Qualifies(r)
      modifies Repr
      ensures Owned() && fresh(Repr - old(Repr))
      ensures SiteView() == Observe(old(SiteView()), r)
      ensures uniqueRequests == old(uniqueRequests) && maxEnergyKWh == old(maxEnergyKWh)
    {
      ghost var goal := Observe(SiteView(), r);
      RecordSample(r);
      if r.simTimeMs.Some? {
        RecordSimTime(r.simTimeMs.value, r.roomId.value, HeaterOn(r));
      }
      validJson := validJson + 1;
      assert Rooms() == goal.rooms;
    }

    /** `totalLines++`, done for every line before any filter. */
    method CountLine()
      requires Valid()
      modifies this`totalLines
      ensures Valid() && SiteView().validJson < SiteView().totalLines
      ensures SiteView() == old(SiteView()).(totalLines := old(totalLines) + 1)
    {
      totalLines := totalLines + 1;
    }

    /** One line of the telemetry log. */
    method ProcessTelemetryLine(line: string, decode: string -> Option<TelemetryRecord>)
      requires Valid()
      modifies Repr
      ensures Valid() && fresh(Repr - old(Repr))
      ensures SiteView() == TelemetryStep(old(SiteView()), line, decode)
      ensures uniqueRequests == old(uniqueRequests) && maxEnergyKWh == old(maxEnergyKWh)
    {
      ghost var before := SiteView();
      CountLine();
      var text := ExtractRecordText(line);
      if text.None? {
        return;
      }
      var decoded := decode(text.value);
      assert Decoded(line, decode) == decoded;
      if decoded.None? || !Qualifies(decoded.value) {
        return;
      }
      ghost var counted := SiteView();
      assert TelemetryStep(before, line, decode) == Observe(counted, decoded.value);
      ObserveRecord(decoded.value);
      ObserveKeepsInv(counted, decoded.value);
    }

    /** The telemetry pass over the whole log. */
    method ProcessTelemetry(lines: seq<string>, decode: string -> Option<TelemetryRecord>)
      requires Valid()
      modifies Repr
      ensures Valid() && fresh(Repr - old(Repr))
      ensures SiteView() == TelemetryPass(old(SiteView()), lines, decode)
      ensures uniqueRequests == old(uniqueRequests) && maxEnergyKWh == old(maxEnergyKWh)
    {
      for i := 0 to |lines|
        invariant Valid() && fresh(Repr - old(Repr))
        invariant SiteView() == TelemetryPass(old(SiteView()), lines[..i], decode)
        invariant uniqueRequests == old(uniqueRequests) && maxEnergyKWh == old(maxEnergyKWh)
      {
        ProcessTelemetryLine(lines[i], decode);
        assert lines[..i + 1][..i] == lines[..i];
      }
      assert lines[..|lines|] == lines;
    }

    /** `userInteractions++` on room `id`'s object. */
    method AddRoomInteraction(id: int)
      requires Owned() && id in statsByRoom
      modifies statsByRoom[id]
      ensures Owned()
      ensures Rooms() == old(Rooms())[id := old(Rooms())[id].(userInteractions := old(Rooms())[id].userInteractions + 1)]
    {
      ghost var rooms := Rooms();
      var st := statsByRoom[id];
      st.AddInteraction();
      forall j | j in statsByRoom && j != id
        ensures statsByRoom[j].View() == rooms[j]
      {
        assert statsByRoom[j] != st;
      }
      assert Rooms() == rooms[id := st.View()];
    }

    /** One line of the audit log. */
    method ProcessAuditLine(line: string, decode: string -> Option<AuditRecord>)
      requires Valid()
      modifies Repr
      ensures Valid() && fresh(Repr - old(Repr))
      ensures AuditView() == AuditStep(old(AuditView()), line, decode)
      ensures SiteView() == old(SiteView()).(rooms := Rooms())
      ensures maxEnergyKWh == old(maxEnergyKWh)
    {
      AuditStepKeepsSiteInv(SiteView(), uniqueRequests, line, decode);
      if !PassesAuditFilters(line) {
        return;
      }
      var decoded := decode(line);
      if decoded.None? {
        return;
      }
      var path, timestamp := decoded.value.path, decoded.value.timestamp;
      if !(StartsWith(path, SwitchPrefix) && timestamp != "") {
        return;
      }
      var key := DedupKey(path, timestamp);
      if key in uniqueRequests {
        return;
      }
      uniqueRequests := uniqueRequests + {key};
      var room := SwitchRoom(path);
      if room.None? {
        return;
      }
      CreditInteraction(room.value);
    }

    /** `computeIfAbsent(roomId, ...)` followed by `userInteractions++`. */
    method CreditInteraction(id: int)
      requires Owned()
      modifies this`statsByRoom, this`Repr, statsByRoom.Values
      ensures Owned() && fresh(Repr - old(Repr))
      ensures Rooms() == Interact(old(Rooms()), id)
      ensures roomsOnAtTime == old(roomsOnAtTime) && minSimTime == old(minSimTime) && maxSimTime == old(maxSimTime)
      ensures totalLines == old(totalLines) && validJson == old(validJson)
      ensures uniqueRequests == old(uniqueRequests) && maxEnergyKWh == old(maxEnergyKWh)
    {
      ghost var before := Rooms();
      var st := RoomFor(id);
      InteractInTwoSteps(before, Rooms(), id);
      AddRoomInteraction(id);
    }

    /** The audit pass over the whole log, with its own, initially empty, set
        of keys. */
    method ProcessAudit(lines: seq<string>, decode: string -> Option<AuditRecord>)
      requires Valid()
      modifies Repr
      ensures Valid() && fresh(Repr - old(Repr))
      ensures AuditView() == AuditPass(Audit(old(Rooms()), {}), lines, decode)
      ensures SiteView() == old(SiteView()).(rooms := Rooms())
      ensures maxEnergyKWh == old(maxEnergyKWh)
    {
      uniqueRequests := {};
      for i := 0 to |lines|
        invariant Valid() && fresh(Repr - old(Repr))
        invariant AuditView() == AuditPass(Audit(old(Rooms()), {}), lines[..i], decode)
        invariant SiteView() == old(SiteView()).(rooms := Rooms())
        invariant maxEnergyKWh == old(maxEnergyKWh)
      {
        ProcessAuditLine(lines[i], decode);
        assert lines[..i + 1][..i] == lines[..i];
      }
      assert lines[..|lines|] == lines;
    }

    /** `statsByRoom.put(id, st)` for a new `st` carrying the unit's
        expected temperature and rated energy. */
    method PutRoom(id: int, expectedTemp: real, energyKWh: real)
      requires Owned()
      modifies this`statsByRoom, this`Repr
      ensures Owned() && fresh(Repr - old(Repr))
      ensures Rooms() == old(Rooms())[id := FreshStats().(expectedTemp := expectedTemp, energyKWh := energyKWh)]
    {
      var st := new RoomStats();
      st.expectedTemp := expectedTemp;
      st.energyKWh := energyKWh;
      ghost var before := Rooms();
      statsByRoom := statsByRoom[id := st];
      Repr := Repr + {st};
      assert Rooms() == before[id := st.View()];
    }

    /** One configuration unit, `put` under its id; false, storing nothing,
        where its energy text makes `parseEnergy` throw. */
    method SeedUnit(u: RoomUnit) returns (ok: bool)
      requires Valid()
      modifies this`statsByRoom, this`Repr
      ensures Valid() && fresh(Repr - old(Repr))
      ensures ok <==> ConfiguredStats(u).Some?
      ensures ok ==> Rooms() == old(Rooms())[UnitId(u) := ConfiguredStats(u).value]
      ensures !ok ==> Rooms() == old(Rooms())
    {
      var configured := ConfiguredStats(u);
      if configured.None? {
        return false;
      }
      ghost var site := SiteView();
      PutRoom(UnitId(u), configured.value.expectedTemp, configured.value.energyKWh);
      FreshStatsInv();
      PutRoomKeepsInv(site, UnitId(u), configured.value);
      ok := true;
    }

    /** Every configuration unit in order; false, at the first unit whose
        energy text makes `parseEnergy` throw. */
    method SeedUnits(units: seq<RoomUnit>) returns (ok: bool)
      requires Valid()
      modifies this`statsByRoom, this`Repr
      ensures Valid() && fresh(Repr - old(Repr))
      ensures ok <==> Seed(old(Rooms()), units).Some?
      ensures ok ==> Rooms() == Seed(old(Rooms()), units).value
    {
      for i := 0 to |units|
        invariant Valid() && fresh(Repr - old(Repr))
        invariant Seed(old(Rooms()), units[..i]) == Some(Rooms())
      {
        ghost var seeded := Rooms();
        var put := SeedUnit(units[i]);
        if !put {
          SeedFailsAt(old(Rooms()), units, i);
          return false;
        }
        SeedStep(old(Rooms()), units, i, seeded, ConfiguredStats(units[i]).value);
      }
      assert units[..|units|] == units;
      ok := true;
    }

    /** The configuration: every unit in order, then the site budget. Returns
        false where a unit's energy or the budget text makes `parseEnergy`
        throw, which ends the run. */
    method LoadConfig(cfg: Config) returns (ok: bool)
      requires Valid()
      modifies this`statsByRoom, this`Repr, this`maxEnergyKWh
      ensures Valid() && fresh(Repr - old(Repr))
      ensures ok <==> Seed(old(Rooms()), cfg.units).Some? && Budget(cfg).Some?
      ensures ok ==> Rooms() == Seed(old(Rooms()), cfg.units).value && maxEnergyKWh == Budget(cfg).value
    {
      ok := SeedUnits(cfg.units);
      if !ok {
        return;
      }
      var budget := Budget(cfg);
      if budget.None? {
        return false;
      }
      maxEnergyKWh := budget.value;
    }

    /** The summed capacity of the rooms in one bucket; a room without stats
        adds nothing. */
    method BucketDemand(active: set<int>) returns (total: real)
      ensures total == Demand(active, Capacities(Rooms()))
    {
      ghost var caps := Capacities(Rooms());
      total := 0.0;
      var pending := active;
      while pending != {}
        invariant pending <= active
        invariant total == Total(active - pending, CapacityOf(caps))
        decreases pending
      {
        var id := Choose(pending);
        if id in statsByRoom {
          total := total + statsByRoom[id].energyKWh;
        }
        TotalAdd(active - pending, CapacityOf(caps), id);
        assert active - (pending - {id}) == (active - pending) + {id};
        pending := pending - {id};
      }
      assert active - pending == active;
    }

    /** The two passes over the logs, then the peak over the buckets they leave. */
    method Passes(log: seq<string>, httpLog: Option<seq<string>>,
                  decodeTelemetry: string -> Option<TelemetryRecord>,
                  decodeAudit: string -> Option<AuditRecord>) returns (peak: real)
      requires Valid()
      modifies Repr
      ensures var site := TelemetryPass(old(SiteView()), log, decodeTelemetry);
        && Rooms() == AfterAudit(site.rooms, httpLog, decodeAudit).rooms
        && SiteView() == site.(rooms := Rooms())
        && IsPeak(peak, site.buckets, Capacities(Rooms()))
      ensures maxEnergyKWh == old(maxEnergyKWh)
    {
      ProcessTelemetry(log, decodeTelemetry);
      if httpLog.Some? {
        ProcessAudit(httpLog.value, decodeAudit);
      }
      peak := PeakDemand();
    }

    /** The largest bucket demand, starting from 0. */
    method PeakDemand() returns (peak: real)
      ensures IsPeak(peak, roomsOnAtTime, Capacities(Rooms()))
    {
      ghost var caps := Capacities(Rooms());
      peak := 0.0;
      ghost var busiest: Int64 := 0;
      var pending := roomsOnAtTime.Keys;
      while pending != {}
        invariant pending <= roomsOnAtTime.Keys
        invariant peak >= 0.0
        invariant forall t :: t in roomsOnAtTime && t !in pending ==> Demand(roomsOnAtTime[t], caps) <= peak
        invariant peak == 0.0 || (busiest in roomsOnAtTime && peak == Demand(roomsOnAtTime[busiest], caps))
        decreases pending
      {
        var t := Choose(pending);
        var total := BucketDemand(roomsOnAtTime[t]);
        if total > peak {
          peak := total;
          busiest := t;
        }
        pending := pending - {t};
      }
    }
  }

  /** The whole of `main` up to the report: load the configuration (stopping
      where it throws), aggregate the telemetry log, credit the audit log
      when it exists, and find the peak demand. */
  method Analyze(cfg: Config, log: seq<string>, httpLog: Option<seq<string>>,
                 decodeTelemetry: string -> Option<TelemetryRecord>,
                 decodeAudit: string -> Option<AuditRecord>) returns (summary: Option<Summary>)
    ensures summary.None? <==> Run(cfg, log, httpLog, decodeTelemetry, decodeAudit).None?
    ensures summary.Some? ==>
      var o := Run(cfg, log, httpLog, decodeTelemetry, decodeAudit).value;
      && summary.value.rooms == o.rooms
      && summary.value.maxEnergyKWh == o.budget
      && summary.value.totalLines == o.site.totalLines
      && summary.value.validJson == o.site.validJson
      && summary.value.minSimTime == o.site.minSimTime
      && summary.value.maxSimTime == o.site.maxSimTime
      && IsPeak(summary.value.peakKWh, o.site.buckets, Capacities(o.rooms))
  {
    var a := new Analyzer();
    var ok := a.LoadConfig(cfg);
    if !ok {
      return None;
    }
    ghost var seeded := a.Rooms();
    assert a.SiteView() == StartSite(seeded);
    var peak := a.Passes(log, httpLog, decodeTelemetry, decodeAudit);
    summary := Some(Summary(a.Rooms(), a.maxEnergyKWh, a.totalLines, a.validJson, a.minSimTime, a.maxSimTime, peak));
  }
}
