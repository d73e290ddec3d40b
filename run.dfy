/** A whole run as values: the configuration seeds the rooms, the telemetry
    log is aggregated, and the audit log, when there is one, credits the
    interactions. */
module RunModel {
  import opened Wrappers
  import opened Records
  import opened RoomModel
  import opened ConfigModel
  import opened TelemetryModel
  import opened AuditModel
  import opened DemandModel

  /** What a run has computed once its passes are over: the telemetry
      state, the rooms after the audit pass, the set of audit keys that pass
      used up, and the site budget. */
  datatype Outcome = Outcome(site: Site, rooms: map<int, Stats>, keys: set<string>, budget: real)

  /** What the report prints from: the rooms, the budget, the line counts,
      the simulated time range and the peak demand. */
  datatype Summary = Summary(rooms: map<int, Stats>, maxEnergyKWh: real, totalLines: nat, validJson: nat,
                             minSimTime: Int64, maxSimTime: Int64, peakKWh: real)

  /** The audit pass when the audit log exists; otherwise the rooms stay as
      the telemetry pass left them. */
  function AfterAudit(rooms: map<int, Stats>, httpLog: Option<seq<string>>, decode: string -> Option<AuditRecord>): Audit {
    match httpLog
    case None => Audit(rooms, {})
    case Some(lines) => AuditPass(Audit(rooms, {}), lines, decode)
  }

  /** The run; `None` where loading the configuration throws. */
  function Run(cfg: Config, log: seq<string>, httpLog: Option<seq<string>>,
               decodeTelemetry: string -> Option<TelemetryRecord>,
               decodeAudit: string -> Option<AuditRecord>): Option<Outcome>
  {
    match Seed(map[], cfg.units)
    case None => None
    case Some(seeded) =>
      match Budget(cfg)
      case None => None
      case Some(budget) =>
        var site := TelemetryPass(StartSite(seeded), log, decodeTelemetry);
        var audit := AfterAudit(site.rooms, httpLog, decodeAudit);
        Some(Outcome(site, audit.rooms, audit.seen, budget))
  }

  /** A sum of zeros is zero. */
  lemma TotalOfZeros(ks: set<int>, w: int -> real)
    requires forall k :: k in ks ==> w(k) == 0.0
    ensures Total(ks, w) == 0.0
  {
    TotalDropZeros(ks, {}, w);
    assert ks * {} == {};
  }

  /** What holds of every completed run: each line of the log is counted,
      at most that many are valid, every room satisfies the room invariant
      (so `minTemp <= maxTemp` wherever there are samples), the simulated
      time range brackets every bucket, and every room in a bucket has
      stats. */
  lemma {:induction false} RunInv(cfg: Config, log: seq<string>, httpLog: Option<seq<string>>,
                                   decodeTelemetry: string -> Option<TelemetryRecord>,
                                   decodeAudit: string -> Option<AuditRecord>)
    requires Run(cfg, log, httpLog, decodeTelemetry, decodeAudit).Some?
    ensures var o := Run(cfg, log, httpLog, decodeTelemetry, decodeAudit).value;
      && SiteInv(o.site)
      && o.site.totalLines == |log|
      && o.site.validJson <= |log|
      && o.site.rooms.Keys <= o.rooms.Keys
      && (forall id :: id in o.rooms ==> Inv(o.rooms[id]))
  {
    var seeded := Seed(map[], cfg.units).value;
    SeedGivesFreshRooms(map[], cfg.units);
    StartSiteInv(seeded);
    TelemetryPassKeepsInv(StartSite(seeded), log, decodeTelemetry);
    TelemetryPassGrows(StartSite(seeded), log, decodeTelemetry);
    var site := TelemetryPass(StartSite(seeded), log, decodeTelemetry);
    if httpLog.Some? {
      AuditPassKeepsInv(Audit(site.rooms, {}), httpLog.value, decodeAudit);
    }
  }

  /** Without an audit log no room has a user interaction: the seeded rooms
      start with none and telemetry never touches them. */
  lemma NoAuditNoInteractions(cfg: Config, log: seq<string>,
                              decodeTelemetry: string -> Option<TelemetryRecord>,
                              decodeAudit: string -> Option<AuditRecord>)
    requires Run(cfg, log, None, decodeTelemetry, decodeAudit).Some?
    ensures var o := Run(cfg, log, None, decodeTelemetry, decodeAudit).value;
      forall id :: id in o.rooms ==> o.rooms[id].userInteractions == 0
  {
    var seeded := Seed(map[], cfg.units).value;
    SeedGivesFreshRooms(map[], cfg.units);
    TelemetryPassGrows(StartSite(seeded), log, decodeTelemetry);
  }

  /** Over a whole run the interactions credited add up to at most the
      number of distinct `path|timestamp` keys of the audit log. */
  lemma InteractionsAtMostKeys(cfg: Config, log: seq<string>, httpLog: Option<seq<string>>,
                               decodeTelemetry: string -> Option<TelemetryRecord>,
                               decodeAudit: string -> Option<AuditRecord>)
    requires Run(cfg, log, httpLog, decodeTelemetry, decodeAudit).Some?
    ensures var o := Run(cfg, log, httpLog, decodeTelemetry, decodeAudit).value;
      TotalInteractions(o.rooms) <= |o.keys| as real
  {
    var seeded := Seed(map[], cfg.units).value;
    var site := TelemetryPass(StartSite(seeded), log, decodeTelemetry);
    NoAuditNoInteractions(cfg, log, decodeTelemetry, decodeAudit);
    assert Run(cfg, log, None, decodeTelemetry, decodeAudit).value.rooms == site.rooms;
    TotalOfZeros(site.rooms.Keys, InteractionsOf(site.rooms));
    if httpLog.Some? {
      InteractionsBoundedByKeys(Audit(site.rooms, {}), httpLog.value, decodeAudit);
    }
  }
}
