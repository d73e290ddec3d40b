/** Seeding the room map from the configuration's units, and the site
    budget. A unit whose energy text does not parse makes `parseEnergy` throw;
    nothing catches that exception, so the whole run stops. */
module ConfigModel {
  import opened Wrappers
  import opened JavaNumbers
  import opened Energy
  import opened Records
  import opened RoomModel

  /** `room.path("id").asInt()`: an absent id reads as 0. */
  function UnitId(u: RoomUnit): int {
    u.id.GetOr(0)
  }

  /** The texts `asText` falls back on when a field is absent. */
  const DefaultExpectedTemp: string := "22"
  const DefaultEnergy: string := "2 kWh"
  const DefaultBudget: string := "0"

  /** A new room carrying the unit's expected temperature (text default
      "22") and rated energy (text default "2 kWh"); `None` where the energy
      text makes `parseEnergy` throw. */
  function ConfiguredStats(u: RoomUnit): Option<Stats> {
    var expected := ParseDouble(u.expectedTemp.GetOr(DefaultExpectedTemp));
    match ParseEnergy(Some(u.energy.GetOr(DefaultEnergy)))
    case None => None
    case Some(e) => Some(FreshStats().(expectedTemp := expected, energyKWh := e))
  }

  /** The units in order, each `put` into the map, so a later unit with the
      same id replaces an earlier one; `None` once a unit's energy fails. */
  function Seed(rooms: map<int, Stats>, units: seq<RoomUnit>): Option<map<int, Stats>>
    decreases |units|
  {
    if |units| == 0 then Some(rooms)
    else
      match Seed(rooms, units[..|units| - 1])
      case None => None
      case Some(seeded) =>
        var last := units[|units| - 1];
        match ConfiguredStats(last)
        case None => None
        case Some(st) => Some(seeded[UnitId(last) := st])
  }

  /** The site budget, `simulacion.maxEnergy` with a text default of "0". */
  function Budget(cfg: Config): Option<real> {
    ParseEnergy(Some(cfg.maxEnergy.GetOr(DefaultBudget)))
  }

  /** The index of the last unit with id `id`, or -1. */
  function LastUnitWith(units: seq<RoomUnit>, id: int): (k: int)
    ensures -1 <= k < |units|
    ensures k >= 0 ==> UnitId(units[k]) == id
    ensures forall j :: k < j < |units| ==> UnitId(units[j]) != id
    decreases |units|
  {
    if |units| == 0 then -1
    else if UnitId(units[|units| - 1]) == id then |units| - 1
    else LastUnitWith(units[..|units| - 1], id)
  }

  /** Seeding one more unit `put`s its room over the map seeded so far. */
  lemma SeedStep(rooms: map<int, Stats>, units: seq<RoomUnit>, i: int, seeded: map<int, Stats>, st: Stats)
    requires 0 <= i < |units|
    requires Seed(rooms, units[..i]) == Some(seeded) && ConfiguredStats(units[i]) == Some(st)
    ensures Seed(rooms, units[..i + 1]) == Some(seeded[UnitId(units[i]) := st])
  {
    assert units[..i + 1][..i] == units[..i];
  }

  /** A unit whose energy text does not parse makes the whole seeding fail. */
  lemma {:induction false} SeedFailsAt(rooms: map<int, Stats>, units: seq<RoomUnit>, k: int)
    requires 0 <= k < |units| && ConfiguredStats(units[k]).None?
    ensures Seed(rooms, units).None?
    decreases |units|
  {
    if k < |units| - 1 {
      var prefix := units[..|units| - 1];
      assert prefix[k] == units[k];
      SeedFailsAt(rooms, prefix, k);
    }
  }

  /** Seeding succeeds when every unit's energy text parses. */
  lemma {:induction false} SeedSucceeds(rooms: map<int, Stats>, units: seq<RoomUnit>)
    requires forall k :: 0 <= k < |units| ==> ConfiguredStats(units[k]).Some?
    ensures Seed(rooms, units).Some?
    decreases |units|
  {
    if |units| > 0 {
      var prefix := units[..|units| - 1];
      assert forall k :: 0 <= k < |prefix| ==> prefix[k] == units[k];
      SeedSucceeds(rooms, prefix);
      assert ConfiguredStats(units[|units| - 1]).Some?;
    }
  }

  /** Seeding fails exactly when some unit's energy text does not parse. */
  lemma SeedFailsOnBadEnergy(rooms: map<int, Stats>, units: seq<RoomUnit>)
    ensures Seed(rooms, units).None? <==> exists k :: 0 <= k < |units| && ConfiguredStats(units[k]).None?
  {
    if exists k :: 0 <= k < |units| && ConfiguredStats(units[k]).None? {
      var k :| 0 <= k < |units| && ConfiguredStats(units[k]).None?;
      SeedFailsAt(rooms, units, k);
    } else {
      SeedSucceeds(rooms, units);
    }
  }

  /** After seeding, a room holds the stats of the LAST unit with its id;
      rooms no unit names are left as they were; no room is removed. */
  lemma {:induction false} SeedLastWins(rooms: map<int, Stats>, units: seq<RoomUnit>, id: int)
    requires Seed(rooms, units).Some?
    ensures var seeded := Seed(rooms, units).value; var k := LastUnitWith(units, id);
      && rooms.Keys <= seeded.Keys
      && (k >= 0 ==> id in seeded && Some(seeded[id]) == ConfiguredStats(units[k]))
      && (k < 0 ==> (id in seeded <==> id in rooms) && (id in rooms ==> seeded[id] == rooms[id]))
    decreases |units|
  {
    if |units| > 0 {
      SeedLastWins(rooms, units[..|units| - 1], id);
    }
  }

  /** Every seeded room is a fresh room with only its configuration set:
      no samples, no interactions, so the room invariant holds. */
  lemma {:induction false} SeedGivesFreshRooms(rooms: map<int, Stats>, units: seq<RoomUnit>)
    requires forall id :: id in rooms ==> Inv(rooms[id])
    requires Seed(rooms, units).Some?
    ensures var seeded := Seed(rooms, units).value;
      && (forall id :: id in seeded ==> Inv(seeded[id]))
      && (forall id :: id in seeded && id !in rooms ==>
            seeded[id] == FreshStats().(expectedTemp := seeded[id].expectedTemp, energyKWh := seeded[id].energyKWh))
    decreases |units|
  {
    if |units| > 0 {
      SeedGivesFreshRooms(rooms, units[..|units| - 1]);
      FreshStatsInv();
    }
  }

  /** A unit with neither id, expected temperature nor energy is stored as
      room 0 with 22 degrees and 2 kWh: it is not skipped. */
  lemma EmptyUnitIsRoomZero()
    ensures Seed(map[], [RoomUnit(None, None, None)])
         == Some(map[0 := FreshStats().(expectedTemp := 22.0, energyKWh := 2.0)])
  {
    assert ParseDouble("22") == 22.0 by {
      assert NatText(22) == "22";
      NatTextParsesAsDouble(22);
      JavaText.ReplaceAbsent("22", ",", ".");
      JavaText.TrimUnblanked("22");
    }
    Defaults();
    var units := [RoomUnit(None, None, None)];
    assert units[..0] == [];
  }
}
