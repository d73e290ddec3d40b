/** The per-room statistics as a value, the update one telemetry sample makes
    to them, and the band classification of the report. */
module RoomModel {
  import opened Wrappers

  /** A `double` extremum: the running minimum starts at +Infinity and the
      running maximum at -Infinity. */
  datatype Extreme = NegInf | Finite(value: real) | PosInf

  /** `t < e` */
  predicate Below(t: real, e: Extreme) {
    match e
    case NegInf => false
    case Finite(v) => t < v
    case PosInf => true
  }

  /** `t > e` */
  predicate Above(t: real, e: Extreme) {
    match e
    case NegInf => true
    case Finite(v) => t > v
    case PosInf => false
  }

  /** The fields of one room's statistics. */
  datatype Stats = Stats(
    expectedTemp: real,
    energyKWh: real,
    temps: seq<real>,
    heaterOnCount: nat,
    lastEnergyWh: real,
    minTemp: Extreme,
    maxTemp: Extreme,
    userInteractions: nat,
    lowTicks: nat,
    highTicks: nat,
    lastLowKWh: real,
    lastHighKWh: real,
    totalLowKWh: real,
    totalHighKWh: real)

  /** A freshly constructed room: every field at its Java default, so the
      expected temperature and the rated energy are 0, not 22 and 2 kWh. */
  function FreshStats(): Stats {
    Stats(0.0, 0.0, [], 0, 0.0, PosInf, NegInf, 0, 0, 0, 0.0, 0.0, 0.0, 0.0)
  }

  /** What a qualifying telemetry record tells its room: the temperature,
      whether the heater is on (absent reads as off), and the optional
      energy and tariff counters. */
  datatype Sample = Sample(temp: real, heaterOn: bool, energyWh: Option<real>, lowKWh: Option<real>, highKWh: Option<real>)

  /** The room after one sample: the temperature appended and the extrema
      updated, the heater counted, absent counters carried forward, and a
      tariff tick for each counter that strictly increased while heating. */
  function WithSample(s: Stats, x: Sample): Stats {
    var low := x.lowKWh.GetOr(s.lastLowKWh);
    var high := x.highKWh.GetOr(s.lastHighKWh);
    s.(temps := s.temps + [x.temp],
       minTemp := if Below(x.temp, s.minTemp) then Finite(x.temp) else s.minTemp,
       maxTemp := if Above(x.temp, s.maxTemp) then Finite(x.temp) else s.maxTemp,
       heaterOnCount := if x.heaterOn then s.heaterOnCount + 1 else s.heaterOnCount,
       lastEnergyWh := x.energyWh.GetOr(s.lastEnergyWh),
       lowTicks := if x.heaterOn && low > s.lastLowKWh then s.lowTicks + 1 else s.lowTicks,
       highTicks := if x.heaterOn && high > s.lastHighKWh then s.highTicks + 1 else s.highTicks,
       lastLowKWh := low,
       lastHighKWh := high,
       totalLowKWh := low,
       totalHighKWh := high)
  }

  /** The extrema are the smallest and largest sample (or the infinities
      while there is none). */
  predicate ExtremaInv(s: Stats) {
    && (|s.temps| == 0 ==> s.minTemp == PosInf && s.maxTemp == NegInf)
    && (|s.temps| > 0 ==>
          && s.minTemp.Finite? && s.maxTemp.Finite?
          && s.minTemp.value in s.temps && s.maxTemp.value in s.temps
          && forall t :: t in s.temps ==> s.minTemp.value <= t <= s.maxTemp.value)
  }

  /** What holds of every room at all times. */
  predicate Inv(s: Stats) {
    && ExtremaInv(s)
    && s.heaterOnCount <= |s.temps|
    && s.lowTicks <= s.heaterOnCount
    && s.highTicks <= s.heaterOnCount
    && s.totalLowKWh == s.lastLowKWh
    && s.totalHighKWh == s.lastHighKWh
  }

  lemma FreshStatsInv()
    ensures Inv(FreshStats())
  {
  }

  /** A sample keeps the room invariant; in particular min <= max once a
      sample exists. */
  lemma WithSampleKeepsInv(s: Stats, x: Sample)
    requires Inv(s)
    ensures Inv(WithSample(s, x))
    ensures WithSample(s, x).minTemp.value <= WithSample(s, x).maxTemp.value
  {
    var s' := WithSample(s, x);
    assert s'.temps == s.temps + [x.temp];
    assert x.temp in s'.temps;
    assert forall t :: t in s'.temps ==> t in s.temps || t == x.temp;
    if |s.temps| > 0 {
      assert s.minTemp.value in s'.temps && s.maxTemp.value in s'.temps;
    }
  }

  /** What one sample changes and what it leaves alone. */
  lemma WithSampleEffect(s: Stats, x: Sample)
    ensures var s' := WithSample(s, x);
      && s'.temps == s.temps + [x.temp]
      && (s'.heaterOnCount == s.heaterOnCount + 1 <==> x.heaterOn)
      && (!x.heaterOn ==> s'.heaterOnCount == s.heaterOnCount)
      // ticks come only from heater-on samples, at most one per tier
      && (s'.lowTicks == s.lowTicks + 1 <==> x.heaterOn && x.lowKWh.Some? && x.lowKWh.value > s.lastLowKWh)
      && (s'.lowTicks != s.lowTicks + 1 ==> s'.lowTicks == s.lowTicks)
      && (s'.highTicks == s.highTicks + 1 <==> x.heaterOn && x.highKWh.Some? && x.highKWh.value > s.lastHighKWh)
      && (s'.highTicks != s.highTicks + 1 ==> s'.highTicks == s.highTicks)
      // absent counters carry the previous reading forward
      && (x.lowKWh.None? ==> s'.lastLowKWh == s.lastLowKWh)
      && (x.highKWh.None? ==> s'.lastHighKWh == s.lastHighKWh)
      && (x.energyWh.None? ==> s'.lastEnergyWh == s.lastEnergyWh)
      && (x.lowKWh.Some? ==> s'.lastLowKWh == x.lowKWh.value)
      && (x.highKWh.Some? ==> s'.lastHighKWh == x.highKWh.value)
      && (x.energyWh.Some? ==> s'.lastEnergyWh == x.energyWh.value)
      // the totals are always the latest reading
      && s'.totalLowKWh == s'.lastLowKWh && s'.totalHighKWh == s'.lastHighKWh
      // configuration and interaction data are untouched
      && s'.expectedTemp == s.expectedTemp && s'.energyKWh == s.energyKWh
      && s'.userInteractions == s.userInteractions
  {
  }

  /** A counter that goes down, or repeats, never ticks. */
  lemma NoTickWithoutIncrease(s: Stats, x: Sample)
    requires x.lowKWh.Some? && x.lowKWh.value <= s.lastLowKWh
    requires x.highKWh.Some? && x.highKWh.value <= s.lastHighKWh
    ensures WithSample(s, x).lowTicks == s.lowTicks
    ensures WithSample(s, x).highTicks == s.highTicks
  {
  }

  /** Both tiers can tick on the same heater-on sample, so the sum of the
      two tick counts is NOT bounded by the heater-on count. */
  lemma BothTiersTickTogether()
    ensures var s := WithSample(FreshStats(), Sample(21.0, true, None, Some(1.0), Some(1.0)));
      s.lowTicks + s.highTicks == 2 && s.heaterOnCount == 1
  {
  }

  /** The report's half-width of the comfort band around the expected
      temperature, in degrees Celsius. */
  const Range: real := 0.5

  function Abs(x: real): real {
    if x < 0.0 then -x else x
  }

  predicate Within(t: real, expected: real) {
    Abs(t - expected) <= Range
  }

  /** The number of samples satisfying `p`. */
  function CountWhere(temps: seq<real>, p: real -> bool): (n: nat)
    ensures n <= |temps|
  {
    if |temps| == 0 then 0
    else CountWhere(temps[..|temps| - 1], p) + (if p(temps[|temps| - 1]) then 1 else 0)
  }

  /** How many samples lie within, below and above the band. */
  datatype Bands = Bands(within: nat, below: nat, above: nat)

  function BandCounts(temps: seq<real>, expected: real): Bands {
    Bands(
      CountWhere(temps, t => Within(t, expected)),
      CountWhere(temps, t => t < expected - Range),
      CountWhere(temps, t => t > expected + Range))
  }

  /** Every sample falls in exactly one band, so the three percentages of
      the report add up to 100. */
  lemma {:induction false} BandsPartitionSamples(temps: seq<real>, expected: real)
    ensures var b := BandCounts(temps, expected); b.within + b.below + b.above == |temps|
  {
    if |temps| > 0 {
      BandsPartitionSamples(temps[..|temps| - 1], expected);
    }
  }

  /** 21.8, 22.9 and 23.6 around 22: one within, none below, two above. */
  lemma BandExample()
    ensures BandCounts([21.8, 22.9, 23.6], 22.0) == Bands(1, 0, 2)
  {
    var temps := [21.8, 22.9, 23.6];
    assert temps[..2] == [21.8, 22.9] && temps[..2][..1] == [21.8] && temps[..2][..1][..0] == [];
    assert Within(21.8, 22.0) && !Within(22.9, 22.0) && !Within(23.6, 22.0);
    assert CountWhere(temps, t => Within(t, 22.0)) == 1;
    assert CountWhere(temps, t => t < 22.0 - Range) == 0;
    assert CountWhere(temps, t => t > 22.0 + Range) == 2;
  }
}
