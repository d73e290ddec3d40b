# Analizador: a Dafny model of the heating-simulation log analyser

`Analizador` is a one-class Java program that reads three inputs of a
heating simulator: the site configuration, the simulator's telemetry log and,
optionally, its HTTP access log. It aggregates per-room statistics and prints
a report. Around its file and JSON plumbing, `main` holds a single-pass
aggregation engine. This project models that engine and proves what it
computes:

- **configuration seeding**: one `RoomStats` for every configured unit, put
  under the unit's id, and the site's energy budget;
- **the telemetry pass**: a line filter, then the per-record update of the
  room's samples, extrema, heater count, carried-forward energy and tariff
  counters and tariff ticks, the simulated-time range and the per-instant
  buckets of heating rooms;
- **the HTTP audit pass**: substring filters, then a `path|timestamp` dedup
  set, and one user interaction credited to the room the switch path names;
- **the peak demand**: the largest summed rated capacity of the rooms heating
  at one instant;
- **the report's band counts**: samples within, below or above the expected
  temperature ±0.5;
- **the two text-to-number helpers** `parseDouble` and `parseEnergy`, with the
  parts of `String.trim`, `toLowerCase`, `replace`, `Double.parseDouble` and
  `Integer.parseInt` they rely on.

The project has two layers:

- **The model modules** state each pass as functions on values. A pass is a
  left-to-right fold of a one-line step over a sequence of lines.
  - `RoomModel`: one room, its invariant and the band counts.
  - `TelemetryModel`: the telemetry pass.
  - `AuditModel`: the audit pass.
  - `ConfigModel`: seeding.
  - `DemandModel`: sums over room sets and the peak characterisation.
  - `RunModel`: the whole run.
  - `Energy`, `Records`, `JavaText` and `JavaNumbers`: the string and number
    logic.
- **`Engine`** is the program's own imperative form.
  - `RoomStats` is a class with the fourteen Java fields.
  - `Analyzer` holds `statsByRoom` as a map of `RoomStats` objects, together
    with `roomsOnAtTime`, the counters and `uniqueRequests`. Its methods loop
    over the lines and update all of these in place.
  - Every method is proved to leave exactly the state that the matching model
    function computes, for example
    `ensures SiteView() == TelemetryPass(old(SiteView()), lines, decode)`.
  - The properties are proved as lemmas about those functions.

JSON decoding is not modelled: each pass takes it as a function parameter,
`string -> Option<TelemetryRecord>` or `string -> Option<AuditRecord>`. `None`
is a line that Jackson's `readTree` rejects, which the program silently skips.
A decoded record has one `Option` per JSON field.

Points where the code, which the model follows, differs from what a reader of
its design might expect:

- **A bad energy text stops the program; its unit is not skipped.** An
  unparsable `energy` or `maxEnergy` text makes `parseEnergy` throw
  `NumberFormatException`. The configuration block catches only
  `IOException` (line 83), so the exception ends `main`. `ConfigModel.Seed`,
  `ConfigModel.Budget` and `RunModel.Run` return `None` there, and
  `Engine.Analyze` returns `None`.
- **The two tariff-tick counts are not bounded together.** `lowTicks + highTicks`
  can exceed `heaterOnCount`, because both tiers tick on the same heater-on
  sample (`RoomModel.BothTiersTickTogether`). Each tier on its own is bounded
  by `heaterOnCount`.
- **A unit without an id is room 0.** It is stored like any other unit, and a
  later unit with the same id replaces an earlier one.
- **Lazily created rooms start from Java's field defaults.** A room first met
  in the telemetry or audit log gets expected temperature 0 and capacity 0, not
  the configuration defaults `"22"` and `"2 kWh"`.
- **The key is recorded before the room is parsed.** An audit line whose
  switch path has no numeric room segment still uses up its `path|timestamp`
  key.
- **The `st != null` test of the peak loop (line 202) never fails.** Every room in
  a bucket has stats, because `TelemetryModel.BucketRoomsKnown` is part of the
  invariant. The model keeps the test, as
  `Engine.Analyzer.BucketDemand` and `DemandModel.CapacityOf` show.

All source paths below are relative to the repository root.

## Model

| member | source | states |
|---|---|---|
| JavaText.LastIndexOf | analizador_json/src/main/java/analizador/Analizador.java:102-103 | `lastIndexOf('{')` is -1 exactly when the character is absent; otherwise the character is at that index and nowhere after it |
| JavaText.ContainsAt | analizador_json/src/main/java/analizador/Analizador.java:100 | `contains(sub)` holds exactly when `sub` occurs at some offset of the line |
| JavaNumbers.ParseJavaInt | analizador_json/src/main/java/analizador/Analizador.java:180 | `Integer.parseInt` succeeds only on a non-empty text and only with a value inside the 32-bit `int` range |
| JavaNumbers.NatTextParsesAsInt | analizador_json/src/main/java/analizador/Analizador.java:180 | `Integer.parseInt` reads back the decimal numeral of every natural number up to 2^31-1 and refuses every larger one |
| JavaNumbers.IntTextParsesAsInt | analizador_json/src/main/java/analizador/Analizador.java:180 | `Integer.parseInt` reads back the decimal numeral, with its minus sign, of every integer from -2^31 to 2^31-1 and refuses every numeral outside that range |
| JavaNumbers.NatTextParsesAsDouble | analizador_json/src/main/java/analizador/Analizador.java:279 | `Double.parseDouble` reads back the decimal numeral of every natural number exactly |
| JavaNumbers.ParseJavaDoubleNeedsDigit | analizador_json/src/main/java/analizador/Analizador.java:286-288 | the modelled `Double.parseDouble` throws on every text without a decimal digit |
| JavaNumbers.FractionValue | analizador_json/src/main/java/analizador/Analizador.java:279 | the digits after a decimal point always denote a value in [0, 1) |
| Energy.ParseDoubleDefaultsToZero | analizador_json/src/main/java/analizador/Analizador.java:278-281 | `parseDouble` never fails: a text without digits, where the modelled `Double.parseDouble` throws, yields 0.0 |
| Energy.ParseEnergyRejectsNoDigits | analizador_json/src/main/java/analizador/Analizador.java:283-289 | `parseEnergy` has no fallback: a non-null text without digits throws, whichever branch of the unit dispatch it takes |
| Energy.Defaults | analizador_json/src/main/java/analizador/Analizador.java:283-289 | `parseEnergy` reads null as 0, and the configuration's default texts `"2 kWh"` and `"0"` as 2 and 0 |
| Energy.KilowattHours | analizador_json/src/main/java/analizador/Analizador.java:285-286 | a natural number followed by blanks and `kWh` in any letter case is that many kWh |
| Energy.KelvinSignKilowattHours | analizador_json/src/main/java/analizador/Analizador.java:285-286 | `"5\u212AWh"`, spelt with the Kelvin sign that `toLowerCase` turns into `k`, is 5 kWh |
| Energy.WattHours | analizador_json/src/main/java/analizador/Analizador.java:285-287 | a natural number followed by blanks and `Wh` in any letter case is divided by 1000; the earlier `kwh` test does not catch it |
| Energy.BareNumber | analizador_json/src/main/java/analizador/Analizador.java:288 | a number without a unit is read as kWh |
| Energy.HalfKilowattHour | analizador_json/src/main/java/analizador/Analizador.java:287 | `"500 Wh"` is 0.5 kWh |
| Energy.DecimalCommaKilowattHours | analizador_json/src/main/java/analizador/Analizador.java:285-286 | `"w,f kWh"` is read with a decimal point: the value of `w.f` |
| Energy.CleanQuantity | analizador_json/src/main/java/analizador/Analizador.java:285 | cleaning a quantity keeps the numeral and blanks and lower-cases the unit |
| Energy.StripUnit | analizador_json/src/main/java/analizador/Analizador.java:286-287 | `replace(unit, "")` on numeral, blanks and unit leaves the numeral and the blanks |
| Records.ExtractRecordText | analizador_json/src/main/java/analizador/Analizador.java:100-106 | a line yields nothing exactly when it holds the STDOUT marker or no `{`; otherwise it yields a suffix of the line that starts at a `{` and holds no later `{` |
| Records.SwitchSegment | analizador_json/src/main/java/analizador/Analizador.java:179-180 | the room segment follows `/switch/`, contains no `/`, and runs to the end of the path or to the next `/` |
| Records.SwitchRoomOfNumeral | analizador_json/src/main/java/analizador/Analizador.java:176-180 | `/switch/<n>` and `/switch/<n>/...` name room n for every n in the 32-bit `int` range, negative ids written with a minus sign included |
| RoomModel.FreshStatsInv | analizador_json/src/main/java/analizador/Analizador.java:21-36 | a new `RoomStats` satisfies the room invariant |
| RoomModel.WithSampleKeepsInv | analizador_json/src/main/java/analizador/Analizador.java:113-131 | after a sample, every sample lies between a minimum and a maximum that are themselves samples, so `minTemp <= maxTemp`; `heaterOnCount` is at most the sample count; each tier's ticks are at most `heaterOnCount`; the totals equal the last readings |
| RoomModel.WithSampleEffect | analizador_json/src/main/java/analizador/Analizador.java:113-137 | one sample appends exactly its temperature. `heaterOnCount` rises by one exactly when `heaterOn` is true. A tier ticks, by one, exactly when heating and its reading is present and strictly higher. Absent readings carry forward. The totals equal the readings. Configuration and interactions are untouched |
| RoomModel.NoTickWithoutIncrease | analizador_json/src/main/java/analizador/Analizador.java:125-131 | a reading that falls or repeats gives no tick |
| RoomModel.BothTiersTickTogether | analizador_json/src/main/java/analizador/Analizador.java:128-131 | one heater-on sample can tick both tiers, so `lowTicks + highTicks` can exceed `heaterOnCount` |
| RoomModel.BandsPartitionSamples | analizador_json/src/main/java/analizador/Analizador.java:236-238 | every sample is in exactly one of the within, below and above bands |
| RoomModel.BandExample | analizador_json/src/main/java/analizador/Analizador.java:236-238 | 21.8, 22.9 and 23.6 around 22 give one within, none below, two above |
| RoomModel.CountWhere | analizador_json/src/main/java/analizador/Analizador.java:236-238 | a stream filter count never exceeds the number of samples |
| ConfigModel.SeedStep | analizador_json/src/main/java/analizador/Analizador.java:63-70 | one more unit puts its configured room over the rooms seeded so far |
| ConfigModel.SeedFailsAt | analizador_json/src/main/java/analizador/Analizador.java:69 | one unit whose energy throws makes the whole seeding fail |
| ConfigModel.SeedSucceeds | analizador_json/src/main/java/analizador/Analizador.java:63-71 | seeding succeeds when every unit's energy parses |
| ConfigModel.SeedFailsOnBadEnergy | analizador_json/src/main/java/analizador/Analizador.java:63-71 | seeding fails exactly when some unit's energy text throws |
| ConfigModel.SeedLastWins | analizador_json/src/main/java/analizador/Analizador.java:65-70 | a room holds the stats of the last unit with its id; rooms no unit names are unchanged; none is removed |
| ConfigModel.SeedGivesFreshRooms | analizador_json/src/main/java/analizador/Analizador.java:67-70 | every seeded room is a fresh room with only expected temperature and capacity set, and satisfies the room invariant |
| ConfigModel.EmptyUnitIsRoomZero | analizador_json/src/main/java/analizador/Analizador.java:64-69 | a unit with no field at all is stored as room 0 with 22 °C and 2 kWh, not skipped |
| ConfigModel.LastUnitWith | analizador_json/src/main/java/analizador/Analizador.java:70 | the result is the index of the last unit with the id, or -1 if there is none |
| TelemetryModel.StartSiteInv | analizador_json/src/main/java/analizador/Analizador.java:91-94 | the telemetry state before the first line (sentinel time range, no bucket, no line) satisfies the site invariant |
| TelemetryModel.PutRoomKeepsInv | analizador_json/src/main/java/analizador/Analizador.java:70 | storing a room that satisfies the room invariant keeps the site invariant |
| TelemetryModel.ObserveTime | analizador_json/src/main/java/analizador/Analizador.java:140-147 | once a time is seen, `minSimTime <= maxSimTime`, both are observed times and they bound every bucket; before that both stay at `Long.MAX_VALUE` / `Long.MIN_VALUE` |
| TelemetryModel.ObserveKeepsInv | analizador_json/src/main/java/analizador/Analizador.java:109-149 | a qualifying record keeps every room invariant, the time range and "every bucketed room has stats" |
| TelemetryModel.TelemetryStepKeepsInv | analizador_json/src/main/java/analizador/Analizador.java:99-149 | one line keeps the site invariant, including `validJson <= totalLines` |
| TelemetryModel.TelemetryPassKeepsInv | analizador_json/src/main/java/analizador/Analizador.java:96-152 | the whole telemetry pass keeps the site invariant |
| TelemetryModel.IgnoredLines | analizador_json/src/main/java/analizador/Analizador.java:99-111 | STDOUT lines, lines without `{`, undecodable records and records without `T_C` or `roomId` change nothing but `totalLines`; every line adds one to `totalLines`; `validJson` grows exactly on accepted lines |
| TelemetryModel.ObserveRooms | analizador_json/src/main/java/analizador/Analizador.java:109-137 | afterwards the record's room exists and has taken the sample; a room new here starts at expected temperature 0 and capacity 0; no other room changes |
| TelemetryModel.ObserveBuckets | analizador_json/src/main/java/analizador/Analizador.java:140-147 | every observed time gets a bucket even with the heater off; the room joins it exactly when heating; no other bucket changes; without a time nothing about time changes |
| TelemetryModel.TelemetryPassGrows | analizador_json/src/main/java/analizador/Analizador.java:96-152 | over a pass buckets only grow, rooms are never removed, interaction counts are untouched (0 for new rooms), and `totalLines` grows by the number of lines |
| DemandModel.TotalRemove | analizador_json/src/main/java/analizador/Analizador.java:200-203 | a bucket's sum does not depend on the order its `HashSet` is walked in |
| DemandModel.TotalAdd | analizador_json/src/main/java/analizador/Analizador.java:202 | adding one new room adds its weight |
| DemandModel.TotalAgree | analizador_json/src/main/java/analizador/Analizador.java:200-203 | weights that agree on a set give the same sum |
| DemandModel.TotalChangeOne | analizador_json/src/main/java/analizador/Analizador.java:182 | changing one member's weight changes the sum by the difference |
| DemandModel.TotalDropZeros | analizador_json/src/main/java/analizador/Analizador.java:201-202 | members of weight zero contribute nothing |
| DemandModel.HeatingRoomAddsCapacity | analizador_json/src/main/java/analizador/Analizador.java:200-202 | one more room in a bucket adds its `energyKWh` to the bucket's demand, or nothing when the room has no stats |
| DemandModel.AbsentRoomsAddNothing | analizador_json/src/main/java/analizador/Analizador.java:201-202 | rooms without stats add 0 to a bucket's demand |
| DemandModel.PeakIsUnique | analizador_json/src/main/java/analizador/Analizador.java:197-205 | "at least 0, at least every bucket's demand, and 0 or some bucket's demand" determines the peak uniquely |
| DemandModel.NoBucketsNoPeak | analizador_json/src/main/java/analizador/Analizador.java:197-198 | with no bucket the peak is 0 |
| DemandModel.TwoRoomsAtOnce | analizador_json/src/main/java/analizador/Analizador.java:197-205 | rooms of 2 and 3 kWh heating at the same instant give a 5 kWh peak |
| AuditModel.FilteredLinesIgnored | analizador_json/src/main/java/analizador/Analizador.java:168-176 | a line that fails any of the three substring filters, or is undecodable, or has a path not under `/switch/`, or has an empty timestamp, changes nothing |
| AuditModel.BadRoomConsumesKey | analizador_json/src/main/java/analizador/Analizador.java:177-180 | a new key whose room segment does not parse is still added to the seen set, so a repeat of the line is ignored |
| AuditModel.AuditStepIdempotent | analizador_json/src/main/java/analizador/Analizador.java:176-183 | feeding the same line twice has the effect of feeding it once |
| AuditModel.RepeatedLineCountsOnce | analizador_json/src/main/java/analizador/Analizador.java:176-183 | feeding the same line N >= 1 times has the effect of feeding it once |
| AuditModel.InteractAddsOne | analizador_json/src/main/java/analizador/Analizador.java:181-182 | one credited interaction raises the total over all rooms by exactly one |
| AuditModel.AuditStepEffect | analizador_json/src/main/java/analizador/Analizador.java:167-185 | a line either changes nothing or adds one new key and credits at most one interaction; only `userInteractions` changes, and a room it creates is fresh with one interaction |
| AuditModel.InteractionsBoundedByKeys | analizador_json/src/main/java/analizador/Analizador.java:164-186 | over a pass the interactions credited are at most the number of new distinct keys |
| AuditModel.AuditPassKeepsInv | analizador_json/src/main/java/analizador/Analizador.java:167-185 | the audit pass keeps every room invariant and removes no room |
| AuditModel.AuditStepKeepsSiteInv | analizador_json/src/main/java/analizador/Analizador.java:181-182 | an audit line keeps the telemetry site invariant |
| RunModel.TotalOfZeros | analizador_json/src/main/java/analizador/Analizador.java:29 | rooms with no interactions sum to 0 |
| RunModel.RunInv | analizador_json/src/main/java/analizador/Analizador.java:53-192 | after a run, every telemetry line is counted, `validJson <= totalLines`, every room satisfies the room invariant, the time range brackets every bucket, and every room in a bucket has stats |
| RunModel.NoAuditNoInteractions | analizador_json/src/main/java/analizador/Analizador.java:161-191 | without an HTTP log no room has a user interaction |
| RunModel.InteractionsAtMostKeys | analizador_json/src/main/java/analizador/Analizador.java:161-186 | the interactions of all rooms add up to at most the number of distinct path-and-timestamp keys |
| Engine.RoomStats.constructor | analizador_json/src/main/java/analizador/Analizador.java:21-36 | `new RoomStats()` has Java's defaults: 0, empty list, +Infinity / -Infinity extrema |
| Engine.RoomStats.RecordTemperature | analizador_json/src/main/java/analizador/Analizador.java:113-116 | the temperature is appended and the extrema updated in place |
| Engine.RoomStats.RecordHeater | analizador_json/src/main/java/analizador/Analizador.java:118-122 | the heater count and the energy reading, updated in place |
| Engine.RoomStats.RecordTariffs | analizador_json/src/main/java/analizador/Analizador.java:125-137 | the tariff readings carried forward, the ticks, and the totals, updated in place |
| Engine.RoomStats.AddSample | analizador_json/src/main/java/analizador/Analizador.java:113-137 | the object's new fields are `WithSample` of its old fields |
| Engine.RoomStats.AddInteraction | analizador_json/src/main/java/analizador/Analizador.java:182 | `userInteractions++` and nothing else |
| Engine.Analyzer.constructor | analizador_json/src/main/java/analizador/Analizador.java:53-54 | an empty room map, budget 0, and the telemetry start state |
| Engine.Analyzer.RoomFor | analizador_json/src/main/java/analizador/Analizador.java:111 | `computeIfAbsent`: the stored object, or a new fresh one put under the id; other entries keep their objects |
| Engine.Analyzer.RecordSample | analizador_json/src/main/java/analizador/Analizador.java:111-137 | the record's room, created if absent, takes the sample; nothing else changes |
| Engine.Analyzer.AddRoomSample | analizador_json/src/main/java/analizador/Analizador.java:113-137 | updating one room's object changes only that room's view |
| Engine.Analyzer.RecordSimTime | analizador_json/src/main/java/analizador/Analizador.java:140-147 | the time range and the time's bucket, which gains the room only when heating |
| Engine.Analyzer.ObserveRecord | analizador_json/src/main/java/analizador/Analizador.java:109-149 | the new telemetry state is `Observe` of the old one |
| Engine.Analyzer.CountLine | analizador_json/src/main/java/analizador/Analizador.java:99 | `totalLines++` keeps the invariant and leaves `validJson < totalLines` |
| Engine.Analyzer.ProcessTelemetryLine | analizador_json/src/main/java/analizador/Analizador.java:98-151 | the new state is `TelemetryStep` of the old one, and the invariant is kept |
| Engine.Analyzer.ProcessTelemetry | analizador_json/src/main/java/analizador/Analizador.java:96-152 | the new state is `TelemetryPass` of the old one over the whole log |
| Engine.Analyzer.AddRoomInteraction | analizador_json/src/main/java/analizador/Analizador.java:182 | one room's interaction count rises by one; no other room changes |
| Engine.Analyzer.CreditInteraction | analizador_json/src/main/java/analizador/Analizador.java:181-182 | the rooms become `Interact` of the old rooms; nothing else changes |
| Engine.Analyzer.ProcessAuditLine | analizador_json/src/main/java/analizador/Analizador.java:167-185 | the new audit state is `AuditStep` of the old one; telemetry fields and the invariant are kept |
| Engine.Analyzer.ProcessAudit | analizador_json/src/main/java/analizador/Analizador.java:163-186 | the rooms and key set become `AuditPass` from an empty key set |
| Engine.Analyzer.PutRoom | analizador_json/src/main/java/analizador/Analizador.java:67-70 | `put(id, st)` of a new room carrying the expected temperature and capacity |
| Engine.Analyzer.SeedUnit | analizador_json/src/main/java/analizador/Analizador.java:64-70 | one unit stored under its id, or a failure (with nothing stored) exactly when its energy throws |
| Engine.Analyzer.SeedUnits | analizador_json/src/main/java/analizador/Analizador.java:62-72 | succeeds exactly when `Seed` does, and then leaves its rooms |
| Engine.Analyzer.LoadConfig | analizador_json/src/main/java/analizador/Analizador.java:59-75 | succeeds exactly when seeding and the budget both parse, and then leaves the seeded rooms and the budget |
| Engine.Analyzer.BucketDemand | analizador_json/src/main/java/analizador/Analizador.java:199-203 | the inner loop's total is the bucket's demand, rooms without stats adding 0 |
| Engine.Analyzer.PeakDemand | analizador_json/src/main/java/analizador/Analizador.java:197-205 | the result is the peak: at least 0, at least every bucket's demand, and 0 or some bucket's demand |
| Engine.Analyzer.Passes | analizador_json/src/main/java/analizador/Analizador.java:96-205 | the telemetry pass, the audit pass when there is a log, then the peak over the resulting buckets |
| Engine.Analyze | analizador_json/src/main/java/analizador/Analizador.java:39-205 | the program fails exactly when `Run` does; otherwise its rooms, budget, line counts and time range are `Run`'s, and its peak is the peak of `Run`'s buckets |

## Left out

- File access is not modelled: the existence checks, reading through
  `BufferedReader`, the `IOException` handlers that print a stack trace, and
  the hard-coded paths (lines 14-16, 40-51, 96, 153-156, 161-163, 187-191).
  Each input is a parameter: the configuration as a decoded `Config`, each log
  as a sequence of lines. A missing HTTP log is `None`.
- Jackson's `ObjectMapper.readTree` and `JsonNode` are not modelled. Decoding
  is a function parameter returning `Option`; `None` is a parse failure,
  which the program skips. The type coercions of `asInt`, `asDouble`,
  `asLong`, `asBoolean` and `asText` are assumed done by that decoder. For a
  telemetry record this means `heaterOn` is `Some(true)` only when the field
  reads as true. An audit record's absent fields read as `""`.
- The report is not modelled: the `printf` output, percentages, kWh
  conversion and the h/m/s breakdown (lines 77-81, 210-272). The band counts
  of lines 236-238 are modelled, in `RoomModel.BandCounts`.
- IEEE floating point is not modelled. Temperatures and energies are `real`,
  comparisons are exact, and `/ 1000.0` is exact division. ±Infinity are
  modelled only as the start values of the extrema.
- JavaNumbers.ParseJavaDouble: accepts only an optionally signed decimal
  numeral (`5`, `5.`, `.5`, `2.25`) after trimming. It refuses exponents,
  `NaN`, `Infinity`, hexadecimal and `f`/`d` suffixes, which
  `Double.parseDouble` accepts.
- JavaNumbers.ParseJavaInt: accepts ASCII digits only. `Integer.parseInt`
  also accepts the other Unicode decimal digits, and `Double.parseDouble`
  does not, so only the room segment of an audit path is affected.
- JavaText.ToLowerCase: lower-cases the ASCII letters and the Kelvin sign
  U+212A, which becomes `k`. `String.toLowerCase` folds other letters as
  well, but never into an ASCII character the energy grammar uses: the
  result is not a digit, sign, point, comma or one of `k`, `w`, `h`, so a
  text holding such a letter fails to parse in Java and in the model alike.
  Locale-specific folding is not modelled.
- JavaNumbers.ParseJavaDoubleNeedsDigit: holds of the modelled parser only.
  `Double.parseDouble` also accepts `NaN` and `Infinity` with or without a sign, which
  have no digit; a `real` has no NaN or infinity, so the model refuses them.
- Energy.ParseDoubleDefaultsToZero: holds of the modelled parser only. On
  `NaN` or a signed or unsigned `Infinity` the Java `parseDouble` returns NaN or
  ±Infinity rather than 0.0. `parseEnergy` lower-cases its text first, and
  `Double.parseDouble` rejects `nan` and `infinity`, so there the model and
  Java agree.
- The Java `int` counters (`heaterOnCount`, ticks, `userInteractions`,
  `totalLines`, `validJson`) are unbounded naturals: overflow past 2^31-1 is
  not modelled. The `long` simulated times do stay in the 64-bit range.
- Java's `HashMap` / `HashSet` iteration order is not modelled. The peak
  loops pick bucket times and room ids in an arbitrary order (`Sets.Choose`),
  and `DemandModel.TotalRemove` shows that the result does not depend on it.
- The `split("/")` array is not modelled. The room segment is the text between
  `/switch/` and the next `/`. Where Java's `parts[2]` would instead be out of
  range, that text is empty and `Integer.parseInt` refuses it as well.
  Either way the line is skipped after its key was recorded.
- Printing and the early `return` of the configuration `IOException` handler
  are not modelled: an unreadable configuration is outside the model.
