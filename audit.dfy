/** The HTTP audit pass: switch requests, deduplicated on path and timestamp,
    each credited once to the room their path names. */
module AuditModel {
  import opened Wrappers
  import opened JavaText
  import opened Records
  import opened RoomModel
  import opened DemandModel
  import opened TelemetryModel

  /** The rooms and the set of keys seen so far in this pass. */
  datatype Audit = Audit(rooms: map<int, Stats>, seen: set<string>)

  /** One more interaction for a room, created with Java's defaults if new. */
  function Interact(rooms: map<int, Stats>, id: int): map<int, Stats> {
    var st := if id in rooms then rooms[id] else FreshStats();
    rooms[id := st.(userInteractions := st.userInteractions + 1)]
  }

  /** `Interact` as `computeIfAbsent` followed by an increment on the room
      the map then holds. */
  lemma InteractInTwoSteps(rooms: map<int, Stats>, seated: map<int, Stats>, id: int)
    requires seated == rooms[id := RoomOrFresh(rooms, id)]
    ensures seated[id := seated[id].(userInteractions := seated[id].userInteractions + 1)] == Interact(rooms, id)
  {
  }

  /** The decoded record of a line that passes the substring filters and
      names a switch path with a timestamp. */
  predicate Candidate(line: string, decode: string -> Option<AuditRecord>) {
    && PassesAuditFilters(line)
    && decode(line).Some?
    && StartsWith(decode(line).value.path, SwitchPrefix)
    && decode(line).value.timestamp != ""
  }

  function KeyOf(line: string, decode: string -> Option<AuditRecord>): string
    requires Candidate(line, decode)
  {
    DedupKey(decode(line).value.path, decode(line).value.timestamp)
  }

  /** One line of the audit log. The key is recorded BEFORE the room id is
      parsed, so a key whose room segment is not a number is still used up. */
  function AuditStep(a: Audit, line: string, decode: string -> Option<AuditRecord>): Audit {
    if !Candidate(line, decode) then a
    else
      var key := KeyOf(line, decode);
      if key in a.seen then a
      else
        match SwitchRoom(decode(line).value.path)
        case None => a.(seen := a.seen + {key})
        case Some(id) => Audit(Interact(a.rooms, id), a.seen + {key})
  }

  /** The pass over a whole log, in file order. */
  function AuditPass(a: Audit, lines: seq<string>, decode: string -> Option<AuditRecord>): Audit
    decreases |lines|
  {
    if |lines| == 0 then a
    else AuditStep(AuditPass(a, lines[..|lines| - 1], decode), lines[|lines| - 1], decode)
  }

  /** Lines failing any filter contribute nothing: one of the three
      substrings missing, an undecodable line, a path not under `/switch/`,
      or an empty timestamp. */
  lemma FilteredLinesIgnored(a: Audit, line: string, decode: string -> Option<AuditRecord>)
    requires !Contains(line, "\"method\":\"POST\"") || !Contains(line, "\"path\":\"/switch/")
          || !Contains(line, "\"status\":200") || decode(line).None?
          || !StartsWith(decode(line).value.path, SwitchPrefix) || decode(line).value.timestamp == ""
    ensures AuditStep(a, line, decode) == a
  {
  }

  /** A fresh key whose room segment does not parse is consumed anyway. */
  lemma BadRoomConsumesKey(a: Audit, line: string, decode: string -> Option<AuditRecord>)
    requires Candidate(line, decode) && KeyOf(line, decode) !in a.seen
    requires SwitchRoom(decode(line).value.path).None?
    ensures AuditStep(a, line, decode) == Audit(a.rooms, a.seen + {KeyOf(line, decode)})
    ensures AuditStep(AuditStep(a, line, decode), line, decode) == AuditStep(a, line, decode)
  {
  }

  /** Feeding a line a second time changes nothing. */
  lemma AuditStepIdempotent(a: Audit, line: string, decode: string -> Option<AuditRecord>)
    ensures AuditStep(AuditStep(a, line, decode), line, decode) == AuditStep(a, line, decode)
  {
  }

  function Repeat(line: string, n: nat): (r: seq<string>)
    ensures |r| == n && forall i :: 0 <= i < n ==> r[i] == line
  {
    if n == 0 then [] else Repeat(line, n - 1) + [line]
  }

  /** Feeding the same line N times has the effect of feeding it once. */
  lemma {:induction false} RepeatedLineCountsOnce(a: Audit, line: string, n: nat, decode: string -> Option<AuditRecord>)
    requires n >= 1
    ensures AuditPass(a, Repeat(line, n), decode) == AuditStep(a, line, decode)
  {
    var lines := Repeat(line, n);
    assert lines[..n - 1] == Repeat(line, n - 1);
    if n == 1 {
      assert AuditPass(a, lines[..0], decode) == a;
    } else {
      RepeatedLineCountsOnce(a, line, n - 1, decode);
      AuditStepIdempotent(a, line, decode);
    }
  }

  /** Total interactions over all rooms. */
  function InteractionsOf(rooms: map<int, Stats>): int -> real {
    id => if id in rooms then rooms[id].userInteractions as real else 0.0
  }

  ghost function TotalInteractions(rooms: map<int, Stats>): real {
    Total(rooms.Keys, InteractionsOf(rooms))
  }

  /** One interaction raises the total by exactly one. */
  lemma InteractAddsOne(rooms: map<int, Stats>, id: int)
    ensures TotalInteractions(Interact(rooms, id)) == TotalInteractions(rooms) + 1.0
  {
    var after := Interact(rooms, id);
    var w1, w2 := InteractionsOf(rooms), InteractionsOf(after);
    if id in rooms {
      assert after.Keys == rooms.Keys;
      TotalChangeOne(rooms.Keys, w1, w2, id);
    } else {
      assert after.Keys == rooms.Keys + {id};
      TotalAdd(rooms.Keys, w2, id);
      TotalAgree(rooms.Keys, w1, w2);
    }
  }

  /** One line either changes nothing, or uses up one new key and credits at
      most one interaction; it never touches telemetry data. */
  lemma AuditStepEffect(a: Audit, line: string, decode: string -> Option<AuditRecord>)
    ensures var a' := AuditStep(a, line, decode);
      && a.seen <= a'.seen
      && |a'.seen| <= |a.seen| + 1
      && (|a'.seen| == |a.seen| ==> a' == a)
      && TotalInteractions(a.rooms) <= TotalInteractions(a'.rooms) <= TotalInteractions(a.rooms) + (|a'.seen| - |a.seen|) as real
      && a.rooms.Keys <= a'.rooms.Keys
      && (forall id :: id in a.rooms ==> a'.rooms[id] == a.rooms[id].(userInteractions := a'.rooms[id].userInteractions))
      && (forall id :: id in a'.rooms && id !in a.rooms ==> a'.rooms[id] == FreshStats().(userInteractions := 1))
  {
    var a' := AuditStep(a, line, decode);
    if Candidate(line, decode) && KeyOf(line, decode) !in a.seen {
      assert |a'.seen| == |a.seen| + 1;
      var room := SwitchRoom(decode(line).value.path);
      if room.Some? {
        InteractAddsOne(a.rooms, room.value);
      }
    }
  }

  /** Over a whole pass the total of interactions credited is at most the
      number of distinct keys the pass saw for the first time: every key
      counts at most once, however often it repeats. */
  lemma {:induction false} InteractionsBoundedByKeys(a: Audit, lines: seq<string>, decode: string -> Option<AuditRecord>)
    ensures var a' := AuditPass(a, lines, decode);
      && a.seen <= a'.seen
      && TotalInteractions(a.rooms) <= TotalInteractions(a'.rooms)
      && TotalInteractions(a'.rooms) - TotalInteractions(a.rooms) <= (|a'.seen| - |a.seen|) as real
    decreases |lines|
  {
    if |lines| > 0 {
      InteractionsBoundedByKeys(a, lines[..|lines| - 1], decode);
      AuditStepEffect(AuditPass(a, lines[..|lines| - 1], decode), lines[|lines| - 1], decode);
    }
  }

  /** The pass keeps every room invariant: it only ever changes
      `userInteractions`, and a room it creates is fresh. */
  lemma {:induction false} AuditPassKeepsInv(a: Audit, lines: seq<string>, decode: string -> Option<AuditRecord>)
    requires forall id :: id in a.rooms ==> Inv(a.rooms[id])
    ensures var a' := AuditPass(a, lines, decode);
      && a.rooms.Keys <= a'.rooms.Keys
      && forall id :: id in a'.rooms ==> Inv(a'.rooms[id])
    decreases |lines|
  {
    if |lines| > 0 {
      AuditPassKeepsInv(a, lines[..|lines| - 1], decode);
      AuditStepEffect(AuditPass(a, lines[..|lines| - 1], decode), lines[|lines| - 1], decode);
      FreshStatsInv();
    }
  }

  /** An audit line keeps the telemetry invariant of the whole site: it only
      changes interaction counts and adds fresh rooms, so every bucket's
      rooms are still known. */
  lemma AuditStepKeepsSiteInv(s: Site, seen: set<string>, line: string, decode: string -> Option<AuditRecord>)
    requires SiteInv(s)
    ensures SiteInv(s.(rooms := AuditStep(Audit(s.rooms, seen), line, decode).rooms))
  {
    AuditStepEffect(Audit(s.rooms, seen), line, decode);
    FreshStatsInv();
  }
}
