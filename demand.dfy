/** Sums over finite sets of room ids, and the peak simultaneous demand they
    define over the time buckets. */
module DemandModel {
  import opened RoomModel
  import opened Records
  import opened Sets

  /** The sum of `w` over `ks`, in no particular order. */
  ghost function Total(ks: set<int>, w: int -> real): real
    decreases ks
  {
    if ks == {} then 0.0
    else
      var k := Pick(ks);
      w(k) + Total(ks - {k}, w)
  }

  /** Any element can be taken out first: the sum does not depend on the
      order the set is walked in (Java's HashSet order is arbitrary). */
  lemma {:induction false} TotalRemove(ks: set<int>, w: int -> real, k: int)
    requires k in ks
    ensures Total(ks, w) == w(k) + Total(ks - {k}, w)
    decreases ks
  {
    var j := Pick(ks);
    if j != k {
      TotalRemove(ks - {j}, w, k);
      TotalRemove(ks - {k}, w, j);
      assert ks - {j} - {k} == ks - {k} - {j};
    }
  }

  /** Adding one new element adds its weight. */
  lemma TotalAdd(ks: set<int>, w: int -> real, k: int)
    requires k !in ks
    ensures Total(ks + {k}, w) == Total(ks, w) + w(k)
  {
    TotalRemove(ks + {k}, w, k);
    assert ks + {k} - {k} == ks;
  }

  /** Weights that agree on the set give the same sum. */
  lemma {:induction false} TotalAgree(ks: set<int>, w1: int -> real, w2: int -> real)
    requires forall k :: k in ks ==> w1(k) == w2(k)
    ensures Total(ks, w1) == Total(ks, w2)
    decreases ks
  {
    if ks != {} {
      var k := Pick(ks);
      TotalRemove(ks, w1, k);
      TotalRemove(ks, w2, k);
      TotalAgree(ks - {k}, w1, w2);
    }
  }

  /** Changing the weight of one member changes the sum by the difference. */
  lemma TotalChangeOne(ks: set<int>, w1: int -> real, w2: int -> real, k: int)
    requires k in ks
    requires forall j :: j in ks && j != k ==> w1(j) == w2(j)
    ensures Total(ks, w2) == Total(ks, w1) - w1(k) + w2(k)
  {
    TotalRemove(ks, w1, k);
    TotalRemove(ks, w2, k);
    TotalAgree(ks - {k}, w1, w2);
  }

  /** Members of weight zero contribute nothing. */
  lemma {:induction false} TotalDropZeros(ks: set<int>, keep: set<int>, w: int -> real)
    requires forall k :: k in ks && k !in keep ==> w(k) == 0.0
    ensures Total(ks, w) == Total(ks * keep, w)
    decreases ks
  {
    if ks != {} {
      var k := Pick(ks);
      TotalRemove(ks, w, k);
      TotalDropZeros(ks - {k}, keep, w);
      assert (ks - {k}) * keep == ks * keep - {k};
      if k in keep {
        TotalRemove(ks * keep, w, k);
      } else {
        assert ks * keep - {k} == ks * keep;
      }
    }
  }

  /** The rated capacity of every room in the map. */
  function Capacities(rooms: map<int, Stats>): map<int, real> {
    map id | id in rooms :: rooms[id].energyKWh
  }

  /** A room's capacity, 0 for a room the map does not hold. */
  function CapacityOf(caps: map<int, real>): int -> real {
    id => if id in caps then caps[id] else 0.0
  }

  /** The simultaneous demand of one bucket: the capacities of its rooms. */
  ghost function Demand(bucket: set<int>, caps: map<int, real>): real {
    Total(bucket, CapacityOf(caps))
  }

  /** A room that starts heating at an instant adds its rated capacity to
      that instant's demand, and an unconfigured room adds nothing. */
  lemma HeatingRoomAddsCapacity(bucket: set<int>, rooms: map<int, Stats>, id: int)
    requires id !in bucket
    ensures Demand(bucket + {id}, Capacities(rooms))
         == Demand(bucket, Capacities(rooms)) + (if id in rooms then rooms[id].energyKWh else 0.0)
  {
    TotalAdd(bucket, CapacityOf(Capacities(rooms)), id);
  }

  /** Rooms missing from the map add nothing to a bucket's demand. */
  lemma AbsentRoomsAddNothing(bucket: set<int>, caps: map<int, real>)
    ensures Demand(bucket, caps) == Demand(bucket * caps.Keys, caps)
  {
    TotalDropZeros(bucket, caps.Keys, CapacityOf(caps));
  }

  /** `peak` is what the peak loop computes: at least 0 and at least every
      bucket's demand, and either 0 or the demand of some bucket. */
  ghost predicate IsPeak(peak: real, buckets: map<Int64, set<int>>, caps: map<int, real>) {
    && peak >= 0.0
    && (forall t :: t in buckets ==> Demand(buckets[t], caps) <= peak)
    && (peak == 0.0 || exists t :: t in buckets && peak == Demand(buckets[t], caps))
  }

  /** The characterisation pins the peak down. */
  lemma PeakIsUnique(p1: real, p2: real, buckets: map<Int64, set<int>>, caps: map<int, real>)
    requires IsPeak(p1, buckets, caps) && IsPeak(p2, buckets, caps)
    ensures p1 == p2
  {
    if p1 != 0.0 {
      var t1 :| t1 in buckets && p1 == Demand(buckets[t1], caps);
    }
    if p2 != 0.0 {
      var t2 :| t2 in buckets && p2 == Demand(buckets[t2], caps);
    }
  }

  /** With no bucket at all the peak is 0. */
  lemma NoBucketsNoPeak(peak: real, caps: map<int, real>)
    requires IsPeak(peak, map[], caps)
    ensures peak == 0.0
  {
  }

  /** Two rooms rated 2 and 3 kWh heating at the same instant give a peak of
      5 kWh when no other instant draws more. */
  lemma TwoRoomsAtOnce(peak: real, t: Int64)
    requires IsPeak(peak, map[t := {1, 2}], map[1 := 2.0, 2 := 3.0])
    ensures peak == 5.0
  {
    var caps := map[1 := 2.0, 2 := 3.0];
    var w := CapacityOf(caps);
    TotalAdd({1}, w, 2);
    TotalAdd({}, w, 1);
    assert {1} + {2} == {1, 2} && {} + {1} == {1};
    assert Demand({1, 2}, caps) == 5.0;
    var buckets := map[t := {1, 2}];
    assert t in buckets && buckets[t] == {1, 2};
    assert forall u :: u in buckets ==> u == t;
    assert IsPeak(5.0, buckets, caps);
    PeakIsUnique(peak, 5.0, map[t := {1, 2}], caps);
  }
}
