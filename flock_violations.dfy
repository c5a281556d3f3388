/**
 * `check_traffic_log`: the pure computation of candidate tickets from a
 * snapshot of the registry and the sighting log. Sightings are grouped by
 * plate, each group is sorted stably by timestamp, and every consecutive pair
 * on the same road whose average speed is over the first camera's limit yields
 * a candidate.
 */
module FlockViolations {
  import opened Wrappers
  import opened Bytes
  import opened FlockWire
  import opened FlockSession
  import opened Seqs

  /** `SightingDetails`: a sighting with its camera's road, mile and limit filled in. */
  datatype Details = Details(road: u16, mile: u16, limit: u16, timestamp: u32)

  /** The details of a sighting whose client is a registered camera; None for any other client. */
  function Resolve(registry: map<ClientId, ClientInfo>, s: Sighting): Option<Details>
  {
    if s.clientId in registry && registry[s.clientId].Camera? then
      var c := registry[s.clientId];
      Some(Details(c.road, c.mile, c.limit, s.timestamp))
    else None
  }

  /**
   * The first loop of `check_traffic_log`, for one plate: the resolvable
   * sightings of `plate`, in log order.
   */
  function PlateDetails(registry: map<ClientId, ClientInfo>, log: seq<Sighting>, plate: Plate): seq<Details>
  {
    if log == [] then []
    else
      var s := log[|log| - 1];
      var front := PlateDetails(registry, log[..|log| - 1], plate);
      var d := Resolve(registry, s);
      if s.plate == plate && d.Some? then front + [d.value] else front
  }

  /** Every element of a plate's group is the resolution of a logged sighting of that plate. */
  lemma {:induction false} PlateDetailsSound(registry: map<ClientId, ClientInfo>, log: seq<Sighting>, plate: Plate, x: Details)
    requires x in PlateDetails(registry, log, plate)
    ensures exists j :: 0 <= j < |log| && log[j].plate == plate && Resolve(registry, log[j]) == Some(x)
  {
    assert log != [];
    var n := |log| - 1;
    if x in PlateDetails(registry, log[..n], plate) {
      PlateDetailsSound(registry, log[..n], plate, x);
      var j :| 0 <= j < n && log[..n][j].plate == plate && Resolve(registry, log[..n][j]) == Some(x);
      assert log[j] == log[..n][j];
    } else {
      assert log[n].plate == plate && Resolve(registry, log[n]) == Some(x);
    }
  }

  /** Every resolvable sighting of the plate is in its group: nothing is lost but unresolvable ones. */
  lemma {:induction false} PlateDetailsComplete(registry: map<ClientId, ClientInfo>, log: seq<Sighting>, plate: Plate, j: nat)
    requires j < |log| && log[j].plate == plate && Resolve(registry, log[j]).Some?
    ensures Resolve(registry, log[j]).value in PlateDetails(registry, log, plate)
  {
    if j < |log| - 1 {
      PlateDetailsComplete(registry, log[..|log| - 1], plate, j);
    }
  }

  /** The logged sightings of `plate`, in log order. */
  function PlateSightings(log: seq<Sighting>, plate: Plate): seq<Sighting>
  {
    if log == [] then []
    else
      var front := PlateSightings(log[..|log| - 1], plate);
      if log[|log| - 1].plate == plate then front + [log[|log| - 1]] else front
  }

  /**
   * On a log the service keeps (every sighting from a registered camera),
   * every sighting resolves, so a plate's group holds one entry for each of
   * its sightings and none is skipped.
   */
  lemma {:induction false} PlateDetailsKeepsAll(registry: map<ClientId, ClientInfo>, log: seq<Sighting>, plate: Plate)
    requires LogFromCameras(registry, log)
    ensures forall j :: 0 <= j < |log| ==> Resolve(registry, log[j]).Some?
    ensures |PlateDetails(registry, log, plate)| == |PlateSightings(log, plate)|
  {
    if log != [] {
      var front := log[..|log| - 1];
      assert LogFromCameras(registry, front) by {
        forall i | 0 <= i < |front| ensures front[i].clientId in registry && registry[front[i].clientId].Camera? {
          assert front[i] == log[i];
        }
      }
      PlateDetailsKeepsAll(registry, front, plate);
      assert Resolve(registry, log[|log| - 1]).Some?;
    }
  }

  /** The u16 multiply `limit * 100` does not overflow for any camera in the snapshot. */
  predicate CameraLimitsFit(registry: map<ClientId, ClientInfo>)
  {
    forall id :: id in registry && registry[id].Camera? ==> registry[id].limit <= 655
  }

  predicate LimitsFit(s: seq<Details>)
  {
    forall i :: 0 <= i < |s| ==> s[i].limit <= 655
  }

  predicate SortedByTime(s: seq<Details>)
  {
    forall i, j :: 0 <= i < j < |s| ==> s[i].timestamp <= s[j].timestamp
  }

  /** Inserts `d` after every element whose timestamp is not greater than its own. */
  function InsertByTime(sorted: seq<Details>, d: Details): (r: seq<Details>)
    ensures |r| == |sorted| + 1
  {
    if sorted == [] || sorted[|sorted| - 1].timestamp <= d.timestamp then sorted + [d]
    else InsertByTime(sorted[..|sorted| - 1], d) + [sorted[|sorted| - 1]]
  }

  lemma {:induction false} InsertByTimePermutes(sorted: seq<Details>, d: Details)
    ensures multiset(InsertByTime(sorted, d)) == multiset(sorted) + multiset{d}
  {
    if sorted != [] && sorted[|sorted| - 1].timestamp > d.timestamp {
      var front := sorted[..|sorted| - 1];
      InsertByTimePermutes(front, d);
      assert sorted == front + [sorted[|sorted| - 1]];
    }
  }

  lemma {:induction false} InsertByTimeSorted(sorted: seq<Details>, d: Details)
    requires SortedByTime(sorted)
    ensures SortedByTime(InsertByTime(sorted, d))
  {
    if sorted != [] && sorted[|sorted| - 1].timestamp > d.timestamp {
      var front := sorted[..|sorted| - 1];
      var last := sorted[|sorted| - 1];
      var r := InsertByTime(front, d);
      InsertByTimeSorted(front, d);
      InsertByTimePermutes(front, d);
      forall i | 0 <= i < |r| ensures r[i].timestamp <= last.timestamp {
        assert r[i] in multiset(front) + multiset{d};
        if r[i] != d {
          var j :| 0 <= j < |front| && front[j] == r[i];
          assert sorted[j] == r[i];
        }
      }
    }
  }

  /**
   * `sort_by_key(|s| s.timestamp)`, a stable sort, written as insertion sort:
   * the result is ordered by timestamp and holds the same sightings.
   */
  function SortByTime(s: seq<Details>): (r: seq<Details>)
    ensures SortedByTime(r)
    ensures multiset(r) == multiset(s)
  {
    if s == [] then []
    else
      var front := SortByTime(s[..|s| - 1]);
      InsertByTimeSorted(front, s[|s| - 1]);
      InsertByTimePermutes(front, s[|s| - 1]);
      assert s == s[..|s| - 1] + [s[|s| - 1]];
      InsertByTime(front, s[|s| - 1])
  }

  /** The sightings taken at time `t`, in order. */
  function AtTime(s: seq<Details>, t: int): seq<Details>
  {
    if s == [] then []
    else AtTime(s[..|s| - 1], t) + (if s[|s| - 1].timestamp == t then [s[|s| - 1]] else [])
  }

  lemma {:induction false} AtTimeAppend(a: seq<Details>, b: seq<Details>, t: int)
    ensures AtTime(a + b, t) == AtTime(a, t) + AtTime(b, t)
  {
    if b != [] {
      assert (a + b)[..|a + b| - 1] == a + b[..|b| - 1];
      assert (a + b)[|a + b| - 1] == b[|b| - 1];
      AtTimeAppend(a, b[..|b| - 1], t);
    } else {
      assert a + b == a;
    }
  }

  lemma {:induction false} InsertByTimeStable(sorted: seq<Details>, d: Details, t: int)
    ensures AtTime(InsertByTime(sorted, d), t) == AtTime(sorted, t) + AtTime([d], t)
  {
    if sorted == [] || sorted[|sorted| - 1].timestamp <= d.timestamp {
      AtTimeAppend(sorted, [d], t);
    } else {
      var front := sorted[..|sorted| - 1];
      var last := sorted[|sorted| - 1];
      var ins := InsertByTime(front, d);
      assert InsertByTime(sorted, d) == ins + [last];
      assert AtTime(ins + [last], t) == AtTime(front, t) + AtTime([d], t) + AtTime([last], t) by {
        InsertByTimeStable(front, d, t);
        AtTimeAppend(ins, [last], t);
      }
      assert AtTime(sorted, t) == AtTime(front, t) + AtTime([last], t) by {
        assert sorted == front + [last];
        AtTimeAppend(front, [last], t);
      }
      AtTimeSingle(d, t);
      AtTimeSingle(last, t);
      SwapEmpty(AtTime(front, t), AtTime([d], t), AtTime([last], t));
    }
  }

  lemma SwapEmpty<T>(f: seq<T>, a: seq<T>, b: seq<T>)
    requires a == [] || b == []
    ensures f + a + b == f + b + a
  {
    if a == [] {
      assert f + a == f;
    } else {
      assert f + b == f;
    }
  }

  lemma AtTimeSingle(x: Details, t: int)
    ensures AtTime([x], t) == if x.timestamp == t then [x] else []
  {
    assert [x][..0] == [];
  }

  /** The sort is stable: sightings with equal timestamps keep their log order. */
  lemma {:induction false} SortByTimeStable(s: seq<Details>, t: int)
    ensures AtTime(SortByTime(s), t) == AtTime(s, t)
  {
    if s != [] {
      var front := s[..|s| - 1];
      SortByTimeStable(front, t);
      InsertByTimeStable(SortByTime(front), s[|s| - 1], t);
    }
  }

  /** `u16::abs_diff` */
  function AbsDiff(a: u16, b: u16): u16
  {
    if a <= b then b - a else a - b
  }

  /**
   * The speed in hundredths of a mile per hour, `(distance / elapsed * 3600 *
   * 100) as u16`, computed on integers: the quotient is truncated and the cast
   * saturates at 65535.
   */
  function Speed100(distance: nat, elapsed: nat): (speed: u16)
    requires elapsed > 0
    ensures speed * elapsed <= distance * 360000
    ensures speed == 65535 || distance * 360000 < (speed + 1) * elapsed
  {
    var q := distance * 360000 / elapsed;
    if q > 65535 then 65535 else q
  }

  /** The speed check is strict: the truncated speed exceeds the limit exactly when the true speed is at least 0.01 mph over it. */
  lemma OverLimit(distance: nat, elapsed: nat, limit: nat)
    requires elapsed > 0 && limit <= 655
    ensures Speed100(distance, elapsed) > limit * 100 <==> distance * 360000 >= (limit * 100 + 1) * elapsed
  {
    var speed := Speed100(distance, elapsed);
    var m := limit * 100 + 1;
    if speed > limit * 100 {
      assert speed >= m;
      MulMono(m, speed, elapsed);
    } else if distance * 360000 >= m * elapsed {
      assert speed < 65535;
      MulMono(speed + 1, m, elapsed);
    }
  }

  lemma MulMono(a: nat, b: nat, c: nat)
    requires a <= b
    ensures a * c <= b * c
  {
  }

  /**
   * One window of the scan: the candidate for the consecutive pair `s1`, `s2`
   * (in timestamp order), or None when the pair is on different roads, did not
   * move, took no time, or stayed within the first camera's limit.
   */
  function PairTicket(plate: Plate, s1: Details, s2: Details): (r: Option<Ticket>)
    requires s1.timestamp <= s2.timestamp && s1.limit <= 655
    ensures r.Some? <==> s1.road == s2.road && s1.mile != s2.mile && s1.timestamp < s2.timestamp
                         && AbsDiff(s1.mile, s2.mile) * 360000 >= (s1.limit * 100 + 1) * (s2.timestamp - s1.timestamp)
    ensures r.Some? ==> r.value == Ticket(plate, s1.road, s1.mile, s1.timestamp, s2.mile, s2.timestamp,
                                           Speed100(AbsDiff(s1.mile, s2.mile), s2.timestamp - s1.timestamp))
  {
    if s1.road != s2.road then None
    else
      var elapsed := s2.timestamp - s1.timestamp;
      var distance := AbsDiff(s1.mile, s2.mile);
      if distance == 0 || elapsed == 0 then None
      else
        var speed := Speed100(distance, elapsed);
        OverLimit(distance, elapsed, s1.limit);
        if speed > s1.limit * 100 then
          Some(Ticket(plate, s1.road, s1.mile, s1.timestamp, s2.mile, s2.timestamp, speed))
        else None
  }

  /** `windows(2)` over a sorted group: the candidates of its consecutive pairs, in order. */
  function ScanPairs(plate: Plate, s: seq<Details>): seq<Ticket>
    requires SortedByTime(s) && LimitsFit(s)
  {
    if |s| < 2 then []
    else
      var t := PairTicket(plate, s[|s| - 2], s[|s| - 1]);
      ScanPairs(plate, s[..|s| - 1]) + (if t.Some? then [t.value] else [])
  }

  /** The window starting at `i` flags `t`. */
  predicate FlaggedAt(plate: Plate, s: seq<Details>, i: int, t: Ticket)
    requires SortedByTime(s) && LimitsFit(s)
  {
    0 <= i < |s| - 1 && PairTicket(plate, s[i], s[i + 1]) == Some(t)
  }

  /** A candidate arises from a consecutive pair of the sorted group, and every flagged pair gives one. */
  lemma ScanPairsMembers(plate: Plate, s: seq<Details>, t: Ticket)
    requires SortedByTime(s) && LimitsFit(s)
    ensures t in ScanPairs(plate, s) <==> exists i :: FlaggedAt(plate, s, i, t)
  {
    if t in ScanPairs(plate, s) {
      ScanPairsSound(plate, s, t);
    }
    if exists i :: FlaggedAt(plate, s, i, t) {
      var i :| FlaggedAt(plate, s, i, t);
      ScanPairsComplete(plate, s, t, i);
    }
  }

  lemma {:induction false} ScanPairsSound(plate: Plate, s: seq<Details>, t: Ticket)
    requires SortedByTime(s) && LimitsFit(s)
    requires t in ScanPairs(plate, s)
    ensures exists i :: FlaggedAt(plate, s, i, t)
  {
    var front := s[..|s| - 1];
    var last := PairTicket(plate, s[|s| - 2], s[|s| - 1]);
    assert ScanPairs(plate, s) == ScanPairs(plate, front) + (if last.Some? then [last.value] else []);
    if t in ScanPairs(plate, front) {
      ScanPairsSound(plate, front, t);
      var i :| FlaggedAt(plate, front, i, t);
      assert FlaggedAt(plate, s, i, t);
    } else {
      assert FlaggedAt(plate, s, |s| - 2, t);
    }
  }

  lemma {:induction false} ScanPairsComplete(plate: Plate, s: seq<Details>, t: Ticket, i: int)
    requires SortedByTime(s) && LimitsFit(s)
    requires FlaggedAt(plate, s, i, t)
    ensures t in ScanPairs(plate, s)
  {
    var front := s[..|s| - 1];
    var last := PairTicket(plate, s[|s| - 2], s[|s| - 1]);
    assert ScanPairs(plate, s) == ScanPairs(plate, front) + (if last.Some? then [last.value] else []);
    if i < |s| - 2 {
      assert FlaggedAt(plate, front, i, t);
      ScanPairsComplete(plate, front, t, i);
    }
  }

  /** Every element of a group resolves from the snapshot, so its limit fits. */
  lemma PlateDetailsFit(registry: map<ClientId, ClientInfo>, log: seq<Sighting>, plate: Plate)
    requires CameraLimitsFit(registry)
    ensures LimitsFit(PlateDetails(registry, log, plate))
    ensures LimitsFit(SortByTime(PlateDetails(registry, log, plate)))
  {
    var g := PlateDetails(registry, log, plate);
    forall i | 0 <= i < |g| ensures g[i].limit <= 655 {
      PlateDetailsSound(registry, log, plate, g[i]);
    }
    var sorted := SortByTime(g);
    forall i | 0 <= i < |sorted| ensures sorted[i].limit <= 655 {
      assert sorted[i] in multiset(g);
    }
  }

  /** The candidates `check_traffic_log` computes for one plate. */
  function PlateCandidates(registry: map<ClientId, ClientInfo>, log: seq<Sighting>, plate: Plate): seq<Ticket>
    requires CameraLimitsFit(registry)
  {
    PlateDetailsFit(registry, log, plate);
    ScanPairs(plate, SortByTime(PlateDetails(registry, log, plate)))
  }

  /** The candidates of the plates in `order`, one plate after another. */
  function CandidatesIn(registry: map<ClientId, ClientInfo>, log: seq<Sighting>, order: seq<Plate>): seq<Ticket>
    requires CameraLimitsFit(registry)
  {
    if order == [] then []
    else CandidatesIn(registry, log, order[..|order| - 1]) + PlateCandidates(registry, log, order[|order| - 1])
  }

  lemma CandidatesInSnoc(registry: map<ClientId, ClientInfo>, log: seq<Sighting>, order: seq<Plate>, plate: Plate)
    requires CameraLimitsFit(registry)
    ensures CandidatesIn(registry, log, order + [plate])
            == CandidatesIn(registry, log, order) + PlateCandidates(registry, log, plate)
  {
    assert (order + [plate])[..|order|] == order;
  }

  /**
   * Sightings `i` and `j` of the log back ticket `t`: both are of its plate,
   * from registered cameras on its road, at its miles and timestamps, the first
   * strictly earlier and at a different mile, and the speed is strictly over
   * the first camera's limit.
   */
  predicate Backs(registry: map<ClientId, ClientInfo>, log: seq<Sighting>, t: Ticket, i: int, j: int)
  {
    0 <= i < |log| && 0 <= j < |log|
    && log[i].plate == t.plate && log[j].plate == t.plate
    && Resolve(registry, log[i]).Some? && Resolve(registry, log[j]).Some?
    && var d1, d2 := Resolve(registry, log[i]).value, Resolve(registry, log[j]).value;
    d1.road == t.road && d2.road == t.road
    && t.mile1 == d1.mile && t.timestamp1 == d1.timestamp
    && t.mile2 == d2.mile && t.timestamp2 == d2.timestamp
    && t.timestamp1 < t.timestamp2 && t.mile1 != t.mile2
    && t.speed > d1.limit * 100
  }

  /** A sighting in the sorted group of a plate comes from a logged sighting of that plate. */
  lemma SortedFromLog(registry: map<ClientId, ClientInfo>, log: seq<Sighting>, plate: Plate, x: Details)
    requires x in SortByTime(PlateDetails(registry, log, plate))
    ensures exists i :: 0 <= i < |log| && log[i].plate == plate && Resolve(registry, log[i]) == Some(x)
  {
    var g := PlateDetails(registry, log, plate);
    assert x in multiset(g);
    PlateDetailsSound(registry, log, plate, x);
  }

  /** Every candidate of a plate is a ticket for that plate backed by two of its logged sightings. */
  lemma CandidateFromLog(registry: map<ClientId, ClientInfo>, log: seq<Sighting>, plate: Plate, t: Ticket)
    requires CameraLimitsFit(registry) && t in PlateCandidates(registry, log, plate)
    ensures t.plate == plate
    ensures exists i, j :: Backs(registry, log, t, i, j)
  {
    var s := SortByTime(PlateDetails(registry, log, plate));
    PlateDetailsFit(registry, log, plate);
    ScanPairsMembers(plate, s, t);
    var k :| FlaggedAt(plate, s, k, t);
    var d1, d2 := s[k], s[k + 1];
    SortedFromLog(registry, log, plate, d1);
    SortedFromLog(registry, log, plate, d2);
    var i :| 0 <= i < |log| && log[i].plate == plate && Resolve(registry, log[i]) == Some(d1);
    var j :| 0 <= j < |log| && log[j].plate == plate && Resolve(registry, log[j]) == Some(d2);
    assert PairTicket(plate, d1, d2) == Some(t);
    assert Backs(registry, log, t, i, j);
  }

  /** The first loop of `check_traffic_log`: the resolvable sightings grouped by plate, in log order. */
  method GroupByPlate(registry: map<ClientId, ClientInfo>, log: seq<Sighting>)
    returns (byPlate: map<Plate, seq<Details>>)
    ensures forall p :: p in byPlate <==> PlateDetails(registry, log, p) != []
    ensures forall p :: p in byPlate ==> byPlate[p] == PlateDetails(registry, log, p)
  {
    byPlate := map[];
    for i := 0 to |log|
      invariant forall p :: p in byPlate <==> PlateDetails(registry, log[..i], p) != []
      invariant forall p :: p in byPlate ==> byPlate[p] == PlateDetails(registry, log[..i], p)
    {
      var sighting := log[i];
      assert log[..i + 1][..i] == log[..i];
      if sighting.clientId in registry && registry[sighting.clientId].Camera? {
        var camera := registry[sighting.clientId];
        var details := Details(camera.road, camera.mile, camera.limit, sighting.timestamp);
        var group := if sighting.plate in byPlate then byPlate[sighting.plate] else [];
        byPlate := byPlate[sighting.plate := group + [details]];
      }
    }
    assert log[..|log|] == log;
  }

  /** The pair scan of `check_traffic_log` over one plate's sorted sightings. */
  method ScanGroup(plate: Plate, sightings: seq<Details>) returns (found: seq<Ticket>)
    requires SortedByTime(sightings) && LimitsFit(sightings)
    ensures found == ScanPairs(plate, sightings)
  {
    found := [];
    if |sightings| < 2 {
      return;
    }
    var k := 1;
    while k < |sightings|
      invariant 1 <= k <= |sightings|
      invariant found == ScanPairs(plate, sightings[..k])
    {
      var s1, s2 := sightings[k - 1], sightings[k];
      assert sightings[..k + 1][..k] == sightings[..k];
      if s1.road == s2.road {
        var timeDelta := s2.timestamp - s1.timestamp;
        var distance := AbsDiff(s1.mile, s2.mile);
        if distance != 0 && timeDelta != 0 {
          var speed100 := Speed100(distance, timeDelta);
          var limit100 := s1.limit * 100;
          OverLimit(distance, timeDelta, s1.limit);
          if speed100 > limit100 {
            found := found + [Ticket(plate, s1.road, s1.mile, s1.timestamp, s2.mile, s2.timestamp, speed100)];
          }
        }
      }
      k := k + 1;
    }
    assert sightings[..|sightings|] == sightings;
  }

  /** Visiting one more of the remaining keys keeps the visit order duplicate-free and in step with what remains. */
  lemma VisitNext<T>(order: seq<T>, keys: set<T>, remaining: set<T>, x: T)
    requires Distinct(order) && remaining <= keys && x in remaining
    requires forall p :: p in order <==> p in keys - remaining
    ensures Distinct(order + [x])
    ensures forall p :: p in order + [x] <==> p in keys - (remaining - {x})
  {
    DistinctSnoc(order, x);
  }

  /** The body of the per-plate loop of `check_traffic_log`: sort the plate's group by time, then scan it. */
  method PlateTickets(registry: map<ClientId, ClientInfo>, log: seq<Sighting>, plate: Plate, group: seq<Details>)
    returns (found: seq<Ticket>)
    requires CameraLimitsFit(registry)
    requires group == PlateDetails(registry, log, plate)
    ensures found == PlateCandidates(registry, log, plate)
  {
    PlateDetailsFit(registry, log, plate);
    var sightings := SortByTime(group);
    found := ScanGroup(plate, sightings);
  }

  /**
   * `check_traffic_log`. The per-plate groups live in a hash map, so the
   * plates are visited in an arbitrary order; `order` is that order. Within
   * a plate the candidates come out in scan order.
   */
  method CheckTrafficLog(registry: map<ClientId, ClientInfo>, log: seq<Sighting>)
    returns (candidates: seq<Ticket>, ghost order: seq<Plate>)
    requires CameraLimitsFit(registry)
    ensures forall p :: p in order <==> PlateDetails(registry, log, p) != []
    ensures Distinct(order)
    ensures candidates == CandidatesIn(registry, log, order)
  {
    var byPlate := GroupByPlate(registry, log);
    candidates, order := [], [];
    var remaining := byPlate.Keys;
    while remaining != {}
      invariant remaining <= byPlate.Keys
      invariant forall p :: p in order <==> p in byPlate.Keys - remaining
      invariant Distinct(order)
      invariant candidates == CandidatesIn(registry, log, order)
      decreases remaining
    {
      var plate :| plate in remaining;
      var found := PlateTickets(registry, log, plate, byPlate[plate]);
      CandidatesInSnoc(registry, log, order, plate);
      VisitNext(order, byPlate.Keys, remaining, plate);
      candidates := candidates + found;
      order := order + [plate];
      remaining := remaining - {plate};
    }
  }
}
