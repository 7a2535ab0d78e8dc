/**
 * The `angel_opportunities` node of angel.py: behind a readiness gate it
 * selects the full and the empty stations, pairs every full station with its
 * nearest empty one, ranks the pairs by distance, keeps the first
 * `maxResults`, and joins in the info and status records of both ends.
 */
module Opportunities {
  import opened Wrappers
  import opened GbfsAdapter
  import Occupancy

  const DefaultFullOR: real := 0.95
  const DefaultEmptyOR: real := 0.05
  const DefaultMaxResults: int := 20

  /**
   * The distance DataFrame produced by the `distances` node: its column ids
   * in order, and a distance for each (row id, column id) pair.
   */
  datatype DistanceMatrix = DistanceMatrix(ids: seq<StationId>, dist: map<(StationId, StationId), real>)

  /** Every pair of ids of the matrix has a non-negative distance. */
  ghost predicate Square(m: DistanceMatrix) {
    forall a, b :: a in m.ids && b in m.ids ==> (a, b) in m.dist && m.dist[(a, b)] >= 0.0
  }

  /** `AngelRoute`: a move from a full origin to an empty destination. */
  datatype AngelRoute = AngelRoute(
    origin: StationInfo,
    destination: StationInfo,
    originStatus: StationStatus,
    destinationStatus: StationStatus,
    distance: real)

  /** A row of `potentialRides`: origin id, destination id, distance. */
  datatype Candidate = Candidate(origin: StationId, destination: StationId, distance: real)

  /** The result of the node: its routes, or the id whose lookup raised `KeyError`. */
  datatype Outcome = Routes(routes: seq<AngelRoute>) | KeyError(key: StationId)

  predicate IsFull(occ: map<StationId, real>, fullOR: real, sid: StationId) {
    sid in occ && occ[sid] >= fullOR
  }

  predicate IsEmpty(occ: map<StationId, real>, emptyOR: real, sid: StationId) {
    sid in occ && occ[sid] <= emptyOR && occ[sid] != Occupancy.Disabled
  }

  /** `[x for x in xs if keep(x)]`. */
  function Select(xs: seq<StationId>, keep: StationId -> bool): (r: seq<StationId>)
    ensures forall x :: x in r <==> x in xs && keep(x)
    ensures r == [] <==> forall x :: x in xs ==> !keep(x)
    ensures |r| <= |xs|
    decreases |xs|
  {
    if xs == [] then []
    else (if keep(xs[0]) then [xs[0]] else []) + Select(xs[1..], keep)
  }

  /** Each id occurs in the result as often as in the input when it is kept, and not at all otherwise. */
  lemma {:induction false} SelectCounts(xs: seq<StationId>, keep: StationId -> bool)
    ensures forall x :: multiset(Select(xs, keep))[x] == if keep(x) then multiset(xs)[x] else 0
    decreases |xs|
  {
    if xs != [] {
      var head := if keep(xs[0]) then [xs[0]] else [];
      var rest := Select(xs[1..], keep);
      SelectCounts(xs[1..], keep);
      assert xs == [xs[0]] + xs[1..];
      assert multiset(xs) == multiset{xs[0]} + multiset(xs[1..]);
      assert multiset(Select(xs, keep)) == multiset(head) + multiset(rest);
    }
  }

  /** Filtering distributes over concatenation, so the kept ids stay in input order. */
  lemma {:induction false} SelectAppend(xs: seq<StationId>, ys: seq<StationId>, keep: StationId -> bool)
    ensures Select(xs + ys, keep) == Select(xs, keep) + Select(ys, keep)
    decreases |xs|
  {
    if xs != [] {
      var head := if keep(xs[0]) then [xs[0]] else [];
      assert (xs + ys)[0] == xs[0] && (xs + ys)[1..] == xs[1..] + ys;
      SelectAppend(xs[1..], ys, keep);
      Regroup(head, Select(xs[1..], keep), Select(ys, keep));
    } else {
      assert xs + ys == ys;
    }
  }

  /**
   * Concatenation is associative.  Kept apart so that `SelectAppend` proves
   * this one step without its own unfoldings of `Select` in scope.
   */
  lemma Regroup(a: seq<StationId>, b: seq<StationId>, c: seq<StationId>)
    ensures a + (b + c) == (a + b) + c
  {
  }

  /** A single id is kept exactly when it meets the condition. */
  lemma SelectSingle(x: StationId, keep: StationId -> bool)
    ensures Select([x], keep) == if keep(x) then [x] else []
  {
    assert [x][1..] == [];
  }

  /** `full_stations`: the ids, in column order, whose occupancy is at least `fullOR`. */
  function FullStations(ids: seq<StationId>, occ: map<StationId, real>, fullOR: real): (full: seq<StationId>)
    ensures forall x :: x in full <==> x in ids && IsFull(occ, fullOR, x)
    ensures |full| <= |ids|
  {
    Select(ids, x => IsFull(occ, fullOR, x))
  }

  /** `empty_stations`: the ids, in column order, whose occupancy is at most `emptyOR` and not the sentinel. */
  function EmptyStations(ids: seq<StationId>, occ: map<StationId, real>, emptyOR: real): (empties: seq<StationId>)
    ensures forall x :: x in empties <==> x in ids && IsEmpty(occ, emptyOR, x)
    ensures empties == [] <==> forall x :: x in ids ==> !IsEmpty(occ, emptyOR, x)
  {
    Select(ids, x => IsEmpty(occ, emptyOR, x))
  }

  /**
   * `idxmin` over one row of the matrix restricted to `columns`: the index of
   * the first column with the least distance, or None when there are no columns.
   */
  function NearestIndex(m: DistanceMatrix, o: StationId, columns: seq<StationId>): (j: Option<nat>)
    requires forall e :: e in columns ==> (o, e) in m.dist
    ensures j.None? <==> columns == []
    ensures j.Some? ==> j.value < |columns|
    ensures j.Some? ==> forall k :: 0 <= k < |columns| ==> m.dist[(o, columns[j.value])] <= m.dist[(o, columns[k])]
    ensures j.Some? ==> forall k :: 0 <= k < j.value ==> m.dist[(o, columns[k])] > m.dist[(o, columns[j.value])]
    decreases |columns|
  {
    if columns == [] then None
    else
      var rest := NearestIndex(m, o, columns[1..]);
      if rest.None? || m.dist[(o, columns[0])] <= m.dist[(o, columns[1 + rest.value])] then Some(0)
      else Some(1 + rest.value)
  }

  /** The candidate goes to a nearest station of `empties` and carries that distance. */
  ghost predicate IsNearest(m: DistanceMatrix, c: Candidate, empties: seq<StationId>) {
    && c.destination in empties
    && (c.origin, c.destination) in m.dist
    && c.distance == m.dist[(c.origin, c.destination)]
    && forall e :: e in empties && (c.origin, e) in m.dist ==> c.distance <= m.dist[(c.origin, e)]
  }

  /** The `Destination`/`Distance` row of origin `o`. */
  function NearestCandidate(m: DistanceMatrix, o: StationId, empties: seq<StationId>): (c: Candidate)
    requires empties != []
    requires forall e :: e in empties ==> (o, e) in m.dist
    ensures c.origin == o && IsNearest(m, c, empties)
  {
    var j := NearestIndex(m, o, empties).value;
    Candidate(o, empties[j], m.dist[(o, empties[j])])
  }

  /** `potentialRides` before sorting: one row per full station, none at all without empty stations. */
  function Candidates(m: DistanceMatrix, full: seq<StationId>, empties: seq<StationId>): (cs: seq<Candidate>)
    requires forall o, e :: o in full && e in empties ==> (o, e) in m.dist
    ensures |cs| == if empties == [] then 0 else |full|
    ensures forall i :: 0 <= i < |cs| ==> cs[i].origin == full[i] && IsNearest(m, cs[i], empties)
    decreases |full|
  {
    if full == [] || empties == [] then []
    else
      var c := NearestCandidate(m, full[0], empties);
      var rest := Candidates(m, full[1..], empties);
      PrependShifts(c, rest);
      [c] + rest
  }

  /** The rows of `rest` sit one place further in `[c] + rest`. */
  lemma PrependShifts<T>(c: T, rest: seq<T>)
    ensures forall i :: 1 <= i < |rest| + 1 ==> ([c] + rest)[i] == rest[i - 1]
  {
  }

  /** All candidate rows for the current occupancy table and matrix. */
  function AllCandidates(occ: map<StationId, real>, m: DistanceMatrix, fullOR: real, emptyOR: real): (cs: seq<Candidate>)
    requires Square(m)
    ensures forall i :: 0 <= i < |cs| ==> IsFull(occ, fullOR, cs[i].origin) && IsEmpty(occ, emptyOR, cs[i].destination)
  {
    Candidates(m, FullStations(m.ids, occ, fullOR), EmptyStations(m.ids, occ, emptyOR))
  }

  predicate SortedByDistance(cs: seq<Candidate>) {
    forall i, j :: 0 <= i < j < |cs| ==> cs[i].distance <= cs[j].distance
  }

  /** `ranked` is `cs` sorted by distance (the order among equal distances is left open). */
  ghost predicate IsRankingOf(ranked: seq<Candidate>, cs: seq<Candidate>) {
    SortedByDistance(ranked) && multiset(ranked) == multiset(cs)
  }

  /** Python's `s[0:n]`: a negative `n` counts from the end. */
  function SliceTo<T>(s: seq<T>, n: int): (r: seq<T>)
    ensures 0 <= n ==> |r| == if n < |s| then n else |s|
    ensures n < 0 ==> |r| == if |s| + n > 0 then |s| + n else 0
    ensures r == s[..|r|]
  {
    var end := if n >= 0 then (if n < |s| then n else |s|) else (if |s| + n > 0 then |s| + n else 0);
    s[..end]
  }

  /** `sort_values('Distance', inplace=True)`, as an insertion sort. */
  method SortByDistance(a: array<Candidate>)
    modifies a
    ensures SortedByDistance(a[..])
    ensures multiset(a[..]) == old(multiset(a[..]))
  {
    if a.Length == 0 {
      return;
    }
    for i := 1 to a.Length
      invariant forall p, q :: 0 <= p < q < i ==> a[p].distance <= a[q].distance
      invariant multiset(a[..]) == old(multiset(a[..]))
    {
      Sink(a, i);
    }
  }

  /** Moves `a[i]` left into the sorted prefix `a[..i]`. */
  method Sink(a: array<Candidate>, i: int)
    requires 0 < i < a.Length
    requires forall p, q :: 0 <= p < q < i ==> a[p].distance <= a[q].distance
    modifies a
    ensures forall p, q :: 0 <= p < q <= i ==> a[p].distance <= a[q].distance
    ensures multiset(a[..]) == old(multiset(a[..]))
  {
    var j := i;
    while j > 0 && a[j - 1].distance > a[j].distance
      invariant 0 <= j <= i
      invariant forall p, q :: 0 <= p < q <= i && p != j && q != j ==> a[p].distance <= a[q].distance
      invariant forall p, q :: 0 <= p < j < q <= i ==> a[p].distance <= a[q].distance
      invariant forall q :: j < q <= i ==> a[j].distance <= a[q].distance
      invariant multiset(a[..]) == old(multiset(a[..]))
    {
      Swap(a, j);
      j := j - 1;
    }
  }

  /** Exchanges `a[j - 1]` and `a[j]`. */
  method Swap(a: array<Candidate>, j: int)
    requires 0 < j < a.Length
    modifies a
    ensures a[j - 1] == old(a[j]) && a[j] == old(a[j - 1])
    ensures forall k :: 0 <= k < a.Length && k != j - 1 && k != j ==> a[k] == old(a[k])
    ensures multiset(a[..]) == old(multiset(a[..]))
  {
    a[j - 1], a[j] := a[j], a[j - 1];
  }

  /** Both ends of the candidate have an info record and a status record. */
  predicate Joinable(c: Candidate, info: map<StationId, StationInfo>, status: map<StationId, StationStatus>) {
    c.origin in info && c.destination in info && c.origin in status && c.destination in status
  }

  /** The first lookup that fails, in the order the `AngelRoute` arguments are evaluated. */
  function MissingKey(c: Candidate, info: map<StationId, StationInfo>, status: map<StationId, StationStatus>): (key: StationId)
    ensures !Joinable(c, info, status) ==> (key == c.origin || key == c.destination) && (key !in info || key !in status)
  {
    if c.origin !in info then c.origin
    else if c.destination !in info then c.destination
    else if c.origin !in status then c.origin
    else c.destination
  }

  function RouteOf(c: Candidate, info: map<StationId, StationInfo>, status: map<StationId, StationStatus>): AngelRoute
    requires Joinable(c, info, status)
  {
    AngelRoute(info[c.origin], info[c.destination], status[c.origin], status[c.destination], c.distance)
  }

  /**
   * The packaged result: every row joined with the records stored under its
   * ids, or `KeyError` for the first missing id of the first row that fails.
   */
  ghost predicate JoinedAs(chosen: seq<Candidate>, info: map<StationId, StationInfo>, status: map<StationId, StationStatus>, r: Outcome) {
    match r
    case Routes(routes) =>
      && |routes| == |chosen|
      && forall i :: 0 <= i < |chosen| ==> Joinable(chosen[i], info, status) && routes[i] == RouteOf(chosen[i], info, status)
    case KeyError(key) =>
      exists i :: 0 <= i < |chosen| && !Joinable(chosen[i], info, status) && key == MissingKey(chosen[i], info, status)
                  && forall j :: 0 <= j < i ==> Joinable(chosen[j], info, status)
  }

  /** The loop that appends one `AngelRoute` per retained row. */
  method Package(chosen: seq<Candidate>, info: map<StationId, StationInfo>, status: map<StationId, StationStatus>) returns (r: Outcome)
    ensures JoinedAs(chosen, info, status, r)
  {
    var results := [];
    for i := 0 to |chosen|
      invariant |results| == i
      invariant forall k :: 0 <= k < i ==> Joinable(chosen[k], info, status) && results[k] == RouteOf(chosen[k], info, status)
    {
      var c := chosen[i];
      if !Joinable(c, info, status) {
        return KeyError(MissingKey(c, info, status));
      }
      results := results + [RouteOf(c, info, status)];
    }
    r := Routes(results);
  }

  /** A fresh array holding the rows of `cs`. */
  method ToArray(cs: seq<Candidate>) returns (a: array<Candidate>)
    ensures fresh(a) && a[..] == cs
  {
    a := new Candidate[|cs|](i requires 0 <= i < |cs| => cs[i]);
  }

  /** The body of the node once the gate is open. */
  method ComputeRoutes(occ: map<StationId, real>, m: DistanceMatrix,
                       info: map<StationId, StationInfo>, status: map<StationId, StationStatus>,
                       fullOR: real, emptyOR: real, maxResults: int)
    returns (chosen: seq<Candidate>, r: Outcome, ghost ranked: seq<Candidate>)
    requires Square(m)
    ensures IsRankingOf(ranked, AllCandidates(occ, m, fullOR, emptyOR))
    ensures chosen == SliceTo(ranked, maxResults)
    ensures JoinedAs(chosen, info, status, r)
  {
    var full := FullStations(m.ids, occ, fullOR);
    var empties := EmptyStations(m.ids, occ, emptyOR);
    var cands := Candidates(m, full, empties);
    var a := ToArray(cands);
    SortByDistance(a);
    ranked := a[..];
    chosen := SliceTo(a[..], maxResults);
    r := Package(chosen, info, status);
  }

  /**
   * A route end the node may emit: the origin is a full station of the
   * matrix, the destination an empty one, and the distance is the least
   * from the origin to any empty station of the matrix.
   */
  ghost predicate Eligible(c: Candidate, occ: map<StationId, real>, m: DistanceMatrix, fullOR: real, emptyOR: real) {
    && c.origin in m.ids && IsFull(occ, fullOR, c.origin)
    && c.destination in m.ids && IsEmpty(occ, emptyOR, c.destination)
    && (c.origin, c.destination) in m.dist && c.distance == m.dist[(c.origin, c.destination)]
    && forall e :: e in m.ids && IsEmpty(occ, emptyOR, e) && (c.origin, e) in m.dist ==> c.distance <= m.dist[(c.origin, e)]
  }

  /** A candidate row starts at a station of `full` and goes to its nearest station of `empties`. */
  lemma InCandidates(m: DistanceMatrix, full: seq<StationId>, empties: seq<StationId>, c: Candidate)
    requires forall o, e :: o in full && e in empties ==> (o, e) in m.dist
    requires c in multiset(Candidates(m, full, empties))
    ensures c.origin in full && IsNearest(m, c, empties)
  {
    var cs := Candidates(m, full, empties);
    var i :| 0 <= i < |cs| && cs[i] == c;
  }

  /** Every row a ranking of the candidates holds, and so every row kept, is eligible. */
  lemma RankedAreEligible(occ: map<StationId, real>, m: DistanceMatrix, fullOR: real, emptyOR: real, ranked: seq<Candidate>)
    requires Square(m)
    requires IsRankingOf(ranked, AllCandidates(occ, m, fullOR, emptyOR))
    ensures forall c :: c in ranked ==> Eligible(c, occ, m, fullOR, emptyOR)
  {
    var full := FullStations(m.ids, occ, fullOR);
    var empties := EmptyStations(m.ids, occ, emptyOR);
    forall c | c in ranked ensures Eligible(c, occ, m, fullOR, emptyOR) {
      assert c in multiset(ranked);
      InCandidates(m, full, empties, c);
    }
  }

  /** The routes kept are sorted by distance and at most `maxResults` many. */
  lemma ChosenAreSortedAndCapped(ranked: seq<Candidate>, maxResults: int)
    requires SortedByDistance(ranked)
    ensures SortedByDistance(SliceTo(ranked, maxResults))
    ensures maxResults >= 0 ==> |SliceTo(ranked, maxResults)| <= maxResults
    ensures forall c :: c in SliceTo(ranked, maxResults) ==> c in ranked
  {
  }

  /** The routes are listed nearest first. */
  predicate RoutesByDistance(routes: seq<AngelRoute>) {
    forall i, j :: 0 <= i < j < |routes| ==> routes[i].distance <= routes[j].distance
  }

  /**
   * The node's output itself is sorted by distance and capped: each route
   * carries the distance of its kept row.
   */
  lemma RoutesAreSortedAndCapped(ranked: seq<Candidate>, maxResults: int, info: map<StationId, StationInfo>,
                                 status: map<StationId, StationStatus>, routes: seq<AngelRoute>)
    requires SortedByDistance(ranked)
    requires JoinedAs(SliceTo(ranked, maxResults), info, status, Routes(routes))
    ensures RoutesByDistance(routes)
    ensures maxResults >= 0 ==> |routes| <= maxResults
    ensures forall i :: 0 <= i < |routes| ==> routes[i].distance == SliceTo(ranked, maxResults)[i].distance
  {
    ChosenAreSortedAndCapped(ranked, maxResults);
  }

  /** A slice reaching past the end is the whole sequence. */
  lemma SliceToWhole<T>(s: seq<T>, n: int)
    requires n >= |s|
    ensures SliceTo(s, n) == s
  {
    assert s[..|s|] == s;
  }

  /**
   * Sorting then truncating keeps the nearest rows: every row dropped is at
   * least as far as every row kept.
   */
  lemma ChosenAreNearest(cs: seq<Candidate>, ranked: seq<Candidate>, maxResults: int)
    requires IsRankingOf(ranked, cs)
    ensures forall c, d ::
      (c in SliceTo(ranked, maxResults) && d in multiset(cs) - multiset(SliceTo(ranked, maxResults))) ==> c.distance <= d.distance
  {
    var chosen := SliceTo(ranked, maxResults);
    SplitMultiset(ranked, |chosen|);
    SortedSplit(ranked, |chosen|);
  }

  /** Splitting a sequence splits its multiset. */
  lemma SplitMultiset<T>(s: seq<T>, n: int)
    requires 0 <= n <= |s|
    ensures multiset(s) - multiset(s[..n]) == multiset(s[n..])
  {
    assert s == s[..n] + s[n..];
  }

  /** In a sorted sequence every row of a prefix is at most every row after it. */
  lemma SortedSplit(ranked: seq<Candidate>, n: int)
    requires SortedByDistance(ranked) && 0 <= n <= |ranked|
    ensures forall c, d :: c in ranked[..n] && d in multiset(ranked[n..]) ==> c.distance <= d.distance
  {
    forall c, d | c in ranked[..n] && d in multiset(ranked[n..]) ensures c.distance <= d.distance {
      var i :| 0 <= i < n && ranked[..n][i] == c;
      assert d in ranked[n..];
      var k :| 0 <= k < |ranked| - n && ranked[n..][k] == d;
      assert ranked[i] == c && ranked[n + k] == d;
    }
  }

  /** With no empty station in the matrix, no route is produced. */
  lemma NoEmptyStationNoRoute(occ: map<StationId, real>, m: DistanceMatrix, fullOR: real, emptyOR: real,
                              ranked: seq<Candidate>, maxResults: int)
    requires Square(m)
    requires IsRankingOf(ranked, AllCandidates(occ, m, fullOR, emptyOR))
    requires forall e :: e in m.ids ==> !IsEmpty(occ, emptyOR, e)
    ensures SliceTo(ranked, maxResults) == []
  {
    var empties := EmptyStations(m.ids, occ, emptyOR);
    assert |multiset(ranked)| == 0;
  }

  /**
   * Without truncation every full station of the matrix gets a route as soon
   * as there is any empty station.
   */
  lemma EveryFullStationIsRouted(occ: map<StationId, real>, m: DistanceMatrix, fullOR: real, emptyOR: real,
                                 ranked: seq<Candidate>, maxResults: int, o: StationId, e: StationId)
    requires Square(m)
    requires IsRankingOf(ranked, AllCandidates(occ, m, fullOR, emptyOR))
    requires maxResults >= |m.ids|
    requires o in m.ids && IsFull(occ, fullOR, o)
    requires e in m.ids && IsEmpty(occ, emptyOR, e)
    ensures exists c :: c in SliceTo(ranked, maxResults) && c.origin == o
  {
    var full := FullStations(m.ids, occ, fullOR);
    var empties := EmptyStations(m.ids, occ, emptyOR);
    assert e in empties;
    assert o in full;
    var i :| 0 <= i < |full| && full[i] == o;
    var cands := Candidates(m, full, empties);
    assert AllCandidates(occ, m, fullOR, emptyOR) == cands;
    var c := OriginRow(m, full, empties, i);
    assert c in multiset(ranked);
    assert |ranked| == |multiset(ranked)| == |multiset(cands)| == |cands|;
    SliceToWhole(ranked, maxResults);
    assert c in ranked;
  }

  /** With an empty station present, the candidate rows hold one row per full station, in order. */
  lemma OriginRow(m: DistanceMatrix, full: seq<StationId>, empties: seq<StationId>, i: int) returns (c: Candidate)
    requires forall o, e :: o in full && e in empties ==> (o, e) in m.dist
    requires empties != [] && 0 <= i < |full|
    ensures |Candidates(m, full, empties)| == |full|
    ensures c in multiset(Candidates(m, full, empties)) && c.origin == full[i]
  {
    c := Candidates(m, full, empties)[i];
  }

  /** With a full threshold above the sentinel, a disabled station is never an end of a route. */
  lemma DisabledStationIsNeverRouted(occ: map<StationId, real>, m: DistanceMatrix, fullOR: real, emptyOR: real,
                                     ranked: seq<Candidate>, maxResults: int)
    requires Square(m)
    requires IsRankingOf(ranked, AllCandidates(occ, m, fullOR, emptyOR))
    requires fullOR > Occupancy.Disabled
    ensures forall c :: c in SliceTo(ranked, maxResults) ==>
      && c.origin in occ && occ[c.origin] != Occupancy.Disabled
      && c.destination in occ && occ[c.destination] != Occupancy.Disabled
  {
    RankedAreEligible(occ, m, fullOR, emptyOR, ranked);
    ChosenAreSortedAndCapped(ranked, maxResults);
  }

  /** The three-station scenario: A is full, C is empty, B is neither. */
  function ScenarioMatrix(): DistanceMatrix {
    var ids := ["A", "B", "C"];
    DistanceMatrix(ids, map a, b | a in ids && b in ids :: (a, b) := ScenarioFeet(a, b))
  }

  /** A to B is 100 feet, B to C 300 feet and A to C 500 feet, in either direction. */
  function ScenarioFeet(a: StationId, b: StationId): real {
    if a == b then 0.0
    else if a != "C" && b != "C" then 100.0
    else if a != "A" && b != "A" then 300.0
    else 500.0
  }

  function ScenarioOccupancy(): map<StationId, real> {
    map["A" := 0.97, "B" := 0.5, "C" := 0.02]
  }

  /** With the default thresholds the scenario yields the single route A to C over 500 feet. */
  lemma ScenarioYieldsOneRoute(ranked: seq<Candidate>)
    requires Square(ScenarioMatrix())
    requires IsRankingOf(ranked, AllCandidates(ScenarioOccupancy(), ScenarioMatrix(), DefaultFullOR, DefaultEmptyOR))
    ensures SliceTo(ranked, DefaultMaxResults) == [Candidate("A", "C", 500.0)]
  {
    ScenarioCandidates();
    SingletonRanking(ranked, Candidate("A", "C", 500.0));
    SliceToWhole(ranked, DefaultMaxResults);
  }

  /** The only ranking of a single row is that row. */
  lemma SingletonRanking(ranked: seq<Candidate>, c: Candidate)
    requires multiset(ranked) == multiset{c}
    ensures ranked == [c]
  {
    assert |ranked| == |multiset(ranked)| == 1;
    assert ranked[0] in multiset(ranked);
  }

  lemma ScenarioCandidates()
    requires Square(ScenarioMatrix())
    ensures AllCandidates(ScenarioOccupancy(), ScenarioMatrix(), DefaultFullOR, DefaultEmptyOR) == [Candidate("A", "C", 500.0)]
  {
    var m := ScenarioMatrix();
    ScenarioFull();
    ScenarioEmpty();
    ScenarioDistanceAC();
    assert NearestIndex(m, "A", ["C"][1..]) == None;
    assert NearestCandidate(m, "A", ["C"]) == Candidate("A", "C", 500.0);
    assert Candidates(m, ["A"][1..], ["C"]) == [];
  }

  lemma ScenarioFull()
    ensures FullStations(ScenarioMatrix().ids, ScenarioOccupancy(), DefaultFullOR) == ["A"]
  {
    var ids, occ := ScenarioMatrix().ids, ScenarioOccupancy();
    var keep := x => IsFull(occ, DefaultFullOR, x);
    assert ids[1..][1..][1..] == [];
    assert Select(ids[1..][1..], keep) == [];
    assert Select(ids[1..], keep) == [];
  }

  lemma ScenarioEmpty()
    ensures EmptyStations(ScenarioMatrix().ids, ScenarioOccupancy(), DefaultEmptyOR) == ["C"]
  {
    var ids, occ := ScenarioMatrix().ids, ScenarioOccupancy();
    var keep := x => IsEmpty(occ, DefaultEmptyOR, x);
    assert ids[1..][1..][1..] == [];
    assert Select(ids[1..][1..], keep) == ["C"];
    assert Select(ids[1..], keep) == ["C"];
  }

  lemma ScenarioDistanceAC()
    ensures ("A", "C") in ScenarioMatrix().dist && ScenarioMatrix().dist[("A", "C")] == 500.0
  {
    assert ScenarioFeet("A", "C") == 500.0 by {
      assert "A" != "C";
    }
  }

  /** The scenario matrix is a valid distance matrix. */
  lemma ScenarioMatrixIsSquare()
    ensures Square(ScenarioMatrix())
  {
  }

  /**
   * The gate around the node: it computes only in a cycle in which one of
   * occupancy, distances or info ticked, and only once all three have
   * ticked at least once.
   */
  class OpportunityMatcher {
    const fullOR: real
    const emptyOR: real
    const maxResults: int
    /** `csp.valid` of each driving input: it has ticked at least once. */
    var occupancyValid: bool
    var distancesValid: bool
    var infoValid: bool

    constructor (fullOR: real, emptyOR: real, maxResults: int)
      ensures this.fullOR == fullOR && this.emptyOR == emptyOR && this.maxResults == maxResults
      ensures !occupancyValid && !distancesValid && !infoValid
    {
      this.fullOR := fullOR;
      this.emptyOR := emptyOR;
      this.maxResults := maxResults;
      occupancyValid, distancesValid, infoValid := false, false, false;
    }

    predicate Ready()
      reads this
    {
      occupancyValid && distancesValid && infoValid
    }

    /** One engine cycle, given which inputs ticked and the current value of each input. */
    method OnCycle(occupancyTicked: bool, distancesTicked: bool, infoTicked: bool,
                   occ: map<StationId, real>, m: DistanceMatrix,
                   info: map<StationId, StationInfo>, status: map<StationId, StationStatus>)
      returns (out: Option<Outcome>, chosen: seq<Candidate>, ghost ranked: seq<Candidate>)
      requires Square(m)
      modifies this`occupancyValid, this`distancesValid, this`infoValid
      ensures occupancyValid == (old(occupancyValid) || occupancyTicked)
      ensures distancesValid == (old(distancesValid) || distancesTicked)
      ensures infoValid == (old(infoValid) || infoTicked)
      ensures out.Some? <==> (occupancyTicked || distancesTicked || infoTicked) && Ready()
      ensures out.Some? ==> IsRankingOf(ranked, AllCandidates(occ, m, fullOR, emptyOR))
      ensures out.Some? ==> chosen == SliceTo(ranked, maxResults) && JoinedAs(chosen, info, status, out.value)
      ensures out.None? ==> chosen == []
      ensures out.Some? && out.value.Routes? ==>
        RoutesByDistance(out.value.routes) && (maxResults >= 0 ==> |out.value.routes| <= maxResults)
    {
      occupancyValid := occupancyValid || occupancyTicked;
      distancesValid := distancesValid || distancesTicked;
      infoValid := infoValid || infoTicked;
      chosen, ranked := [], [];
      if (occupancyTicked || distancesTicked || infoTicked) && Ready() {
        var r;
        chosen, r, ranked := ComputeRoutes(occ, m, info, status, fullOR, emptyOR, maxResults);
        if r.Routes? {
          RoutesAreSortedAndCapped(ranked, maxResults, info, status, r.routes);
        }
        out := Some(r);
      } else {
        out := None;
      }
    }
  }
}
