/**
 * The two GBFS feed adapters (dataloader/gbfsadapter.py): the station records
 * they produce, and the state machine that decides whether a freshly fetched
 * feed document becomes a new tick.  The network fetch is a parameter: each
 * call receives the document `request_feed` would have returned.
 */
module GbfsAdapter {
  import opened Wrappers

  type StationId = string

  /** Static station information; `lon`/`lat` are only read by the distance computation. */
  datatype StationInfo = StationInfo(
    name: string,
    capacity: int,
    stationId: StationId,
    externalId: string,
    lon: real,
    lat: real)

  /** Current station status; every count is an `int` as in the feed. */
  datatype StationStatus = StationStatus(
    stationId: StationId,
    numBikesAvailable: int,
    numEbikesAvailable: int,
    numDocksAvailable: int,
    numBikesDisabled: int,
    numDocksDisabled: int)

  /** A fetched feed document: its `last_updated` stamp and its `data.stations` list. */
  datatype FeedDocument<T> = FeedDocument(lastUpdated: int, stations: seq<T>)

  function InfoId(s: StationInfo): StationId { s.stationId }

  function StatusId(s: StationStatus): StationId { s.stationId }

  /** Station `i` is the last one in `stations` carrying its id. */
  ghost predicate IsLastWithId<T>(stations: seq<T>, id: T -> StationId, i: int) {
    0 <= i < |stations| && forall j :: i < j < |stations| ==> id(stations[j]) != id(stations[i])
  }

  /**
   * The dictionary `{id(s): s for s in stations}` built by assigning the
   * stations one after the other.
   */
  function IndexById<T>(stations: seq<T>, id: T -> StationId): map<StationId, T>
    decreases |stations|
  {
    if stations == [] then map[]
    else
      var s := stations[|stations| - 1];
      IndexById(stations[..|stations| - 1], id)[id(s) := s]
  }

  /** The keys are exactly the ids of the stations in the list. */
  lemma {:induction false} IndexByIdKeys<T>(stations: seq<T>, id: T -> StationId)
    ensures forall k :: k in IndexById(stations, id) <==> exists i :: 0 <= i < |stations| && id(stations[i]) == k
    decreases |stations|
  {
    if stations != [] {
      var init := stations[..|stations| - 1];
      IndexByIdKeys(init, id);
      forall k | k in IndexById(stations, id)
        ensures exists i :: 0 <= i < |stations| && id(stations[i]) == k
      {
        if k != id(stations[|stations| - 1]) {
          assert k in IndexById(init, id);
          var i :| 0 <= i < |init| && id(init[i]) == k;
          assert stations[i] == init[i];
        }
      }
      forall k | exists i :: 0 <= i < |stations| && id(stations[i]) == k
        ensures k in IndexById(stations, id)
      {
        var i :| 0 <= i < |stations| && id(stations[i]) == k;
        if i < |init| {
          assert init[i] == stations[i];
        }
      }
    }
  }

  /** Every value is stored under its own station id. */
  lemma {:induction false} IndexByIdSelfKeyed<T>(stations: seq<T>, id: T -> StationId)
    ensures forall k :: k in IndexById(stations, id) ==> id(IndexById(stations, id)[k]) == k
    decreases |stations|
  {
    if stations != [] {
      IndexByIdSelfKeyed(stations[..|stations| - 1], id);
    }
  }

  /** A later station with the same id overwrites an earlier one: the last one wins. */
  lemma {:induction false} IndexByIdLastWins<T>(stations: seq<T>, id: T -> StationId, i: int)
    requires IsLastWithId(stations, id, i)
    ensures id(stations[i]) in IndexById(stations, id)
    ensures IndexById(stations, id)[id(stations[i])] == stations[i]
    decreases |stations|
  {
    var init := stations[..|stations| - 1];
    if i < |init| {
      assert IsLastWithId(init, id, i);
      IndexByIdLastWins(init, id, i);
    }
  }

  /** An empty station list, and only that, gives an empty dictionary. */
  lemma IndexByIdEmpty<T>(stations: seq<T>, id: T -> StationId)
    ensures |IndexById(stations, id)| == 0 <==> stations == []
  {
    IndexByIdKeys(stations, id);
    if stations != [] {
      assert id(stations[0]) in IndexById(stations, id);
    }
  }

  /** The `for station in ...: newData[station_id] = station` loop. */
  method CollectById<T>(stations: seq<T>, id: T -> StationId) returns (m: map<StationId, T>)
    ensures m == IndexById(stations, id)
  {
    m := map[];
    for i := 0 to |stations|
      invariant m == IndexById(stations[..i], id)
    {
      assert stations[..i + 1][..i] == stations[..i];
      m := m[id(stations[i]) := stations[i]];
    }
    assert stations[..|stations|] == stations;
  }

  /** `last is None or stamp > last`: the document is newer than the last accepted one. */
  predicate IsNewer(last: Option<int>, stamp: int) {
    last.None? || stamp > last.value
  }

  ghost predicate StrictlyIncreasing(s: seq<int>) {
    forall i, j :: 0 <= i < j < |s| ==> s[i] < s[j]
  }

  /** The last accepted stamp is the last element of the acceptance history. */
  ghost predicate TracksHistory(last: Option<int>, history: seq<int>) {
    StrictlyIncreasing(history) && last == (if history == [] then None else Some(history[|history| - 1]))
  }

  /**
   * One push of the `_run` loop: a result is pushed only when it is not
   * None and not empty.
   */
  function Pushed<T>(data: Option<map<StationId, T>>): (tick: Option<map<StationId, T>>)
    ensures tick.Some? ==> |tick.value| > 0 && data == tick
    ensures data.Some? && |data.value| > 0 ==> tick == data
  {
    if data.Some? && |data.value| > 0 then data else None
  }

  class StationInfoAdapter {
    var lastUpdateTime: Option<int>
    var lastTick: Option<map<StationId, StationInfo>>
    /** Every stamp accepted so far, oldest first. */
    ghost var accepted: seq<int>

    ghost predicate Valid()
      reads this
    {
      TracksHistory(lastUpdateTime, accepted)
    }

    constructor ()
      ensures Valid()
      ensures lastUpdateTime == None && lastTick == None && accepted == []
    {
      lastUpdateTime := None;
      lastTick := None;
      accepted := [];
    }

    /** The state change and result of `getNewData` on `doc`, from the given old state. */
    ghost predicate Transition(time0: Option<int>, tick0: Option<map<StationId, StationInfo>>, accepted0: seq<int>,
                               doc: FeedDocument<StationInfo>, r: Option<map<StationId, StationInfo>>)
      reads this
    {
      if !IsNewer(time0, doc.lastUpdated) then
        r == None && lastUpdateTime == time0 && lastTick == tick0 && accepted == accepted0
      else
        var m := IndexById(doc.stations, InfoId);
        && lastUpdateTime == Some(doc.lastUpdated)
        && accepted == accepted0 + [doc.lastUpdated]
        && (if tick0 == Some(m) then r == None && lastTick == tick0
            else r == Some(m) && lastTick == Some(m))
    }

    method GetNewData(doc: FeedDocument<StationInfo>) returns (r: Option<map<StationId, StationInfo>>)
      requires Valid()
      modifies this
      ensures Valid()
      ensures Transition(old(lastUpdateTime), old(lastTick), old(accepted), doc, r)
    {
      var updateTime := doc.lastUpdated;
      if lastUpdateTime.Some? && updateTime <= lastUpdateTime.value {
        return None;
      }
      lastUpdateTime := Some(updateTime);
      accepted := accepted + [updateTime];
      var newData := CollectById(doc.stations, InfoId);
      if Some(newData) != lastTick {
        lastTick := Some(newData);
        r := Some(newData);
      } else {
        r := None;
      }
    }

    /** One iteration of `_run`: fetch, then push only a non-empty result. */
    method RunIteration(doc: FeedDocument<StationInfo>) returns (data: Option<map<StationId, StationInfo>>, tick: Option<map<StationId, StationInfo>>)
      requires Valid()
      modifies this
      ensures Valid()
      ensures Transition(old(lastUpdateTime), old(lastTick), old(accepted), doc, data)
      ensures tick == Pushed(data)
      ensures doc.stations == [] ==> tick == None
    {
      data := GetNewData(doc);
      tick := Pushed(data);
    }
  }

  class StationStatusAdapter {
    var lastUpdateTime: Option<int>
    /** Every stamp accepted so far, oldest first. */
    ghost var accepted: seq<int>

    ghost predicate Valid()
      reads this
    {
      TracksHistory(lastUpdateTime, accepted)
    }

    constructor ()
      ensures Valid()
      ensures lastUpdateTime == None && accepted == []
    {
      lastUpdateTime := None;
      accepted := [];
    }

    /** The state change and result of `getNewData` on `doc`: no content de-duplication. */
    ghost predicate Transition(time0: Option<int>, accepted0: seq<int>,
                               doc: FeedDocument<StationStatus>, r: Option<map<StationId, StationStatus>>)
      reads this
    {
      if !IsNewer(time0, doc.lastUpdated) then
        r == None && lastUpdateTime == time0 && accepted == accepted0
      else
        && lastUpdateTime == Some(doc.lastUpdated)
        && accepted == accepted0 + [doc.lastUpdated]
        && r == Some(IndexById(doc.stations, StatusId))
    }

    method GetNewData(doc: FeedDocument<StationStatus>) returns (r: Option<map<StationId, StationStatus>>)
      requires Valid()
      modifies this
      ensures Valid()
      ensures Transition(old(lastUpdateTime), old(accepted), doc, r)
    {
      var updateTime := doc.lastUpdated;
      if lastUpdateTime.Some? && updateTime <= lastUpdateTime.value {
        return None;
      }
      lastUpdateTime := Some(updateTime);
      accepted := accepted + [updateTime];
      var update := CollectById(doc.stations, StatusId);
      r := Some(update);
    }

    /** One iteration of `_run`: fetch, then push only a non-empty result. */
    method RunIteration(doc: FeedDocument<StationStatus>) returns (data: Option<map<StationId, StationStatus>>, tick: Option<map<StationId, StationStatus>>)
      requires Valid()
      modifies this
      ensures Valid()
      ensures Transition(old(lastUpdateTime), old(accepted), doc, data)
      ensures tick == Pushed(data)
      ensures doc.stations == [] ==> tick == None
    {
      data := GetNewData(doc);
      tick := Pushed(data);
    }
  }
}
