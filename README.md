# Citi Bike "angel" rebalancing core, in Dafny

The system watches a GBFS bike-share feed and proposes "angel" rides, each
moving a bike from a nearly full station to the nearest nearly empty one.
Two push adapters poll the feed. One reads `station_information` (static
records) and the other reads `station_status` (live counts). A dataflow
graph then does the rest:

- it turns the info snapshot into a sorted universe of station ids;
- it turns the status snapshot into a keyed basket that ticks only for
  changed stations;
- it turns that basket into occupancy rates, using -1 for a station with no
  bikes and no docks;
- behind a readiness gate, it picks full stations, pairs each with its
  nearest empty station, ranks the pairs by distance, keeps the first
  `maxResults`, and joins both ends with their info and status records.

The project models these pieces, module by module:

- `GbfsAdapter` (`gbfs_adapter.dfy`):
  - the station records;
  - the id-keyed dictionary the adapters build;
  - both adapters as classes holding their `_last_update_time` and
    `_last_tick` state, with `getNewData` and one iteration of `_run`.
- `StringOrder` (`string_order.dfy`):
  - Python's string order, proved to be a total order;
  - the ascending list of a finite set of ids.
- `Universe` (`universe.dfy`): `station_universe`.
- `StatusBasket` (`status_basket.dfy`): `stationStatusDynBasket`. This is a
  class holding `_sow_status`, with one method per snapshot tick and a loop
  over the snapshot.
- `Occupancy` (`occupancy.dfy`): `stationOccupancyRates`. This is the rate
  function plus a class holding the cumulative rate basket that sits
  downstream of the node.
- `Opportunities` (`opportunities.dfy`): `angel_opportunities`. It covers:
  - the selection, the nearest-station step, an in-place insertion sort on
    an array, Python slicing and the packaging loop with its `KeyError` path;
  - a class holding the `csp.valid` flags of the gate;
  - properties of the emitted routes.
- `Wrappers` (`wrappers.dfy`): `Option`.

Each input the engine receives becomes a parameter:

- a feed document;
- a snapshot dictionary;
- the set of keys that ticked in a cycle.

Two behaviours of the code are kept as written:

- The status basket never evicts a station once it is stored, because the
  node has no removal step. A station that leaves the feed keeps its last
  status.
- When the basket's shape ticks, only the added keys are recomputed. A known
  station that ticked in the same cycle keeps its old rate, and
  `Occupancy.StaleRateExample` exhibits this.

## Model

| member | source | states |
|---|---|---|
| StringOrder.LeReflexive | angel.py:25 | every id comes at or before itself under Python's string order |
| StringOrder.LeTotal | angel.py:25 | any two ids are comparable |
| StringOrder.LeAntisymmetric | angel.py:25 | two ids each at or before the other are equal |
| StringOrder.LeTransitive | angel.py:25 | the order is transitive |
| StringOrder.Least | angel.py:25 | a non-empty set of ids has a member at or before every member |
| StringOrder.SortedList | angel.py:25 | `sorted(list(s))` has exactly the members of `s`, as many entries as `s`, in strictly ascending order |
| Universe.StationUniverse | angel.py:22-25 | the universe of an info snapshot is strictly ascending, free of duplicates, holds exactly the snapshot's keys and has one entry per station |
| Universe.AscendingListIsUnique | angel.py:25 | two strictly ascending lists with the same members are equal, so the sorted order is unique |
| Universe.UniverseIsTheAscendingList | angel.py:22-25 | any strictly ascending list of exactly the snapshot's keys is the universe |
| GbfsAdapter.IndexById | dataloader/gbfsadapter.py:56-59 | the dictionary built by assigning each feed record under its `station_id` in list order; its keys, self-keying, last-wins and emptiness are the contracts of the four lemmas below, and those hold for the status feed (lines 102-106) too |
| GbfsAdapter.IndexByIdKeys | dataloader/gbfsadapter.py:56-59 | the keys of the built dictionary are exactly the `station_id`s in the feed list |
| GbfsAdapter.IndexByIdSelfKeyed | dataloader/gbfsadapter.py:56-59 | every record is stored under its own `station_id` |
| GbfsAdapter.IndexByIdLastWins | dataloader/gbfsadapter.py:102-106 | when an id repeats in the feed, the last record with that id is the one kept |
| GbfsAdapter.IndexByIdEmpty | dataloader/gbfsadapter.py:102-107 | the dictionary is empty exactly when the feed's station list is empty |
| GbfsAdapter.CollectById | dataloader/gbfsadapter.py:56-59 | the assignment loop builds exactly the id-keyed dictionary |
| GbfsAdapter.IsNewer | dataloader/gbfsadapter.py:52 | a stamp is accepted when no stamp was accepted before or it is strictly later than the last one; line 98 applies the same test |
| GbfsAdapter.Pushed | dataloader/gbfsadapter.py:81-83 | a result is pushed only when it is present and non-empty, and every such result is pushed unchanged |
| GbfsAdapter.StationInfoAdapter.constructor | dataloader/gbfsadapter.py:40-47 | the adapter starts with no last update time and no last tick |
| GbfsAdapter.StationInfoAdapter.GetNewData | dataloader/gbfsadapter.py:49-64 | a stamp not newer than the last accepted one returns None and changes nothing; a newer one is recorded (accepted stamps strictly increase) and the dictionary is returned unless it equals the last tick's, which returns None |
| GbfsAdapter.StationInfoAdapter.RunIteration | dataloader/gbfsadapter.py:78-84 | one loop pass performs the fetch transition and pushes only a non-empty result, so an empty feed is never pushed |
| GbfsAdapter.StationStatusAdapter.constructor | dataloader/gbfsadapter.py:87-93 | the adapter starts with no last update time |
| GbfsAdapter.StationStatusAdapter.GetNewData | dataloader/gbfsadapter.py:95-107 | a stale stamp returns None and changes nothing; a newer one is recorded and the full dictionary is returned with no comparison of content |
| GbfsAdapter.StationStatusAdapter.RunIteration | dataloader/gbfsadapter.py:121-127 | one loop pass performs the fetch transition and pushes only a non-empty result |
| StatusBasket.Emitted | angel.py:39-40 | output happens exactly when the changes are non-empty, and the output is the changes |
| StatusBasket.Delta | angel.py:34-38 | the changes hold exactly the new-or-changed ids: each is a snapshot entry with the snapshot's value that is new or differs from its stored status, and every snapshot entry left out is already stored with an equal status |
| StatusBasket.DeltaSuffices | angel.py:34-38 | applying only the emitted changes gives the same table as applying the whole snapshot |
| StatusBasket.DeltaOnlyChanges | angel.py:36-38 | every emitted entry is the snapshot's value and is new to the stored table or differs from its stored status, so applying the snapshot changes the table |
| StatusBasket.DeltaEmptyIff | angel.py:35-40 | nothing is emitted exactly when every id in the snapshot is stored with an equal status |
| StatusBasket.ReplayIsSilent | angel.py:33-40 | a snapshot delivered again right after itself emits nothing |
| StatusBasket.StatusDeltaTracker.constructor | angel.py:31-32 | the stored table starts empty |
| StatusBasket.StatusDeltaTracker.OnSnapshot | angel.py:33-40 | the output is the new-or-changed entries when there are any; the table becomes the old table overwritten by the snapshot; stations absent from the snapshot keep their stored status |
| StatusBasket.RepeatedSnapshot | angel.py:33-40 | feeding one snapshot twice makes the second tick silent |
| Occupancy.RateIsDisabledIff | angel.py:51-52 | a zero bikes-plus-docks sum gives the -1 sentinel; for non-negative counts the sentinel occurs only then |
| Occupancy.RateInUnitInterval | angel.py:53-54 | with non-negative counts and a non-zero sum the rate is in [0, 1], 0 exactly with no bikes and 1 exactly with no docks |
| Occupancy.Rate | angel.py:51-54 | the occupancy of one status: -1 when bikes plus docks is 0, otherwise 0 when there are no bikes, otherwise bikes over bikes plus docks; its range and sentinel are stated by the two lemmas above |
| Occupancy.Fires | angel.py:45 | the node acts when the basket's shape ticked or some key ticked |
| Occupancy.ChangedKeys | angel.py:47-48 | the keys recomputed are the added keys when the shape ticked, otherwise the keys that ticked |
| Occupancy.Updated | angel.py:45-61 | the rate basket after one cycle holds no key that was neither in it before nor recomputed; the lemmas below state what each key then holds |
| Occupancy.Output | angel.py:45-61 | the node returns only when it fires and the changes are non-empty, with exactly the recomputed keys each mapped to the rate of its current status, and it always returns when it fires with some key to recompute |
| Occupancy.UpdatedIsLocal | angel.py:45-61 | a key neither recomputed nor removed keeps its entry (or its absence) in the rate basket |
| Occupancy.UpdatedRecomputes | angel.py:47-55 | after a firing cycle, every recomputed key holds the rate of its current status |
| Occupancy.UpdatedEvicts | angel.py:56-59 | a key removed by a shape tick, and not added again in that cycle, is absent afterwards |
| Occupancy.TickKeepsConsistent | angel.py:47-55 | without a shape tick, a rate basket consistent with the status basket stays consistent, provided every changed station ticked |
| Occupancy.ShapeTickSkipsTickedKeys | angel.py:47-48 | in a shape-tick cycle a known station that ticked keeps its old rate |
| Occupancy.StaleRateExample | angel.py:47-48 | a concrete cycle in which the rate basket falls behind the status basket |
| Occupancy.RatesOf | angel.py:49-55 | the loop over the changed keys builds exactly the rate of each key |
| Occupancy.Evict | angel.py:57-59 | the removal loop leaves the table minus exactly the removed keys |
| Occupancy.OccupancyEngine.constructor | angel.py:43-44 | the downstream rate basket starts empty |
| Occupancy.OccupancyEngine.OnBasketTick | angel.py:43-61 | the rate basket becomes the old one minus the removed keys plus the recomputed rates, and the output is the node's output |
| Opportunities.Select | angel.py:87-89 | a list comprehension keeps exactly the members meeting the condition, is empty exactly when none does, and is no longer than its input |
| Opportunities.SelectCounts | angel.py:87-89 | each kept id occurs in the result as often as in the input, and a dropped id not at all |
| Opportunities.SelectAppend | angel.py:87-89 | filtering a concatenation is the concatenation of the filtered parts, so the kept ids stay in input order |
| Opportunities.SelectSingle | angel.py:87-89 | a one-element list keeps its element exactly when it meets the condition |
| Opportunities.FullStations | angel.py:87 | the full stations are exactly the matrix columns whose occupancy is present and at least `fullOR` |
| Opportunities.EmptyStations | angel.py:88-89 | the empty stations are exactly the columns whose occupancy is present, at most `emptyOR` and not -1, and there are none exactly when no column qualifies |
| Opportunities.NearestIndex | angel.py:90-91 | `idxmin` along a row gives the first column holding the least distance, and None only when there are no columns |
| Opportunities.NearestCandidate | angel.py:90-95 | a full station's row goes to an empty station at minimal distance and carries that distance |
| Opportunities.Candidates | angel.py:90-96 | there is one row per full station, in column order, each going to a nearest empty station; there are no rows when there is no empty station |
| Opportunities.AllCandidates | angel.py:86-91 | every candidate row of the matrix and occupancy table starts at a full station and ends at an empty one |
| Opportunities.SliceTo | angel.py:99 | Python's `[0:n]` keeps min(n, length) rows, and for negative `n` all but the last -n rows |
| Opportunities.SortByDistance | angel.py:97 | sorting in place leaves the array sorted by distance and a permutation of the original |
| Opportunities.RouteOf | angel.py:103-105 | the route of a joinable row carries the info and status records of both ends and the row's distance |
| Opportunities.MissingKey | angel.py:103-104 | for a row that cannot be joined, the reported id is one of its two ends and lacks an info or a status record; the order of the tests is the order in which the keyword arguments are evaluated |
| Opportunities.Package | angel.py:101-105 | either every kept row becomes a route joined with the info and status records stored under its ids, or the result is `KeyError` for the first missing id of the first row that cannot be joined |
| Opportunities.ComputeRoutes | angel.py:86-107 | the rows considered are a distance ranking of all candidate rows; the kept rows are the first `maxResults` of that ranking; the result is their join |
| Opportunities.InCandidates | angel.py:90-91 | every candidate row starts at a full station and goes to a nearest empty station |
| Opportunities.RankedAreEligible | angel.py:86-97 | every ranked row has a full origin in the matrix, an empty destination in the matrix, and the least distance from its origin to any empty station |
| Opportunities.ChosenAreSortedAndCapped | angel.py:97-99 | the kept rows stay sorted, number at most `maxResults` when that is non-negative, and come from the ranking |
| Opportunities.RoutesAreSortedAndCapped | angel.py:97-107 | the routes returned are themselves ordered by distance, number at most `maxResults` when that is non-negative, and each carries the distance of its kept row |
| Opportunities.SliceToWhole | angel.py:99 | a slice bound at or past the length keeps everything |
| Opportunities.ChosenAreNearest | angel.py:97-99 | every row dropped by the cut is at least as long as every row kept |
| Opportunities.NoEmptyStationNoRoute | angel.py:88-99 | with no empty station in the matrix, no route is produced |
| Opportunities.EveryFullStationIsRouted | angel.py:87-99 | when `maxResults` is at least the station count and some empty station exists, every full station is the origin of a kept row |
| Opportunities.DisabledStationIsNeverRouted | angel.py:87-89 | with `fullOR` above -1, no kept row starts or ends at a disabled station |
| Opportunities.ScenarioYieldsOneRoute | angel.py:83-99 | with stations A 0.97, B 0.5, C 0.02 and the default thresholds, the one route kept is A to C at 500 feet |
| Opportunities.OpportunityMatcher.constructor | angel.py:81-83 | the node keeps its thresholds, and no driving input has ticked yet |
| Opportunities.OpportunityMatcher.OnCycle | angel.py:85-107 | each input becomes valid once it ticks; the node computes exactly in cycles where a driving input ticked and all three are valid; the result is then the route computation, and any routes returned are ordered by distance and capped at `maxResults` |

## Left out

- The GBFS client, its HTTP fetch and its single-entry cache are not modelled. Each fetch is a `FeedDocument` parameter.
- Threads are not modelled: `start`, `stop`, the `_running` flag, `sleep` and `push_tick` delivery into the engine. `RunIteration` returns the tick it would push.
- The csp runtime is not modelled: graph wiring (`angel_main`), engine scheduling, and the merging of node outputs into dynamic baskets. For the occupancy basket, merging is written out as `OccupancyEngine.rates`.
- The `distances` node, with its haversine formula and pandas frame, is replaced by a `DistanceMatrix` parameter. It has column ids, and a non-negative distance for every pair of those ids.
- `broadcast_rides`, the output queue and the UI (`ui/app.py`) are not modelled. They are I/O.
- Logging is not modelled.
- Floating point is modelled as exact reals. `Rate` divides exactly, and distances and thresholds are reals.
- Opportunities.SortByDistance: pandas' sort is not stable. The contract leaves the order among equal distances open, so it says "a sorted permutation" and nothing more.
- Opportunities.NearestIndex: the first minimal column is chosen, as pandas does. NaN distances are not modelled.
- Opportunities.Candidates: with no empty station the model yields no rows. What `idxmin` and `min` do over zero columns is not modelled.
- Occupancy.Updated: a key both added and removed in one shape tick is evicted first, then set again. This follows the order of the calls in the node body, but the runtime's real merge order is not modelled.
- Occupancy.OnBasketTick: it requires each recomputed key to be present in the status basket. That is how the runtime presents the basket, so a lookup error there is not modelled.
- StatusBasket.StatusDeltaTracker: the loop visits the snapshot's ids in an unspecified order rather than dict insertion order. The result does not depend on the order.
- The station records hold the feed's values as given. Parsing them from JSON (`from_dict`) and malformed feeds are not modelled.
