/**
 * The `stationStatusDynBasket` node of angel.py: it remembers the last status
 * seen for every station and emits only the entries of a snapshot that are
 * new or differ from what it remembers.
 */
module StatusBasket {
  import opened Wrappers
  import opened GbfsAdapter

  /** The entries of `snapshot` whose id is new to `stored` or whose status differs. */
  function Delta(stored: map<StationId, StationStatus>, snapshot: map<StationId, StationStatus>): (changes: map<StationId, StationStatus>)
    ensures forall k :: k in changes ==> k in snapshot && changes[k] == snapshot[k]
    ensures forall k :: k in changes ==> k !in stored || stored[k] != snapshot[k]
    ensures forall k :: k in snapshot && k !in changes ==> k in stored && stored[k] == snapshot[k]
  {
    map k | k in snapshot && (k !in stored || stored[k] != snapshot[k]) :: snapshot[k]
  }

  /** `if len(changes) > 0: csp.output(changes)`. */
  function Emitted(changes: map<StationId, StationStatus>): (out: Option<map<StationId, StationStatus>>)
    ensures out.Some? <==> changes != map[]
    ensures out.Some? ==> out.value == changes
  {
    if |changes| > 0 then Some(changes) else None
  }

  /**
   * Applying only the delta to the stored table gives the same table as
   * applying the whole snapshot: nothing unchanged needs to be re-sent.
   */
  lemma DeltaSuffices(stored: map<StationId, StationStatus>, snapshot: map<StationId, StationStatus>)
    ensures stored + Delta(stored, snapshot) == stored + snapshot
  {
    var lhs, rhs := stored + Delta(stored, snapshot), stored + snapshot;
    forall k | k in rhs ensures k in lhs && lhs[k] == rhs[k] {
      if k in snapshot && k in stored && stored[k] == snapshot[k] {
        assert k !in Delta(stored, snapshot);
      }
    }
    assert lhs.Keys == rhs.Keys;
  }

  /** Every emitted entry is new or differs from the stored one, so it changes the stored table. */
  lemma DeltaOnlyChanges(stored: map<StationId, StationStatus>, snapshot: map<StationId, StationStatus>, k: StationId)
    requires k in Delta(stored, snapshot)
    ensures k in snapshot && Delta(stored, snapshot)[k] == snapshot[k]
    ensures k !in stored || stored[k] != snapshot[k]
    ensures (stored + snapshot) != stored
  {
    assert (stored + snapshot)[k] == snapshot[k];
  }

  /** Nothing is emitted exactly when every id of the snapshot is stored with the same status. */
  lemma DeltaEmptyIff(stored: map<StationId, StationStatus>, snapshot: map<StationId, StationStatus>)
    ensures Delta(stored, snapshot) == map[] <==> forall k :: k in snapshot ==> k in stored && stored[k] == snapshot[k]
  {
    if Delta(stored, snapshot) == map[] {
      forall k | k in snapshot ensures k in stored && stored[k] == snapshot[k] {
        assert k !in Delta(stored, snapshot);
      }
    }
  }

  /** Feeding the same snapshot a second time emits nothing. */
  lemma ReplayIsSilent(stored: map<StationId, StationStatus>, snapshot: map<StationId, StationStatus>)
    ensures Delta(stored + snapshot, snapshot) == map[]
    ensures Emitted(Delta(stored + snapshot, snapshot)) == None
  {
    DeltaEmptyIff(stored + snapshot, snapshot);
  }

  /** One iteration of the loop over the snapshot: id `k` moves from `remaining` to done. */
  lemma StepOne(stored: map<StationId, StationStatus>, snapshot: map<StationId, StationStatus>,
                remaining: set<StationId>, k: StationId)
    requires remaining <= snapshot.Keys && k in remaining
    ensures var table := stored + (snapshot - remaining);
      && (k in table ==> table[k] == stored[k])
      && (k !in table ==> k !in stored)
    ensures var table := stored + (snapshot - remaining);
      var changed := k !in table || table[k] != snapshot[k];
      && stored + (snapshot - (remaining - {k})) == (if changed then table[k := snapshot[k]] else table)
      && Delta(stored, snapshot - (remaining - {k}))
         == (if changed then Delta(stored, snapshot - remaining)[k := snapshot[k]] else Delta(stored, snapshot - remaining))
  {
    var done0, done1 := snapshot - remaining, snapshot - (remaining - {k});
    assert done1 == done0[k := snapshot[k]];
    var table := stored + done0;
    var changed := k !in table || table[k] != snapshot[k];
    if !changed {
      assert table[k := snapshot[k]] == table;
    }
    var d0, d1 := Delta(stored, done0), Delta(stored, done1);
    if changed {
      assert d1 == d0[k := snapshot[k]];
    } else {
      assert d1 == d0;
    }
  }

  class StatusDeltaTracker {
    /** `_sow_status`: the last status seen per station. */
    var sowStatus: map<StationId, StationStatus>

    constructor ()
      ensures sowStatus == map[]
    {
      sowStatus := map[];
    }

    /** One tick of the status snapshot. */
    method OnSnapshot(stationStatus: map<StationId, StationStatus>) returns (out: Option<map<StationId, StationStatus>>)
      modifies this
      ensures out == Emitted(Delta(old(sowStatus), stationStatus))
      ensures sowStatus == old(sowStatus) + stationStatus
      ensures forall k :: k in old(sowStatus) && k !in stationStatus ==> k in sowStatus && sowStatus[k] == old(sowStatus)[k]
    {
      ghost var stored := sowStatus;
      var changes := map[];
      var remaining := stationStatus.Keys;
      while remaining != {}
        invariant remaining <= stationStatus.Keys
        invariant changes == Delta(stored, stationStatus - remaining)
        invariant sowStatus == stored + (stationStatus - remaining)
        decreases remaining
      {
        var k :| k in remaining;
        var v := stationStatus[k];
        StepOne(stored, stationStatus, remaining, k);
        if k !in sowStatus || sowStatus[k] != v {
          changes := changes[k := v];
          sowStatus := sowStatus[k := v];
        }
        remaining := remaining - {k};
      }
      assert stationStatus - {} == stationStatus;
      out := Emitted(changes);
    }
  }

  /** The scenario of a repeated snapshot: the second delivery emits nothing. */
  method RepeatedSnapshot(tracker: StatusDeltaTracker, snapshot: map<StationId, StationStatus>)
    returns (first: Option<map<StationId, StationStatus>>, second: Option<map<StationId, StationStatus>>)
    modifies tracker
    ensures second == None
    ensures tracker.sowStatus == old(tracker.sowStatus) + snapshot
  {
    first := tracker.OnSnapshot(snapshot);
    second := tracker.OnSnapshot(snapshot);
    ReplayIsSilent(old(tracker.sowStatus), snapshot);
    assert tracker.sowStatus == old(tracker.sowStatus) + snapshot + snapshot;
  }
}
