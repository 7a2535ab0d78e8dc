/** The `station_universe` node of angel.py: the sorted id list of an info snapshot. */
module Universe {
  import opened GbfsAdapter
  import StringOrder

  /**
   * `sorted(list(stationInfo.keys()))`, produced on every tick of the info
   * snapshot: ascending, free of duplicates, and holding exactly the keys.
   */
  ghost function StationUniverse(stationInfo: map<StationId, StationInfo>): (ids: seq<StationId>)
    ensures StringOrder.StrictlyAscending(ids)
    ensures forall i, j :: 0 <= i < j < |ids| ==> ids[i] != ids[j]
    ensures forall k :: k in ids <==> k in stationInfo
    ensures |ids| == |stationInfo|
  {
    StringOrder.SortedList(stationInfo.Keys)
  }

  /**
   * The order is deterministic: any strictly ascending list holding the same
   * ids is the universe itself.
   */
  lemma {:induction false} AscendingListIsUnique(a: seq<StationId>, b: seq<StationId>)
    requires StringOrder.StrictlyAscending(a) && StringOrder.StrictlyAscending(b)
    requires forall k :: k in a <==> k in b
    ensures a == b
    decreases |a|
  {
    if a != [] && b != [] {
      forall k | k in a[1..] ensures StringOrder.Lt(a[0], k) {
        var i :| 1 <= i < |a| && a[i] == k;
      }
      forall k | k in b[1..] ensures StringOrder.Lt(b[0], k) {
        var i :| 1 <= i < |b| && b[i] == k;
      }
      if a[0] != b[0] {
        assert b[0] in a && a[0] in b;
        assert StringOrder.Lt(a[0], b[0]) && StringOrder.Lt(b[0], a[0]);
        StringOrder.LeAntisymmetric(a[0], b[0]);
        assert false;
      }
      forall k ensures k in a[1..] <==> k in b[1..] {
        if k in a[1..] {
          assert k in b && k != b[0];
          var i :| 0 <= i < |b| && b[i] == k;
          assert i != 0;
        }
        if k in b[1..] {
          assert k in a && k != a[0];
          var i :| 0 <= i < |a| && a[i] == k;
          assert i != 0;
        }
      }
      AscendingListIsUnique(a[1..], b[1..]);
      assert a == [a[0]] + a[1..] && b == [b[0]] + b[1..];
    } else if a != [] {
      HeadIsMember(a);
      assert false;
    } else if b != [] {
      HeadIsMember(b);
      assert false;
    }
  }

  /**
   * Names the head of a list as one of its members, so the impossible cases
   * above see it without indexing a list the context already rules out.
   */
  lemma HeadIsMember(s: seq<StationId>)
    ensures s != [] ==> s[0] in s
  {
  }

  lemma UniverseIsTheAscendingList(stationInfo: map<StationId, StationInfo>, ids: seq<StationId>)
    requires StringOrder.StrictlyAscending(ids)
    requires forall k :: k in ids <==> k in stationInfo
    ensures ids == StationUniverse(stationInfo)
  {
    AscendingListIsUnique(ids, StationUniverse(stationInfo));
  }
}
