/**
 * The `stationOccupancyRates` node of angel.py.  It turns the status of each
 * changed station into an occupancy rate and evicts removed stations.  The
 * rates it returns are merged by the runtime into a cumulative keyed table,
 * which this model keeps explicitly in `OccupancyEngine.rates`.
 */
module Occupancy {
  import opened Wrappers
  import opened GbfsAdapter

  /** The rate of a disabled station: no bikes and no docks available. */
  const Disabled: real := -1.0

  /** `bikes / (bikes + docks)`, exactly 0 when there are no bikes, and -1 when the sum is 0. */
  function Rate(s: StationStatus): real {
    var bikes, docks := s.numBikesAvailable, s.numDocksAvailable;
    if bikes + docks == 0 then Disabled
    else if bikes == 0 then 0.0
    else (bikes as real) / ((bikes + docks) as real)
  }

  /**
   * The sentinel marks exactly the stations with no bikes and no docks.  A
   * zero sum always gives the sentinel; the converse needs the feed's counts
   * to be non-negative (with 1 bike and -2 docks the ratio is -1 too).
   */
  lemma RateIsDisabledIff(s: StationStatus)
    ensures s.numBikesAvailable + s.numDocksAvailable == 0 ==> Rate(s) == Disabled
    ensures s.numBikesAvailable >= 0 && s.numDocksAvailable >= 0 ==>
      (Rate(s) == Disabled <==> s.numBikesAvailable + s.numDocksAvailable == 0)
  {
  }

  /** Any other rate of non-negative counts is a fraction in [0, 1]: 0 with no bikes, 1 with no docks. */
  lemma RateInUnitInterval(s: StationStatus)
    requires s.numBikesAvailable >= 0 && s.numDocksAvailable >= 0
    requires s.numBikesAvailable + s.numDocksAvailable != 0
    ensures 0.0 <= Rate(s) <= 1.0
    ensures Rate(s) == 0.0 <==> s.numBikesAvailable == 0
    ensures Rate(s) == 1.0 <==> s.numDocksAvailable == 0
  {
    var bikes, docks := s.numBikesAvailable as real, s.numDocksAvailable as real;
    if bikes != 0.0 {
      assert Rate(s) == bikes / (bikes + docks);
      assert Rate(s) * (bikes + docks) == bikes;
    }
  }

  /**
   * What the node sees of its input basket in one cycle: whether the shape
   * ticked (with the keys it added and removed) and which keys ticked.
   */
  datatype BasketTick = BasketTick(shapeTicked: bool, added: seq<StationId>, removed: seq<StationId>, ticked: seq<StationId>)

  /** `csp.ticked(stationStatus.shape) or csp.ticked(stationStatus)`. */
  predicate Fires(t: BasketTick) {
    t.shapeTicked || |t.ticked| > 0
  }

  /** The keys recomputed: the added keys when the shape ticked, the ticked keys otherwise. */
  function ChangedKeys(t: BasketTick): seq<StationId> {
    if t.shapeTicked then t.added else t.ticked
  }

  /** Every recomputed key has a current value in the basket. */
  predicate KeysPresent(t: BasketTick, basket: map<StationId, StationStatus>) {
    forall k :: k in ChangedKeys(t) ==> k in basket
  }

  /** The `changes` dictionary built for `keys`. */
  function RatesFor(keys: seq<StationId>, basket: map<StationId, StationStatus>): map<StationId, real>
    requires forall k :: k in keys ==> k in basket
  {
    map k | k in keys :: Rate(basket[k])
  }

  /** The ids listed in `keys`. */
  function KeySet(keys: seq<StationId>): set<StationId> {
    set k | k in keys
  }

  lemma KeySetSnoc(keys: seq<StationId>, i: nat)
    requires i < |keys|
    ensures KeySet(keys[..i + 1]) == KeySet(keys[..i]) + {keys[i]}
  {
    assert keys[..i + 1] == keys[..i] + [keys[i]];
  }

  lemma EvictOne(m: map<StationId, real>, gone: set<StationId>, k: StationId)
    ensures (m - gone) - {k} == m - (gone + {k})
  {
    var lhs, rhs := (m - gone) - {k}, m - (gone + {k});
    assert lhs.Keys == rhs.Keys;
    forall j | j in lhs ensures lhs[j] == rhs[j] {
    }
  }

  /** The keys evicted in this cycle. */
  function Evicted(t: BasketTick): set<StationId> {
    if t.shapeTicked then KeySet(t.removed) else {}
  }

  /**
   * The cumulative rate table after one cycle: removed keys are evicted
   * (`remove_dynamic_key`, executed first), then the returned changes are
   * merged in.
   */
  function Updated(rates: map<StationId, real>, t: BasketTick, basket: map<StationId, StationStatus>): (after: map<StationId, real>)
    requires KeysPresent(t, basket)
    ensures forall k :: k in after ==> k in rates || k in ChangedKeys(t)
  {
    if Fires(t) then (rates - Evicted(t)) + RatesFor(ChangedKeys(t), basket) else rates
  }

  /** The node's output: the changes, when there are any. */
  function Output(t: BasketTick, basket: map<StationId, StationStatus>): (out: Option<map<StationId, real>>)
    requires KeysPresent(t, basket)
    ensures out.Some? ==> Fires(t) && |out.value| > 0 && out.value.Keys == KeySet(ChangedKeys(t))
    ensures out.Some? ==> forall k :: k in out.value ==> out.value[k] == Rate(basket[k])
    ensures Fires(t) && ChangedKeys(t) != [] ==> out.Some?
  {
    var changes := RatesFor(ChangedKeys(t), basket);
    assert ChangedKeys(t) != [] ==> ChangedKeys(t)[0] in changes;
    if Fires(t) && |changes| > 0 then Some(changes) else None
  }

  /** Only recomputed and evicted keys change; every other entry stays as it was. */
  lemma UpdatedIsLocal(rates: map<StationId, real>, t: BasketTick, basket: map<StationId, StationStatus>, k: StationId)
    requires KeysPresent(t, basket)
    requires k !in ChangedKeys(t) && k !in Evicted(t)
    ensures k in Updated(rates, t, basket) <==> k in rates
    ensures k in rates ==> Updated(rates, t, basket)[k] == rates[k]
  {
  }

  /** Every recomputed key holds the rate of its current status. */
  lemma UpdatedRecomputes(rates: map<StationId, real>, t: BasketTick, basket: map<StationId, StationStatus>, k: StationId)
    requires KeysPresent(t, basket) && Fires(t)
    requires k in ChangedKeys(t)
    ensures k in Updated(rates, t, basket) && Updated(rates, t, basket)[k] == Rate(basket[k])
  {
  }

  /** A removed key is absent afterwards, unless the same cycle also added it. */
  lemma UpdatedEvicts(rates: map<StationId, real>, t: BasketTick, basket: map<StationId, StationStatus>, k: StationId)
    requires KeysPresent(t, basket) && t.shapeTicked
    requires k in t.removed && k !in t.added
    ensures k !in Updated(rates, t, basket)
  {
  }

  /** The table matches the current status of every station it holds. */
  ghost predicate Consistent(rates: map<StationId, real>, basket: map<StationId, StationStatus>) {
    forall k :: k in rates ==> k in basket && rates[k] == Rate(basket[k])
  }

  /**
   * Without a shape tick the table stays consistent with the basket when
   * every station whose status changed also ticked.
   */
  lemma TickKeepsConsistent(rates: map<StationId, real>, before: map<StationId, StationStatus>,
                            t: BasketTick, basket: map<StationId, StationStatus>)
    requires Consistent(rates, before) && !t.shapeTicked && KeysPresent(t, basket)
    requires forall k :: k in before ==> k in basket
    requires forall k :: k in before && basket[k] != before[k] ==> k in t.ticked
    ensures Consistent(Updated(rates, t, basket), basket)
  {
    var after := Updated(rates, t, basket);
    forall k | k in after ensures k in basket && after[k] == Rate(basket[k]) {
      if k !in t.ticked {
        assert k in rates;
      }
    }
  }

  /**
   * When the shape ticks, only the added keys are recomputed: a known
   * station that ticked in the same cycle keeps its old rate, so the table
   * can fall behind the basket.
   */
  lemma ShapeTickSkipsTickedKeys(rates: map<StationId, real>, t: BasketTick, basket: map<StationId, StationStatus>, k: StationId)
    requires KeysPresent(t, basket) && t.shapeTicked
    requires k in t.ticked && k !in t.added && k !in t.removed && k in rates
    ensures k in Updated(rates, t, basket) && Updated(rates, t, basket)[k] == rates[k]
  {
    UpdatedIsLocal(rates, t, basket, k);
  }

  /** A concrete cycle in which the table falls behind the basket. */
  lemma StaleRateExample()
    ensures var a := StationStatus("a", 0, 0, 5, 0, 0);
      var b := StationStatus("b", 3, 0, 2, 0, 0);
      var b' := StationStatus("b", 5, 0, 0, 0, 0);
      var t := BasketTick(true, ["a"], [], ["a", "b"]);
      && Consistent(map["b" := Rate(b)], map["b" := b])
      && !Consistent(Updated(map["b" := Rate(b)], t, map["a" := a, "b" := b']), map["a" := a, "b" := b'])
  {
    var b := StationStatus("b", 3, 0, 2, 0, 0);
    var b' := StationStatus("b", 5, 0, 0, 0, 0);
    var a := StationStatus("a", 0, 0, 5, 0, 0);
    var t := BasketTick(true, ["a"], [], ["a", "b"]);
    var after := Updated(map["b" := Rate(b)], t, map["a" := a, "b" := b']);
    assert Rate(b) == 3.0 / 5.0;
    assert Rate(b') == 1.0;
    assert "b" !in ChangedKeys(t);
    assert "b" in after && after["b"] == Rate(b);
  }

  /** The loop `for key in changed_keys: changes[key] = occr`. */
  method RatesOf(keys: seq<StationId>, basket: map<StationId, StationStatus>) returns (changes: map<StationId, real>)
    requires forall k :: k in keys ==> k in basket
    ensures changes == RatesFor(keys, basket)
  {
    changes := map[];
    for i := 0 to |keys|
      invariant changes == RatesFor(keys[..i], basket)
    {
      var key := keys[i];
      var occr := Rate(basket[key]);
      assert keys[..i + 1] == keys[..i] + [key];
      assert RatesFor(keys[..i + 1], basket) == changes[key := occr];
      changes := changes[key := occr];
    }
    assert keys[..|keys|] == keys;
  }

  /** The loop `for key in shape.removed: remove_dynamic_key(key)` on the downstream table. */
  method Evict(table: map<StationId, real>, keys: seq<StationId>) returns (kept: map<StationId, real>)
    ensures kept == table - KeySet(keys)
  {
    kept := table;
    assert KeySet(keys[..0]) == {};
    assert table - {} == table;
    for i := 0 to |keys|
      invariant kept == table - KeySet(keys[..i])
    {
      KeySetSnoc(keys, i);
      EvictOne(table, KeySet(keys[..i]), keys[i]);
      kept := kept - {keys[i]};
    }
    assert keys[..|keys|] == keys;
  }

  /** The table after a cycle in which the node fires. */
  lemma FiringTable(rates: map<StationId, real>, t: BasketTick, basket: map<StationId, StationStatus>,
                    kept: map<StationId, real>, changes: map<StationId, real>)
    requires KeysPresent(t, basket) && Fires(t)
    requires kept == if t.shapeTicked then rates - KeySet(t.removed) else rates
    requires changes == RatesFor(ChangedKeys(t), basket)
    ensures Updated(rates, t, basket) == kept + changes
  {
    if !t.shapeTicked {
      assert rates - {} == rates;
    }
  }

  class OccupancyEngine {
    /** The cumulative occupancy basket downstream of the node. */
    var rates: map<StationId, real>

    constructor ()
      ensures rates == map[]
    {
      rates := map[];
    }

    /** One cycle of the node. */
    method OnBasketTick(t: BasketTick, basket: map<StationId, StationStatus>) returns (out: Option<map<StationId, real>>)
      requires KeysPresent(t, basket)
      modifies this
      ensures rates == Updated(old(rates), t, basket)
      ensures out == Output(t, basket)
    {
      if !Fires(t) {
        return None;
      }
      var changes := RatesOf(ChangedKeys(t), basket);
      var kept := rates;
      if t.shapeTicked {
        kept := Evict(rates, t.removed);
      }
      FiringTable(rates, t, basket, kept, changes);
      rates := kept + changes;
      out := if |changes| > 0 then Some(changes) else None;
    }
  }
}
