/**
 * `parseIndicesBySystemList` with `is_activity`: per configured activity,
 * the (system name, cost index) pairs of tracked systems whose cost index
 * is above the display threshold, ranked largest first.
 */
module Aggregation {
  import opened Results
  import opened Seqs
  import opened Universe
  import opened Activities
  import opened Ranking

  /** One element of a system's `cost_indices` list. */
  datatype ActivityIndex = ActivityIndex(activity: string, costIndex: real)

  /** One element of the industry-systems payload. */
  datatype SystemIndices = SystemIndices(solarSystemId: int, costIndices: seq<ActivityIndex>)

  /** `is_activity(key)`: the entry belongs to the activity `key`. */
  predicate IsActivity(key: string, x: ActivityIndex) {
    x.activity == key
  }

  /** `list(filter(is_activity(key), ci))`. */
  function EntriesFor(ci: seq<ActivityIndex>, key: string): (r: seq<ActivityIndex>)
    ensures forall x :: x in r <==> x in ci && IsActivity(key, x)
    ensures r != [] ==> exists i :: 0 <= i < |ci| && ci[i] == r[0] && forall j :: 0 <= j < i ==> !IsActivity(key, ci[j])
  {
    if ci == [] then []
    else if IsActivity(key, ci[0]) then [ci[0]] + EntriesFor(ci[1..], key)
    else
      var rest := EntriesFor(ci[1..], key);
      assert rest != [] ==> rest[0] in rest;
      rest
  }

  /**
   * `cix[0]['cost_index']` when `cix` is non-empty: the cost index of the
   * first entry for `key`, later entries for the same key being ignored.
   */
  function FirstCost(ci: seq<ActivityIndex>, key: string): (r: Option<real>)
    ensures r.None? <==> forall i :: 0 <= i < |ci| ==> !IsActivity(key, ci[i])
    ensures r.Some? ==> exists i :: && 0 <= i < |ci| && ci[i] == ActivityIndex(key, r.value)
                                    && forall j :: 0 <= j < i ==> !IsActivity(key, ci[j])
  {
    var cix := EntriesFor(ci, key);
    if cix == [] then None
    else
      assert cix[0] in cix;
      Some(cix[0].costIndex)
  }

  /** The pair appended for index record `rec` and tracked system `sys`, if any. */
  function Appended(rec: SystemIndices, sys: SolarSystem, key: string, threshold: real): seq<Metric> {
    if rec.solarSystemId == sys.id then
      match FirstCost(rec.costIndices, key)
      case Some(v) => if v > threshold then [Metric(sys.name, v)] else []
      case None => []
    else []
  }

  /** The inner loop over the tracked systems for one index record. */
  function FromRecord(rec: SystemIndices, systems: seq<SolarSystem>, key: string, threshold: real): seq<Metric> {
    if systems == [] then []
    else Appended(rec, systems[0], key, threshold) + FromRecord(rec, systems[1..], key, threshold)
  }

  /** The list built for `key` before sorting, in append order. */
  function Collected(index: seq<SystemIndices>, systems: seq<SolarSystem>, key: string, threshold: real)
    : seq<Metric>
  {
    if index == [] then []
    else FromRecord(index[0], systems, key, threshold) + Collected(index[1..], systems, key, threshold)
  }

  /** The index record `index[i]` and the tracked system `systems[j]` yield the pair `m` for `key`. */
  ghost predicate Yields(index: seq<SystemIndices>, systems: seq<SolarSystem>, key: string, threshold: real,
                         i: int, j: int, m: Metric) {
    && 0 <= i < |index| && 0 <= j < |systems|
    && index[i].solarSystemId == systems[j].id
    && m.systemName == systems[j].name
    && FirstCost(index[i].costIndices, key) == Some(m.costIndex)
    && m.costIndex > threshold
  }

  lemma {:induction false} FromRecordMembers(rec: SystemIndices, systems: seq<SolarSystem>, key: string,
                                             threshold: real, m: Metric)
    ensures m in FromRecord(rec, systems, key, threshold) <==>
              exists j :: Yields([rec], systems, key, threshold, 0, j, m)
  {
    if systems != [] {
      FromRecordMembers(rec, systems[1..], key, threshold, m);
      assert systems[0].id == rec.solarSystemId && FirstCost(rec.costIndices, key) == Some(m.costIndex) && m.costIndex > threshold && m.systemName == systems[0].name
         ==> Appended(rec, systems[0], key, threshold) == [m];
      if m in Appended(rec, systems[0], key, threshold) {
        assert Yields([rec], systems, key, threshold, 0, 0, m);
      }
      if exists j :: Yields([rec], systems[1..], key, threshold, 0, j, m) {
        var j :| Yields([rec], systems[1..], key, threshold, 0, j, m);
        assert Yields([rec], systems, key, threshold, 0, j + 1, m);
      }
      if exists j :: Yields([rec], systems, key, threshold, 0, j, m) {
        var j :| Yields([rec], systems, key, threshold, 0, j, m);
        if j > 0 {
          assert Yields([rec], systems[1..], key, threshold, 0, j - 1, m);
        }
      }
    }
  }

  /**
   * A pair is collected for `key` exactly when some index record matches
   * some tracked system by id, the record's first entry for `key` carries
   * that cost index, and the cost index is strictly above the threshold.
   */
  lemma {:induction false} CollectedMembers(index: seq<SystemIndices>, systems: seq<SolarSystem>, key: string,
                                            threshold: real, m: Metric)
    ensures m in Collected(index, systems, key, threshold) <==>
              exists i, j :: Yields(index, systems, key, threshold, i, j, m)
  {
    if index != [] {
      CollectedMembers(index[1..], systems, key, threshold, m);
      FromRecordMembers(index[0], systems, key, threshold, m);
      if m in FromRecord(index[0], systems, key, threshold) {
        var j :| Yields([index[0]], systems, key, threshold, 0, j, m);
        assert Yields(index, systems, key, threshold, 0, j, m);
      }
      if m in Collected(index[1..], systems, key, threshold) {
        var i, j :| Yields(index[1..], systems, key, threshold, i, j, m);
        assert Yields(index, systems, key, threshold, i + 1, j, m);
      }
      if exists i, j :: Yields(index, systems, key, threshold, i, j, m) {
        var i, j :| Yields(index, systems, key, threshold, i, j, m);
        if i == 0 {
          assert Yields([index[0]], systems, key, threshold, 0, j, m);
        } else {
          assert Yields(index[1..], systems, key, threshold, i - 1, j, m);
        }
      }
    }
  }

  /**
   * `indices_list`: one entry per configured key, present even when
   * nothing qualifies, holding the collected pairs ranked largest first.
   */
  function Aggregate(index: seq<SystemIndices>, systems: seq<SolarSystem>, cfg: Config, threshold: real)
    : (r: map<string, seq<Metric>>)
    ensures forall k :: k in r <==> k in Keys(cfg)
    ensures forall k :: k in r ==>
              var before := Collected(index, systems, k, threshold);
              && NonIncreasing(r[k])
              && multiset(r[k]) == multiset(before)
              && (forall c :: WithCost(r[k], c) == Reverse(WithCost(before, c)))
  {
    map k | k in Keys(cfg) :: Rank(Collected(index, systems, k, threshold))
  }

  /** No ranked pair is at or below the threshold. */
  lemma AggregateAboveThreshold(index: seq<SystemIndices>, systems: seq<SolarSystem>, cfg: Config,
                                threshold: real, k: string, m: Metric)
    requires k in Aggregate(index, systems, cfg, threshold)
    requires m in Aggregate(index, systems, cfg, threshold)[k]
    ensures m.costIndex > threshold
    ensures exists i, j :: Yields(index, systems, k, threshold, i, j, m)
  {
    var r := Aggregate(index, systems, cfg, threshold);
    assert m in multiset(r[k]);
    CollectedMembers(index, systems, k, threshold, m);
  }
}
