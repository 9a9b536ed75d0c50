/**
 * Properties of the aggregation in app.py: how merges add up, what a
 * `KeyError` leaves behind, and what the archive holds.
 */
module AppProperties {
  import opened Wrappers
  import opened Prediction
  import opened App

  /** Every stored count is non-negative. */
  ghost predicate NonNegative(t: Table)
  {
    forall loc, k :: loc in t.entries && k in t.entries[loc] ==> t.entries[loc][k] >= 0
  }

  ghost predicate NonNegativeCounts(c: Counts)
  {
    forall k :: k in c ==> c[k] >= 0
  }

  /** `u` keeps every location and category of `t`, and no count of `t` went down. */
  ghost predicate Grows(t: Table, u: Table)
  {
    forall loc :: loc in t.entries ==>
      && loc in u.entries
      && (forall k :: k in t.entries[loc] ==> k in u.entries[loc] && t.entries[loc][k] <= u.entries[loc][k])
  }

  lemma GrowsTransitive(t: Table, u: Table, v: Table)
    requires Grows(t, u) && Grows(u, v)
    ensures Grows(t, v)
  {
  }

  /** A merge of non-negative counts keeps all counts non-negative and lowers none of them. */
  lemma MergeGrows(t: Table, location: string, delta: Counts)
    requires NonNegative(t) && NonNegativeCounts(delta)
    requires MergeInto(t, location, delta).Some?
    ensures NonNegative(MergeInto(t, location, delta).value)
    ensures Grows(t, MergeInto(t, location, delta).value)
  {
  }

  /**
   * Between two resets counts only grow: whatever the cycle merges, and
   * wherever it stops, every count stays non-negative and none decreases.
   */
  lemma {:induction false} ApplyDeltasGrows(t: Table, ds: seq<Delta>)
    requires NonNegative(t)
    requires forall k :: 0 <= k < |ds| ==> NonNegativeCounts(ds[k].counts)
    ensures NonNegative(ApplyDeltas(t, ds).table)
    ensures Grows(t, ApplyDeltas(t, ds).table)
    decreases |ds|
  {
    if ds != [] {
      var init, d := ds[..|ds| - 1], ds[|ds| - 1];
      ApplyDeltasGrows(t, init);
      var before := ApplyDeltas(t, init);
      if before.completed && MergeInto(before.table, d.location, d.counts).Some? {
        MergeGrows(before.table, d.location, d.counts);
        GrowsTransitive(t, before.table, MergeInto(before.table, d.location, d.counts).value);
      }
    }
  }

  /**
   * Merging `d1` and then `d2` into an entry that has all their categories is
   * the same as merging their per-category sum once.
   */
  lemma MergeTwiceIsMergeOfSum(t: Table, location: string, d1: Counts, d2: Counts)
    requires location in t.entries
    requires d1.Keys <= t.entries[location].Keys && d2.Keys <= t.entries[location].Keys
    ensures MergeInto(t, location, d1).Some?
    ensures MergeInto(MergeInto(t, location, d1).value, location, d2) == MergeInto(t, location, Sum(d1, d2))
  {
    var entry := t.entries[location];
    var once := AddCounts(entry, d1);
    assert MergeInto(t, location, d1).value.entries[location] == once;
    var twice, summed := AddCounts(once, d2), AddCounts(entry, Sum(d1, d2));
    assert twice.Keys == summed.Keys;
    forall k | k in twice
      ensures twice[k] == summed[k]
    {
    }
    assert twice == summed;
    assert Sum(d1, d2).Keys <= entry.Keys;
    assert t.entries[location := once][location := twice] == t.entries[location := summed];
  }

  /** For entries that have their categories, the order of two merges does not matter. */
  lemma MergeOrderIrrelevant(t: Table, location: string, d1: Counts, d2: Counts)
    requires location in t.entries
    requires d1.Keys <= t.entries[location].Keys && d2.Keys <= t.entries[location].Keys
    ensures MergeInto(t, location, d1).Some? && MergeInto(t, location, d2).Some?
    ensures MergeInto(MergeInto(t, location, d1).value, location, d2)
         == MergeInto(MergeInto(t, location, d2).value, location, d1)
  {
    MergeTwiceIsMergeOfSum(t, location, d1, d2);
    MergeTwiceIsMergeOfSum(t, location, d2, d1);
    assert Sum(d1, d2) == Sum(d2, d1);
  }

  /** Every entry of the table has the shape of a `predict_vehicles` result. */
  ghost predicate PipelineShaped(t: Table)
  {
    forall loc :: loc in t.entries ==> Shaped(t.entries[loc])
  }

  /**
   * With entries and deltas shaped like `predict_vehicles` results, a merge
   * raises `KeyError` exactly when the location's entry is the empty result of
   * a failed prediction and the delta is not; otherwise every entry keeps that
   * shape. The failing merge then raises on its very first category, so no
   * count of it has been added.
   */
  lemma PipelineMerge(t: Table, location: string, delta: Counts)
    requires PipelineShaped(t) && Shaped(delta)
    ensures MergeInto(t, location, delta).None? <==>
      location in t.entries && t.entries[location] == map[] && delta != map[]
    ensures MergeInto(t, location, delta).Some? ==> PipelineShaped(MergeInto(t, location, delta).value)
  {
  }

  /**
   * Once a location's entry is the empty result of a failed prediction, it
   * stays empty for the rest of the window, whatever the cycle merges.
   */
  lemma {:induction false} EmptyEntryStaysEmpty(t: Table, location: string, ds: seq<Delta>)
    requires PipelineShaped(t)
    requires forall k :: 0 <= k < |ds| ==> Shaped(ds[k].counts)
    requires location in t.entries && t.entries[location] == map[]
    ensures PipelineShaped(ApplyDeltas(t, ds).table)
    ensures location in ApplyDeltas(t, ds).table.entries && ApplyDeltas(t, ds).table.entries[location] == map[]
    decreases |ds|
  {
    if ds != [] {
      var init, d := ds[..|ds| - 1], ds[|ds| - 1];
      EmptyEntryStaysEmpty(t, location, init);
      var before := ApplyDeltas(t, init);
      if before.completed {
        PipelineMerge(before.table, d.location, d.counts);
        MergeIntoSpec(before.table, d.location, d.counts);
        if MergeInto(before.table, d.location, d.counts).Some? && d.location == location {
          assert d.counts == map[];
          var u := MergeInto(before.table, d.location, d.counts).value;
          assert u.entries[location].Keys == {};
        }
      }
    }
  }

  /**
   * The merges of an abandoned cycle up to the first `KeyError` stay applied;
   * that merge and everything after it is dropped.
   */
  lemma {:induction false} ApplyDeltasStopsAtFirstKeyError(t: Table, ds: seq<Delta>)
    requires !ApplyDeltas(t, ds).completed
    ensures exists n :: (
      && 0 <= n < |ds|
      && ApplyDeltas(t, ds[..n]).completed
      && MergeInto(ApplyDeltas(t, ds[..n]).table, ds[n].location, ds[n].counts).None?
      && ApplyDeltas(t, ds).table == ApplyDeltas(t, ds[..n]).table)
    decreases |ds|
  {
    var init := ds[..|ds| - 1];
    var before := ApplyDeltas(t, init);
    if before.completed {
      var n := |ds| - 1;
      assert ds[..n] == init;
    } else {
      ApplyDeltasStopsAtFirstKeyError(t, init);
      var n :| 0 <= n < |init|
        && ApplyDeltas(t, init[..n]).completed
        && MergeInto(ApplyDeltas(t, init[..n]).table, init[n].location, init[n].counts).None?
        && before.table == ApplyDeltas(t, init[..n]).table;
      assert ds[..n] == init[..n] && ds[n] == init[n];
    }
  }

  /** An image whose download failed adds no merge to the cycle. */
  lemma FailedDownloadMergesNothing(location: string, a: seq<Option<Counts>>, b: seq<Option<Counts>>)
    ensures CameraDeltas(location, a + [None] + b) == CameraDeltas(location, a + b)
  {
    var none: seq<Option<Counts>> := [None];
    CameraDeltasAppend(location, a + none, b);
    CameraDeltasAppend(location, a, none);
    CameraDeltasAppend(location, a, b);
    assert CameraDeltas(location, none) == [] by {
      assert none[..0] == [];
    }
  }

  lemma {:induction false} RecordsOfAt(order: seq<string>, entries: map<string, Counts>)
    requires forall k :: 0 <= k < |order| ==> order[k] in entries
    ensures forall i :: 0 <= i < |order| ==> RecordsOf(order, entries)[i] == Record(order[i], entries[order[i]])
  {
    if order != [] {
      RecordsOfAt(order[..|order| - 1], entries);
    }
  }

  /**
   * The archive is the table: one record per location, no location twice,
   * each with the counts the table holds for it.
   */
  lemma ArchiveIsTable(t: Table)
    requires WellFormed(t)
    ensures forall i :: 0 <= i < |Records(t)| ==>
      Records(t)[i].location in t.entries && Records(t)[i].counts == t.entries[Records(t)[i].location]
    ensures forall loc :: loc in t.entries ==> exists i :: 0 <= i < |Records(t)| && Records(t)[i].location == loc
    ensures forall i, j :: 0 <= i < j < |Records(t)| ==> Records(t)[i].location != Records(t)[j].location
  {
    RecordsOfAt(t.order, t.entries);
    forall loc | loc in t.entries
      ensures exists i :: 0 <= i < |Records(t)| && Records(t)[i].location == loc
    {
      var i :| 0 <= i < |t.order| && t.order[i] == loc;
      assert Records(t)[i].location == loc;
    }
  }

  /**
   * The two Woodlands cameras share one entry: 2 cars from one and 3 cars and
   * a bus from the other add up to 5 cars and a bus.
   */
  lemma WoodlandsScenario()
    ensures
      var c1 := map["car" := 2, "bus" := 0, "truck" := 0, "motorcycle" := 0];
      var c2 := map["car" := 3, "bus" := 1, "truck" := 0, "motorcycle" := 0];
      var cameras := [CameraImages("wtc", [Some(c1)]), CameraImages("wtc1", [Some(c2)])];
      ApplyDeltas(EMPTY_TABLE, CycleDeltas(cameras)) ==
        Outcome(Table(["woodlands"], map["woodlands" := map["car" := 5, "bus" := 1, "truck" := 0, "motorcycle" := 0]]), true)
  {
    var c1 := map["car" := 2, "bus" := 0, "truck" := 0, "motorcycle" := 0];
    var c2 := map["car" := 3, "bus" := 1, "truck" := 0, "motorcycle" := 0];
    var d1, d2 := Delta("woodlands", c1), Delta("woodlands", c2);
    WoodlandsDeltas(c1, c2);
    var first := Table(["woodlands"], map["woodlands" := c1]);
    assert ApplyDeltas(EMPTY_TABLE, [d1]) == Outcome(first, true) by {
      assert [d1][..0] == [];
    }
    var sum := map["car" := 5, "bus" := 1, "truck" := 0, "motorcycle" := 0];
    WoodlandsSum(c1, c2, sum);
    assert MergeInto(first, "woodlands", c2) == Some(Table(["woodlands"], map["woodlands" := sum])) by {
      assert first.entries["woodlands" := sum] == map["woodlands" := sum];
    }
    ApplyDeltasSnoc(EMPTY_TABLE, [d1], d2);
    assert [d1] + [d2] == [d1, d2];
  }

  lemma WoodlandsSum(c1: Counts, c2: Counts, sum: Counts)
    requires c1 == map["car" := 2, "bus" := 0, "truck" := 0, "motorcycle" := 0]
    requires c2 == map["car" := 3, "bus" := 1, "truck" := 0, "motorcycle" := 0]
    requires sum == map["car" := 5, "bus" := 1, "truck" := 0, "motorcycle" := 0]
    ensures c2.Keys <= c1.Keys && AddCounts(c1, c2) == sum
  {
  }

  /** Both Woodlands cameras' images are filed under "woodlands", in camera order. */
  lemma WoodlandsDeltas(c1: Counts, c2: Counts)
    ensures CycleDeltas([CameraImages("wtc", [Some(c1)]), CameraImages("wtc1", [Some(c2)])])
         == [Delta("woodlands", c1), Delta("woodlands", c2)]
  {
    var cameras := [CameraImages("wtc", [Some(c1)]), CameraImages("wtc1", [Some(c2)])];
    assert CameraDeltas("woodlands", [Some(c1)]) == [Delta("woodlands", c1)] by {
      assert [Some(c1)][..0] == [];
    }
    assert CameraDeltas("woodlands", [Some(c2)]) == [Delta("woodlands", c2)] by {
      assert [Some(c2)][..0] == [];
    }
    assert CycleDeltas(cameras[..1]) == [Delta("woodlands", c1)] by {
      assert cameras[..1][..0] == [];
    }
    assert cameras[..1] == cameras[..|cameras| - 1];
  }
}
