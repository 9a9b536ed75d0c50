/**
 * The aggregation loop of app.py: the per-location table of vehicle counts,
 * the merge of every image's counts into it, the 30-minute retention window
 * that archives and clears it, and the read of its current contents.
 *
 * One call of `Aggregator.RunCycle` is one iteration of the `while True` loop
 * of `run_scraper`, with the camera list, the image downloads and the
 * predictions already done: each camera comes with one entry per image URL,
 * `None` where `download_image` returned "" and `Some(counts)` with the result
 * of `predict_vehicles` otherwise. The clock is the parameter `now`.
 */
module App {
  import opened Wrappers
  import opened Prediction

  /** Seconds a window of counts is kept before it is archived and cleared (30 minutes). */
  const RETENTION_SECONDS: int := 30 * 60

  /** The location a camera's counts are filed under: the two Woodlands cameras share one. */
  function ResolveLocation(cameraId: string): (location: string)
  {
    if cameraId == "wtc" || cameraId == "wtc1" then "woodlands" else cameraId
  }

  /** Only the Woodlands cameras are renamed, both to "woodlands"; resolving twice changes nothing. */
  lemma ResolveLocationSpec(cameraId: string)
    ensures cameraId in {"wtc", "wtc1"} ==> ResolveLocation(cameraId) == "woodlands"
    ensures cameraId !in {"wtc", "wtc1"} ==> ResolveLocation(cameraId) == cameraId
    ensures ResolveLocation(ResolveLocation(cameraId)) == ResolveLocation(cameraId)
  {
  }

  /** Two different cameras share a location only when both belong to Woodlands. */
  lemma ResolveLocationCollapses(a: string, b: string)
    requires a != b && ResolveLocation(a) == ResolveLocation(b)
    ensures ResolveLocation(a) == "woodlands"
    ensures a in {"wtc", "wtc1", "woodlands"} && b in {"wtc", "wtc1", "woodlands"}
  {
  }

  /**
   * The dictionary `vehicle_counts_per_location`: its entries, and its keys in
   * insertion order (the order in which `items()` lists them).
   */
  datatype Table = Table(order: seq<string>, entries: map<string, Counts>)

  const EMPTY_TABLE: Table := Table([], map[])

  /** The key order lists every key of the dictionary exactly once. */
  ghost predicate WellFormed(t: Table)
  {
    && (forall i, j :: 0 <= i < j < |t.order| ==> t.order[i] != t.order[j])
    && (forall loc :: loc in t.entries <==> loc in t.order)
  }

  /** `entry` with every count of `delta` added to the category of the same name. */
  function AddCounts(entry: Counts, delta: Counts): (r: Counts)
    requires delta.Keys <= entry.Keys
  {
    map k | k in entry :: if k in delta then entry[k] + delta[k] else entry[k]
  }

  /**
   * The merge of one image's counts into the table (app.py lines 60-64): a new
   * location gets the counts as its entry; an existing one gets each count
   * added to its category, and `None` stands for the `KeyError` raised when the
   * counts hold a category the entry lacks.
   */
  function MergeInto(t: Table, location: string, delta: Counts): (r: Option<Table>)
    ensures r.Some? && WellFormed(t) ==> WellFormed(r.value)
  {
    if location !in t.entries then
      Some(Table(t.order + [location], t.entries[location := delta]))
    else if delta.Keys <= t.entries[location].Keys then
      Some(Table(t.order, t.entries[location := AddCounts(t.entries[location], delta)]))
    else
      None
  }

  /**
   * The merge fails exactly when the location has an entry that lacks a
   * category of the delta. Otherwise a new location gets the delta as its
   * entry, appended to the key order; an existing one gets every count of the
   * delta added to its category and keeps its other categories; every other
   * location is left as it was.
   */
  lemma MergeIntoSpec(t: Table, location: string, delta: Counts)
    ensures MergeInto(t, location, delta).None? <==> location in t.entries && !(delta.Keys <= t.entries[location].Keys)
    ensures MergeInto(t, location, delta).Some? ==>
      var u := MergeInto(t, location, delta).value;
      && u.entries.Keys == t.entries.Keys + {location}
      && (forall loc :: loc in t.entries && loc != location ==> u.entries[loc] == t.entries[loc])
      && (location !in t.entries ==> u.order == t.order + [location] && u.entries[location] == delta)
      && (location in t.entries ==>
        && u.order == t.order
        && u.entries[location].Keys == t.entries[location].Keys
        && (forall k :: k in delta ==> u.entries[location][k] == t.entries[location][k] + delta[k])
        && (forall k :: k in t.entries[location] && k !in delta ==> u.entries[location][k] == t.entries[location][k]))
  {
  }

  /** The counts of one image, filed under the location of its camera. */
  datatype Delta = Delta(location: string, counts: Counts)

  /** What the scraper brought back for one camera: one entry per image URL, `None` for a failed download. */
  datatype CameraImages = CameraImages(cameraId: string, images: seq<Option<Counts>>)

  /** The merges one camera's images ask for, in order; failed downloads ask for none. */
  function CameraDeltas(location: string, images: seq<Option<Counts>>): (ds: seq<Delta>)
    ensures |ds| <= |images|
    ensures forall k :: 0 <= k < |ds| ==> ds[k].location == location
  {
    if images == [] then []
    else
      CameraDeltas(location, images[..|images| - 1])
      + match images[|images| - 1] case None => [] case Some(c) => [Delta(location, c)]
  }

  /** The merges a whole cycle asks for: camera after camera, image after image. */
  function CycleDeltas(cameras: seq<CameraImages>): (ds: seq<Delta>)
  {
    if cameras == [] then []
    else
      var last := cameras[|cameras| - 1];
      CycleDeltas(cameras[..|cameras| - 1]) + CameraDeltas(ResolveLocation(last.cameraId), last.images)
  }

  /** Every merge of a cycle is filed under the resolved location of one of its cameras. */
  lemma {:induction false} CycleDeltasLocations(cameras: seq<CameraImages>)
    ensures forall k :: 0 <= k < |CycleDeltas(cameras)| ==>
      CycleDeltas(cameras)[k].location in set c | c in cameras :: ResolveLocation(c.cameraId)
  {
    if cameras != [] {
      var init, last := cameras[..|cameras| - 1], cameras[|cameras| - 1];
      var locations := set c | c in cameras :: ResolveLocation(c.cameraId);
      CycleDeltasLocations(init);
      assert forall c :: c in init ==> c in cameras;
      assert last in cameras;
      var before: seq<Delta>, more: seq<Delta> := CycleDeltas(init), CameraDeltas(ResolveLocation(last.cameraId), last.images);
      assert CycleDeltas(cameras) == before + more;
      assert ResolveLocation(last.cameraId) in locations;
      assert (set c | c in init :: ResolveLocation(c.cameraId)) <= locations;
      forall k | 0 <= k < |before + more|
        ensures (before + more)[k].location in locations
      {
        if k < |before| {
          assert (before + more)[k] == before[k];
        } else {
          assert (before + more)[k] == more[k - |before|];
        }
      }
    } else {
      assert CycleDeltas(cameras) == [];
    }
  }

  lemma CycleDeltasPrefix(cameras: seq<CameraImages>, i: nat)
    requires i < |cameras|
    ensures CycleDeltas(cameras[..i + 1]) ==
      CycleDeltas(cameras[..i]) + CameraDeltas(ResolveLocation(cameras[i].cameraId), cameras[i].images)
  {
    assert cameras[..i + 1][..i] == cameras[..i];
  }

  /** The table after some merges, and whether all of them went through. */
  datatype Outcome = Outcome(table: Table, completed: bool)

  /**
   * One merge of a cycle: skipped once a `KeyError` has abandoned the cycle,
   * otherwise the merge, which either goes through or abandons the cycle.
   */
  function Step(o: Outcome, d: Delta): Outcome
  {
    if !o.completed then o
    else match MergeInto(o.table, d.location, d.counts)
      case None => Outcome(o.table, false)
      case Some(next) => Outcome(next, true)
  }

  /**
   * The merges of a cycle applied one after the other; the first `KeyError`
   * abandons the rest, keeping the merges already made.
   */
  function ApplyDeltas(t: Table, ds: seq<Delta>): (o: Outcome)
    ensures WellFormed(t) ==> WellFormed(o.table)
  {
    if ds == [] then Outcome(t, true)
    else Step(ApplyDeltas(t, ds[..|ds| - 1]), ds[|ds| - 1])
  }

  /** One line of the archive file: a location and its counts. */
  datatype Record = Record(location: string, counts: Counts)

  /** The records for the given keys, in the given order. */
  function RecordsOf(order: seq<string>, entries: map<string, Counts>): (records: seq<Record>)
    requires forall k :: 0 <= k < |order| ==> order[k] in entries
    ensures |records| == |order|
  {
    if order == [] then []
    else RecordsOf(order[..|order| - 1], entries) + [Record(order[|order| - 1], entries[order[|order| - 1]])]
  }

  /** The lines `archive_vehicle_counts` writes for a table, one per entry in key order. */
  function Records(t: Table): (records: seq<Record>)
    requires WellFormed(t)
  {
    RecordsOf(t.order, t.entries)
  }

  /**
   * The live table and the start of its retention window, as `run_scraper`
   * and the request handlers share them.
   */
  class Aggregator {
    var perLocation: Table
    var startTime: int

    ghost predicate Valid()
      reads this
    {
      WellFormed(perLocation)
    }

    /** The table starts empty and the window starts when the loop does. */
    constructor (now: int)
      ensures Valid()
      ensures perLocation == EMPTY_TABLE && startTime == now
    {
      perLocation := EMPTY_TABLE;
      startTime := now;
    }

    /** Lines 60-64 of `run_scraper` for one image; `ok` is false where they raise `KeyError`. */
    method Merge(location: string, delta: Counts) returns (ok: bool)
      requires Valid()
      modifies this
      ensures Valid()
      ensures startTime == old(startTime)
      ensures ok == MergeInto(old(perLocation), location, delta).Some?
      ensures ok ==> perLocation == MergeInto(old(perLocation), location, delta).value
      ensures !ok ==> perLocation == old(perLocation)
    {
      if location !in perLocation.entries {
        perLocation := Table(perLocation.order + [location], perLocation.entries[location := delta]);
        return true;
      }
      var entry := perLocation.entries[location];
      if !(delta.Keys <= entry.Keys) {
        return false;
      }
      var updated := entry;
      var pending := delta.Keys;
      while pending != {}
        invariant pending <= delta.Keys
        invariant updated.Keys == entry.Keys
        invariant forall k :: k in entry ==>
          updated[k] == if k in delta && k !in pending then entry[k] + delta[k] else entry[k]
        decreases pending
      {
        var category :| category in pending;
        updated := updated[category := updated[category] + delta[category]];
        pending := pending - {category};
      }
      assert updated == AddCounts(entry, delta);
      perLocation := Table(perLocation.order, perLocation.entries[location := updated]);
      ok := true;
    }

    /** `archive_vehicle_counts`: one record per entry of the live table, in key order. */
    method ArchiveRecords() returns (records: seq<Record>)
      requires Valid()
      ensures records == Records(perLocation)
    {
      records := [];
      var i := 0;
      while i < |perLocation.order|
        invariant 0 <= i <= |perLocation.order|
        invariant records == RecordsOf(perLocation.order[..i], perLocation.entries)
      {
        var location := perLocation.order[i];
        assert perLocation.order[..i + 1][..i] == perLocation.order[..i];
        records := records + [Record(location, perLocation.entries[location])];
        i := i + 1;
      }
      assert perLocation.order[..i] == perLocation.order;
    }

    /**
     * Lines 70-73 of `run_scraper`: once the window has lasted the retention
     * time, the table is archived and cleared and a new window starts at `now`.
     * `written` says whether `archive_vehicle_counts` wrote its file without
     * raising. It runs outside the loop's `try`, so when it raises, the
     * exception ends the scraper loop before the table is cleared or the
     * window restarted; `running` is false exactly then.
     */
    method MaybeCloseWindow(now: int, written: bool) returns (archive: Option<seq<Record>>, running: bool)
      requires Valid()
      modifies this
      ensures Valid()
      ensures running <==> now - old(startTime) < RETENTION_SECONDS || written
      ensures running && now - old(startTime) >= RETENTION_SECONDS ==>
        archive == Some(Records(old(perLocation))) && perLocation == EMPTY_TABLE && startTime == now
      ensures !running || now - old(startTime) < RETENTION_SECONDS ==>
        archive == None && perLocation == old(perLocation) && startTime == old(startTime)
    {
      if now - startTime >= RETENTION_SECONDS {
        if !written {
          return None, false;
        }
        var records := ArchiveRecords();
        archive := Some(records);
        perLocation := EMPTY_TABLE;
        startTime := now;
      } else {
        archive := None;
      }
      running := true;
    }

    /**
     * The images of one camera (lines 54-64 of `run_scraper`): each saved
     * image's counts are merged as they come; a `KeyError` stops the loop.
     */
    method MergeImages(location: string, images: seq<Option<Counts>>) returns (completed: bool)
      requires Valid()
      modifies this
      ensures Valid() && startTime == old(startTime)
      ensures Outcome(perLocation, completed) == ApplyDeltas(old(perLocation), CameraDeltas(location, images))
    {
      ghost var start := perLocation;
      completed := true;
      var j := 0;
      while j < |images| && completed
        invariant 0 <= j <= |images|
        invariant Valid() && startTime == old(startTime)
        invariant Outcome(perLocation, completed) == ApplyDeltas(start, CameraDeltas(location, images[..j]))
      {
        ImageStep(start, location, images, j);
        match images[j] {
          case None =>
            // `download_image` returned "": nothing is merged
          case Some(delta) =>
            completed := Merge(location, delta);
        }
        j := j + 1;
      }
      if !completed {
        ImagesAbandoned(start, location, images, j);
      } else {
        assert images[..j] == images;
      }
    }

    /**
     * One iteration of the `run_scraper` loop: every image's counts are merged
     * as they come, a `KeyError` abandons the rest of the cycle, and the
     * retention check runs whether or not the cycle completed. `written` is
     * the outcome of the archive write, and `running` is false when its
     * failure ended the loop.
     */
    method RunCycle(now: int, written: bool, cameras: seq<CameraImages>)
      returns (completed: bool, archive: Option<seq<Record>>, running: bool)
      requires Valid()
      modifies this
      ensures Valid()
      ensures completed == ApplyDeltas(old(perLocation), CycleDeltas(cameras)).completed
      ensures running <==> now - old(startTime) < RETENTION_SECONDS || written
      ensures running && now - old(startTime) >= RETENTION_SECONDS ==>
        && archive == Some(Records(ApplyDeltas(old(perLocation), CycleDeltas(cameras)).table))
        && perLocation == EMPTY_TABLE && startTime == now
      ensures !running || now - old(startTime) < RETENTION_SECONDS ==>
        && archive == None
        && perLocation == ApplyDeltas(old(perLocation), CycleDeltas(cameras)).table
        && startTime == old(startTime)
    {
      ghost var start := perLocation;
      completed := true;
      var i := 0;
      while i < |cameras| && completed
        invariant 0 <= i <= |cameras|
        invariant Valid() && startTime == old(startTime)
        invariant Outcome(perLocation, completed) == ApplyDeltas(start, CycleDeltas(cameras[..i]))
      {
        var location := ResolveLocation(cameras[i].cameraId);
        ghost var before := CycleDeltas(cameras[..i]);
        completed := MergeImages(location, cameras[i].images);
        ApplyDeltasAppend(start, before, CameraDeltas(location, cameras[i].images));
        CycleDeltasPrefix(cameras, i);
        i := i + 1;
      }
      if !completed {
        CycleDeltasAppend(cameras[..i], cameras[i..]);
        assert cameras[..i] + cameras[i..] == cameras;
        ApplyDeltasAbandoned(start, CycleDeltas(cameras[..i]), CycleDeltas(cameras[i..]));
      } else {
        assert cameras[..i] == cameras;
      }
      archive, running := MaybeCloseWindow(now, written);
    }

    /** `get_vehicle_counts`: the table as it stands. */
    method GetVehicleCounts() returns (counts: map<string, Counts>)
      ensures counts == perLocation.entries
    {
      counts := perLocation.entries;
    }
  }

  // Lemmas about the cycle's merges.

  lemma CameraDeltasPrefix(location: string, images: seq<Option<Counts>>, j: nat)
    requires j < |images|
    ensures CameraDeltas(location, images[..j + 1]) ==
      CameraDeltas(location, images[..j]) + match images[j] case None => [] case Some(c) => [Delta(location, c)]
  {
    assert images[..j + 1][..j] == images[..j];
  }

  /** What merging one more image of a camera does to the outcome so far. */
  lemma ImageStep(t: Table, location: string, images: seq<Option<Counts>>, j: nat)
    requires j < |images|
    ensures images[j].None? ==>
      ApplyDeltas(t, CameraDeltas(location, images[..j + 1])) == ApplyDeltas(t, CameraDeltas(location, images[..j]))
    ensures images[j].Some? ==>
      ApplyDeltas(t, CameraDeltas(location, images[..j + 1]))
        == Step(ApplyDeltas(t, CameraDeltas(location, images[..j])), Delta(location, images[j].value))
  {
    var done := CameraDeltas(location, images[..j]);
    CameraDeltasPrefix(location, images, j);
    if images[j].Some? {
      ApplyDeltasSnoc(t, done, Delta(location, images[j].value));
    } else {
      assert CameraDeltas(location, images[..j + 1]) == done + [];
      assert done + [] == done;
    }
  }

  /** Once a camera's merges fail, its remaining images change nothing. */
  lemma ImagesAbandoned(t: Table, location: string, images: seq<Option<Counts>>, j: nat)
    requires j <= |images|
    requires !ApplyDeltas(t, CameraDeltas(location, images[..j])).completed
    ensures ApplyDeltas(t, CameraDeltas(location, images)) == ApplyDeltas(t, CameraDeltas(location, images[..j]))
  {
    CameraDeltasAppend(location, images[..j], images[j..]);
    assert images[..j] + images[j..] == images;
    ApplyDeltasAbandoned(t, CameraDeltas(location, images[..j]), CameraDeltas(location, images[j..]));
  }

  lemma {:induction false} CameraDeltasAppend(location: string, a: seq<Option<Counts>>, b: seq<Option<Counts>>)
    ensures CameraDeltas(location, a + b) == CameraDeltas(location, a) + CameraDeltas(location, b)
    decreases |b|
  {
    if b == [] {
      assert a + b == a;
    } else {
      var u := a + b;
      assert u[..|u| - 1] == a + b[..|b| - 1];
      CameraDeltasAppend(location, a, b[..|b| - 1]);
    }
  }

  lemma {:induction false} CycleDeltasAppend(a: seq<CameraImages>, b: seq<CameraImages>)
    ensures CycleDeltas(a + b) == CycleDeltas(a) + CycleDeltas(b)
    decreases |b|
  {
    if b == [] {
      assert a + b == a;
    } else {
      var u, init, last := a + b, b[..|b| - 1], b[|b| - 1];
      var more := CameraDeltas(ResolveLocation(last.cameraId), last.images);
      assert u[..|u| - 1] == a + init && u[|u| - 1] == last;
      assert CycleDeltas(u) == CycleDeltas(a + init) + more;
      CycleDeltasAppend(a, init);
      assert CycleDeltas(b) == CycleDeltas(init) + more;
    }
  }

  lemma ApplyDeltasSnoc(t: Table, ds: seq<Delta>, d: Delta)
    ensures ApplyDeltas(t, ds + [d]) == Step(ApplyDeltas(t, ds), d)
  {
    assert (ds + [d])[..|ds|] == ds;
  }

  /** Merging two runs of deltas one after the other is merging their concatenation. */
  lemma {:induction false} ApplyDeltasAppend(t: Table, a: seq<Delta>, b: seq<Delta>)
    requires ApplyDeltas(t, a).completed
    ensures ApplyDeltas(t, a + b) == ApplyDeltas(ApplyDeltas(t, a).table, b)
    decreases |b|
  {
    if b == [] {
      assert a + b == a;
    } else {
      var u := a + b;
      assert u[..|u| - 1] == a + b[..|b| - 1];
      ApplyDeltasAppend(t, a, b[..|b| - 1]);
    }
  }

  /** After a `KeyError` nothing else in the cycle is merged. */
  lemma {:induction false} ApplyDeltasAbandoned(t: Table, a: seq<Delta>, b: seq<Delta>)
    requires !ApplyDeltas(t, a).completed
    ensures ApplyDeltas(t, a + b) == ApplyDeltas(t, a)
    decreases |b|
  {
    if b == [] {
      assert a + b == a;
    } else {
      var u := a + b;
      assert u[..|u| - 1] == a + b[..|b| - 1];
      ApplyDeltasAbandoned(t, a, b[..|b| - 1]);
    }
  }
}
