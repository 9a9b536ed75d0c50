# Real-time traffic monitoring: the aggregation core in Dafny

The system scrapes a traffic-camera website on a fixed interval. For every
camera it downloads the current images and counts the cars, buses, trucks and
motorcycles a detector finds in each one. It adds these counts to a table of
counts per location. Every 30 minutes it archives the table and clears it. An
HTTP endpoint returns the table as it stands.

This project models the three pieces of that backend that hold logic.

- `app.dfy`, module `App`, models `app.py`. `ResolveLocation` files the two
  Woodlands cameras (`wtc`, `wtc1`) under one location. The class
  `Aggregator` holds the table `perLocation` and the window start
  `startTime`, as `run_scraper` does:
  - `Merge` merges one image's counts in place. It models the `KeyError` that
    a category missing from an existing entry raises.
  - `MergeImages` and `RunCycle` run one iteration of the `while True` loop
    over counts that were already fetched. `None` stands for an image whose
    download returned `""`.
  - `MaybeCloseWindow` is the retention check. `ArchiveRecords` is
    `archive_vehicle_counts`. `GetVehicleCounts` is the read endpoint.
  - A flag `written` says whether the archive file was written. When it was
    not, the loop ends: `running` comes back false.
  - These methods are proved against pure functions. `MergeInto` is one
    merge, `ApplyDeltas` is the merges of a cycle with the stop at the first
    `KeyError`, and `Records` is the archive.
  - The table is a `Table`: the dictionary's entries plus its keys in
    insertion order. That order is the one in which Python lists the items,
    and so the one in which the archive writes its lines.
- `app_properties.dfy`, module `AppProperties`, holds the lemmas that relate
  several merges. Counts only grow within a window. Two merges equal one merge
  of their sum, and their order does not matter. A cycle abandoned by a
  `KeyError` keeps exactly the merges before it. A failed download merges
  nothing. The archive is the table.
- `prediction.dfy`, module `Prediction`, models the tally of
  `predict_vehicles`. The detector's output is a sequence of class names per
  result.
- `scraper.dfy`, module `Scraper`, models the string handling of
  `scraper.py`:
  - the camera-view filter and the `//` to `http:` rewrite of
    `fetch_camera_images` (a network-path reference, section 4.2 of RFC 3986);
  - the camera-id comprehension of `fetch_traffic_cameras`;
  - the saved-path derivation of `download_image`, with `os.path.join`
    written out.
- `wrappers.dfy`, module `Wrappers`, holds the `Option` type.

The system's design notes describe the code in places where the code does
something else. The model follows the code in each case:

- The notes say a merge treats a missing category as zero. The code
  (`app.py:63-64`) raises `KeyError`, and the exception handler abandons the
  rest of the cycle.
  - `PipelineMerge` shows when this happens in practice. An entry created from
    the `{}` of a failed prediction makes every later non-empty prediction for
    that location fail.
  - `EmptyEntryStaysEmpty` shows that such an entry stays empty until the
    window closes.
- The notes say reads return a deep copy under the lock. The code returns the
  live dictionary, and it archives and clears the table outside the lock. The
  model is sequential and returns the table's value.
- The notes say the scraper loop never dies. But `archive_vehicle_counts`
  runs outside the loop's `try` (`app.py:69-73`). If writing the archive
  raises, the exception ends `run_scraper`. The table is then not cleared and
  the window does not restart. `MaybeCloseWindow` and `RunCycle` model this:
  with `written` false and the window due, `running` is false and the table
  and `startTime` stay as they were.
- The notes' example merges `{car: 2}` and then `{car: 3, bus: 1}` into one
  location. In the code the second merge raises `KeyError`. `WoodlandsScenario`
  therefore uses four-category counts, as `predict_vehicles` produces them.

## Model

| member | source | states |
|---|---|---|
| `App.ResolveLocationSpec` | app.py:51 | `wtc` and `wtc1` resolve to `woodlands`, every other id to itself, and resolving a resolved location changes nothing |
| `App.ResolveLocationCollapses` | app.py:51 | two different camera ids share a location only if that location is `woodlands` and both ids are among `wtc`, `wtc1`, `woodlands` |
| `App.MergeInto` | app.py:59-64 | a merge that goes through keeps the key order listing every location exactly once |
| `App.MergeIntoSpec` | app.py:60-64 | the merge fails (`KeyError`) exactly when the location has an entry lacking one of the delta's categories. A new location gets the delta unchanged as its entry, even `{}`, and is appended to the key order. An existing entry gets each delta count added to its category and keeps its other categories. All other locations are unchanged |
| `App.CameraDeltas` | app.py:54-57 | one camera asks for at most one merge per image URL, all under the camera's location |
| `App.CycleDeltasLocations` | app.py:49-52 | every merge of a cycle is filed under the resolved location of one of the cycle's cameras |
| `App.ApplyDeltas` | app.py:48-67 | applying a cycle's merges one after another keeps the table well formed, wherever the cycle stops |
| `App.ApplyDeltasAppend` | app.py:50-64 | merging two runs of deltas one after the other equals merging their concatenation, as long as the first run raised nothing |
| `App.ApplyDeltasAbandoned` | app.py:48-67 | after a `KeyError` no further delta of the cycle changes the table |
| `App.Aggregator.constructor` | app.py:29-45 | the table starts empty and the window starts at the loop's start time |
| `App.Aggregator.Merge` | app.py:59-64 | the in-place merge yields `MergeInto` of the old table, or leaves the table unchanged and reports the `KeyError`. `startTime` is not touched |
| `App.Aggregator.MergeImages` | app.py:54-64 | the images of one camera are merged in order, skipping failed downloads and stopping at the first `KeyError`; the new table is `ApplyDeltas` of the old one |
| `App.Aggregator.RunCycle` | app.py:47-73 | one loop iteration. The table goes through the cycle's merges up to the first `KeyError`. Then the retention check runs whether or not the cycle completed. The loop goes on exactly when the window is not due or the archive was written. If it is due and written, the archive is the post-merge table, the table becomes empty and `startTime` becomes `now`. Otherwise nothing is archived, the table is the post-merge table and `startTime` is kept |
| `App.Aggregator.MaybeCloseWindow` | app.py:69-73 | the loop goes on exactly when `now - startTime < 1800` or the archive was written. If due and written: the archive is the records of the old table, the table is emptied and `startTime := now`. Otherwise (not due, or the write raised and ended the loop): no archive, and the table and `startTime` are unchanged |
| `App.Aggregator.ArchiveRecords` | app.py:88-90 | the archive loop writes the records of the current table, one per entry in key order, and changes nothing |
| `App.Aggregator.GetVehicleCounts` | app.py:100-104 | the read returns the current table contents exactly |
| `AppProperties.MergeGrows` | app.py:62-64 | a merge of non-negative counts keeps every count non-negative and lowers none, and no location or category disappears |
| `AppProperties.ApplyDeltasGrows` | app.py:48-67 | over a whole cycle, wherever it stops, non-negative deltas keep every count non-negative and never decrease one |
| `AppProperties.MergeTwiceIsMergeOfSum` | app.py:62-64 | merging `d1` then `d2` into an entry that has their categories equals merging their per-category sum |
| `AppProperties.MergeOrderIrrelevant` | app.py:62-64 | merging `d1` and `d2` into such an entry gives the same table in either order |
| `AppProperties.PipelineMerge` | app.py:60-64 | with entries and deltas shaped like `predict_vehicles` results (`{}` or exactly the four categories), a merge fails exactly when the entry is `{}` and the delta is not. Otherwise every entry keeps that shape |
| `AppProperties.EmptyEntryStaysEmpty` | app.py:59-64 | an entry created from a failed prediction's `{}` stays `{}` for the rest of the window, whatever the cycle merges |
| `AppProperties.ApplyDeltasStopsAtFirstKeyError` | app.py:48-67 | an abandoned cycle has a first failing merge. Every merge before it went through and stays applied. The table is the one from just before it |
| `AppProperties.FailedDownloadMergesNothing` | app.py:55-56 | an image whose download returned `""` adds no merge: the merges are those of the other images |
| `AppProperties.ArchiveIsTable` | app.py:88-90 | the archive has one record per location of the table, none twice, each with that location's counts |
| `AppProperties.WoodlandsScenario` | app.py:51-64 | from an empty table, `{car:2}` from `wtc` and `{car:3, bus:1}` from `wtc1` (four-category counts) give `{woodlands: {car:5, bus:1, truck:0, motorcycle:0}}` |
| `Prediction.PredictVehicles` | prediction.py:18-37 | a failed inference gives `{}`. Otherwise the result is the tally of the detected class names, built by the nested counting loops. Either way it is `{}` or has exactly the four keys, and every count is non-negative |
| `Prediction.Tally` | prediction.py:21-30 | the successful result has exactly the keys `car`, `bus`, `truck`, `motorcycle`, and no other class name becomes a key |
| `Prediction.TallyCountsBoxes` | prediction.py:24-30 | each count is the number of boxes over all results whose class is that category, and the last result adds its own occurrences |
| `Prediction.CountTotal` | prediction.py:24-30 | the four counts plus the boxes of other classes add up to the number of boxes |
| `Prediction.TallyBounded` | prediction.py:22-30 | all counts are non-negative and their sum is at most the number of boxes |
| `Prediction.TallyAppend` | prediction.py:24-30 | tallying two concatenated result lists is the per-category sum of tallying each |
| `Prediction.TallyIgnoresOtherClasses` | prediction.py:29-30 | a result whose boxes are all of other classes changes no count |
| `Scraper.FetchCameraImages` | scraper.py:35-53 | the loop returns `ImageUrls` of the page's images, or `[]` when the page failed |
| `Scraper.AbsoluteSrc` | scraper.py:47 | a source starting with `//` becomes `http:` + source, any other is kept, and the result never starts with `//` |
| `Scraper.ImageUrlsWellFormed` | scraper.py:43-50 | no emitted URL starts with `//`, and there are no more URLs than images |
| `Scraper.ImageUrlsAppend` | scraper.py:44-48 | the URLs of two consecutive parts of a page are those of the first followed by those of the second (document order) |
| `Scraper.ImageUrlsSingle` | scraper.py:44-48 | one image yields its rewritten source when it is a camera view and nothing otherwise |
| `Scraper.ImageUrlsMembership` | scraper.py:44-48 | a URL is emitted exactly when some image with a non-empty `src` and an `alt` containing "View from" has it as its rewritten source |
| `Scraper.MissingAltExcluded` | scraper.py:46 | an image without `alt` is never kept |
| `Scraper.ContainsAt` | scraper.py:46 | the substring test holds exactly when the pattern starts at some position of the text |
| `Scraper.ButtonIds` | scraper.py:22 | the ids come out in button order, one per button; there is a result exactly when every button has an `id` |
| `Scraper.FetchTrafficCameras` | scraper.py:17-25 | a failed page, or a button without `id`, gives `[]`. Otherwise the result is the buttons' ids in order, one per button |
| `Scraper.LastSegment` | scraper.py:71 | the segment has no `/`, is a suffix of the URL, and is preceded by a `/` unless it is the whole URL |
| `Scraper.PathJoin` | scraper.py:67-71 | `os.path.join` ends with its second argument, and is non-empty when its first argument is |
| `Scraper.DownloadImage` | scraper.py:63-79 | `download_image` returns a non-empty path exactly when the download and save succeeded, and `""` otherwise. A saved file is named after the last segment of the image URL |
| `Scraper.SavedPathShape` | scraper.py:67-71 | for a plain relative location name, the path is `traffic_images/<location>/<last segment of the URL>` |

## Left out

- App.Aggregator.Merge: the failing merge is atomic in the model, with the entry left as it was. In the code, `+=` runs key by key, so the categories iterated before the missing one would already be added. `AppProperties.PipelineMerge` shows that with `predict_vehicles` results a failure only happens on an empty entry. There the first category already fails, so nothing is added and the two agree.
- App.MergeInto: the same atomic reading as `Merge`. The per-category order of a count dictionary is not modelled: counts are maps.
- Threads and the lock (`app.py:31, 59, 103, 112`): the model is one sequential thread. It claims no linearizability. The read returns the table's value, not the live dictionary the code hands out.
- App.Aggregator.MaybeCloseWindow: `time.time()` returns a float, and the model's `now` and `startTime` are integers, so fractions of a second in the `>= 1800` comparison are not modelled. A failed archive write is a flag. The model does not capture the partial file the failed write may leave behind: the archive is then `None`.
- Time: `time.time()`, `time.sleep` and the endless loop are not modelled. `RunCycle` is one iteration, and `now` is a parameter. The same `now` serves both clock reads at `app.py:70` and `app.py:73`.
- Network and HTML parsing (`requests`, BeautifulSoup): pages arrive as parsed elements or `None`. Also out of the model: building the page URLs, and matching buttons by the class `btn btn-primary`.
- The YOLO model: loading, inference, and mapping class ids to names (`prediction.py:9, 19, 26-27`). The model receives class names.
- Filesystem effects: image bytes, `os.makedirs`, the timestamped archive file name, and the text form `location: {...}` of each archive line. `download_image` takes a flag that says whether fetching and saving succeeded, and the archive is a sequence of `(location, counts)` records.
- Logging (`utils/logger.py`), the FastAPI application, CORS, static files, the index route and start-up (`app.py:15-23, 94-115`), and the browser script `static/script.js`: none of them hold core logic.
