/**
 * Choosing the series that get preview thumbnails and, for each, the slices
 * the thumbnails are made from. The series found on disk are grouped by
 * SeriesInstanceUID; the manifest, when there is one, says which series are
 * wanted; each wanted series found on disk is handled in sorted UID order,
 * unless its first thumbnail already exists and overwriting is off.
 *
 * The manifest is given as its lines, line terminators removed; a missing
 * manifest is None. The output directory is given as the set of file names it
 * holds. Rendering the thumbnails and writing the JSON sidecars are not part
 * of this model: a planned job names the series, its files and the slices chosen.
 */
module GeneratePreviews {
  import opened Text
  import opened Sorting
  import opened Dicom
  import DicomUtils

  // ---------------------------------------------------------------------------
  // gather_series_files, as this script writes it
  // ---------------------------------------------------------------------------

  /**
   * The first file of the walk whose read fails with an error the loop does
   * not catch: it catches only the reader's rejection of a non-DICOM file
   * (and a missing SeriesInstanceUID, which is not a read failure here).
   */
  function FirstFatal(disk: Disk, walk: seq<Path>): Option<ReadError>
  {
    if walk == [] then None
    else
      var f := FirstFatal(disk, walk[..|walk| - 1]);
      var r := Read(disk, walk[|walk| - 1]);
      if f.Some? then f
      else if r.Failed? && r.why != InvalidDicom then Some(r.why)
      else None
  }

  /**
   * gather_series_files: the same grouping as the shared helper when every
   * read succeeds or is rejected as non-DICOM; otherwise the first other
   * read failure ends the run.
   */
  method GatherSeriesFiles(disk: Disk, walk: seq<Path>) returns (r: Result<map<string, seq<Path>>>)
    ensures FirstFatal(disk, walk).Some? ==> r == Err(ReadFailed(FirstFatal(disk, walk).value))
    ensures FirstFatal(disk, walk).None? ==> r == Ok(DicomUtils.SeriesFiles(disk, walk))
  {
    var grouped: map<string, seq<Path>> := map[];
    var i := 0;
    while i < |walk|
      invariant 0 <= i <= |walk|
      invariant DicomUtils.Groups(disk, walk[..i], grouped)
      invariant FirstFatal(disk, walk[..i]).None?
    {
      var p := walk[i];
      var read := Read(disk, p);
      FirstFatalStep(disk, walk, i);
      if read.Failed? && read.why != InvalidDicom {
        FatalPrefix(disk, walk, i + 1);
        return Err(ReadFailed(read.why));
      }
      DicomUtils.GroupsAt(disk, walk, i, grouped);
      if read.Parsed? && SeriesInstanceUidTag in read.ds {
        var uid := read.ds[SeriesInstanceUidTag];
        grouped := grouped[uid := (if uid in grouped then grouped[uid] else []) + [p]];
      }
      i := i + 1;
    }
    assert walk[..i] == walk;
    var series := DicomUtils.SortEachSeries(disk, grouped);
    DicomUtils.SortedGroups(disk, walk, grouped, series);
    return Ok(series);
  }

  /** One more file read after a prefix without a fatal failure. */
  lemma FirstFatalStep(disk: Disk, walk: seq<Path>, i: nat)
    requires i < |walk| && FirstFatal(disk, walk[..i]).None?
    ensures FirstFatal(disk, walk[..i + 1])
         == (var r := Read(disk, walk[i]); if r.Failed? && r.why != InvalidDicom then Some(r.why) else None)
  {
    assert walk[..i + 1][..i] == walk[..i];
  }

  /** A fatal failure among the first k files is the first fatal failure of the whole walk. */
  lemma {:induction false} FatalPrefix(disk: Disk, walk: seq<Path>, k: nat)
    requires k <= |walk| && FirstFatal(disk, walk[..k]).Some?
    ensures FirstFatal(disk, walk) == FirstFatal(disk, walk[..k])
    decreases |walk| - k
  {
    if k < |walk| {
      assert walk[..k + 1][..k] == walk[..k];
      FatalPrefix(disk, walk, k + 1);
    } else {
      assert walk[..k] == walk;
    }
  }

  /** Every series found has at least one file, so the empty-list guard never skips one. */
  lemma GatheredListsNonEmpty(disk: Disk, walk: seq<Path>, uid: string)
    requires uid in DicomUtils.SeriesFiles(disk, walk)
    ensures DicomUtils.SeriesFiles(disk, walk)[uid] != []
  {
    var p :| p in walk && DicomUtils.SeriesOf(disk, p).Some? && DicomUtils.SeriesOf(disk, p).value == uid;
    DicomUtils.SeriesFilesPlacement(disk, walk, p, uid);
  }

  // ---------------------------------------------------------------------------
  // choose_slice_indices with eight previews
  // ---------------------------------------------------------------------------

  const PreviewCount := 8

  /** choose_slice_indices(n, 8), which never divides by zero. */
  function PreviewIndices(n: nat): seq<int>
  {
    var r := DicomUtils.ChooseSliceIndices(n, PreviewCount);
    assert r.Ok?;
    r.value
  }

  /**
   * min(n, 8) distinct slice indices in increasing order, all in range, the
   * first slice and the last one among them; with more than eight slices,
   * pick i is the index nearest to i * (n - 1) / 7.
   */
  lemma PreviewIndicesShape(n: nat)
    ensures var s := PreviewIndices(n);
      |s| == Min(n, PreviewCount)
      && (forall i :: 0 <= i < |s| ==> 0 <= s[i] < n)
      && (forall i, j :: 0 <= i < j < |s| ==> s[i] < s[j])
      && (n > 0 ==> s[0] == 0 && s[|s| - 1] == n - 1)
      && (n > PreviewCount ==> forall i :: 0 <= i < |s| ==>
            2 * (s[i] * (PreviewCount - 1) - i * (n - 1)) <= PreviewCount - 1
            && 2 * (i * (n - 1) - s[i] * (PreviewCount - 1)) <= PreviewCount - 1)
  {
    if n > PreviewCount {
      DicomUtils.ChooseSliceIndicesSpread(n, PreviewCount);
    }
  }

  // ---------------------------------------------------------------------------
  // The series the manifest asks for
  // ---------------------------------------------------------------------------

  /** list.index: the first position of x in s, or None (ValueError) when it is absent. */
  function IndexOf(s: seq<string>, x: string): (r: Option<nat>)
    ensures r.None? <==> x !in s
    ensures r.Some? ==> r.value < |s| && s[r.value] == x && forall j :: 0 <= j < r.value ==> s[j] != x
  {
    if s == [] then None
    else if s[0] == x then Some(0)
    else match IndexOf(s[1..], x)
      case None => None
      case Some(i) => Some(i + 1)
  }

  /** The header line's fields; an empty file reads as one empty header field. */
  function HeaderOf(lines: seq<string>): seq<string>
  {
    SplitOn(if lines == [] then "" else lines[0], '\t')
  }

  /** The UID column: "Series Instance UID", else "0020000E". */
  function UidColumn(header: seq<string>): Option<nat>
  {
    match IndexOf(header, "Series Instance UID")
    case Some(i) => Some(i)
    case None => IndexOf(header, "0020000E")
  }

  /** The readable column name wins; the hex name is used only when it is absent. */
  lemma UidColumnFallback(header: seq<string>)
    ensures UidColumn(header).None? <==> "Series Instance UID" !in header && "0020000E" !in header
    ensures "Series Instance UID" in header ==> header[UidColumn(header).value] == "Series Instance UID"
    ensures "Series Instance UID" !in header && "0020000E" in header ==> header[UidColumn(header).value] == "0020000E"
  {
  }

  /**
   * The non-empty cells in column `col` of the lines, each line split into
   * cells by `cells`; a line too short for the column is an IndexError.
   */
  function ColumnValues(rows: seq<string>, col: nat, cells: string -> seq<string>): Result<set<string>>
  {
    if rows == [] then Ok({})
    else
      var prev := ColumnValues(rows[..|rows| - 1], col, cells);
      var fields := cells(rows[|rows| - 1]);
      if prev.Err? then prev
      else if col >= |fields| then Err(IndexOutOfRange)
      else Ok(prev.value + (if fields[col] != "" then {fields[col]} else {}))
  }

  /** The non-empty UIDs in column `col` of the tab-separated data lines. */
  function RowUids(rows: seq<string>, col: nat): Result<set<string>>
  {
    ColumnValues(rows, col, row => SplitOn(row, '\t'))
  }

  /** The series wanted: those the manifest lists, or every series found when there is no manifest. */
  function NeededOf(manifest: Option<seq<string>>, found: set<string>): Result<set<string>>
  {
    match manifest
    case None => Ok(found)
    case Some(lines) =>
      match UidColumn(HeaderOf(lines))
      case None => Err(MissingColumn("0020000E"))
      case Some(col) => RowUids(if lines == [] then [] else lines[1..], col)
  }

  /** The values are read exactly when every line has the column. */
  lemma {:induction false} ColumnValuesOk(rows: seq<string>, col: nat, cells: string -> seq<string>)
    ensures ColumnValues(rows, col, cells).Ok? <==> forall k :: 0 <= k < |rows| ==> col < |cells(rows[k])|
  {
    if rows != [] {
      var n := |rows| - 1;
      ColumnValuesOk(rows[..n], col, cells);
      assert forall k :: 0 <= k < n ==> rows[..n][k] == rows[k];
    }
  }

  /** The values read are the non-empty cells of the column. */
  lemma {:induction false} ColumnValuesCells(rows: seq<string>, col: nat, cells: string -> seq<string>, v: string)
    requires ColumnValues(rows, col, cells).Ok? && forall k :: 0 <= k < |rows| ==> col < |cells(rows[k])|
    ensures v in ColumnValues(rows, col, cells).value <==> v != "" && exists k :: 0 <= k < |rows| && cells(rows[k])[col] == v
  {
    if rows != [] {
      var n := |rows| - 1;
      var init := rows[..n];
      assert forall k :: 0 <= k < n ==> init[k] == rows[k];
      ColumnValuesCells(init, col, cells, v);
      if v != "" && exists k :: 0 <= k < |rows| && cells(rows[k])[col] == v {
        var k :| 0 <= k < |rows| && cells(rows[k])[col] == v;
        if k < n {
          assert cells(init[k])[col] == v;
        }
      }
    }
  }

  /**
   * The UIDs read are exactly the non-empty cells of the UID column, and they
   * are read when every data line has that column.
   */
  lemma RowUidsMember(rows: seq<string>, col: nat, uid: string)
    ensures RowUids(rows, col).Ok? <==> forall k :: 0 <= k < |rows| ==> col < |SplitOn(rows[k], '\t')|
    ensures RowUids(rows, col).Ok? ==>
      (uid in RowUids(rows, col).value <==> uid != "" && exists k :: 0 <= k < |rows| && SplitOn(rows[k], '\t')[col] == uid)
  {
    ColumnValuesOk(rows, col, row => SplitOn(row, '\t'));
    if RowUids(rows, col).Ok? {
      ColumnValuesCells(rows, col, row => SplitOn(row, '\t'), uid);
    }
  }

  /** An IndexError on a prefix of the data lines is the run's error. */
  lemma {:induction false} RowUidsErrPrefix(rows: seq<string>, col: nat, k: nat)
    requires k <= |rows| && RowUids(rows[..k], col).Err?
    ensures RowUids(rows, col) == RowUids(rows[..k], col)
    decreases |rows| - k
  {
    if k < |rows| {
      assert rows[..k + 1][..k] == rows[..k];
      RowUidsErrPrefix(rows, col, k + 1);
    } else {
      assert rows[..k] == rows;
    }
  }

  lemma RowUidsStep(rows: seq<string>, col: nat, i: nat)
    requires i < |rows|
    ensures var prev := RowUids(rows[..i], col);
      var fields := SplitOn(rows[i], '\t');
      RowUids(rows[..i + 1], col)
      == if prev.Err? then prev
         else if col >= |fields| then Err(IndexOutOfRange)
         else Ok(prev.value + (if fields[col] != "" then {fields[col]} else {}))
  {
    var prefix := rows[..i + 1];
    assert prefix[..|prefix| - 1] == rows[..i] && prefix[|prefix| - 1] == rows[i];
  }

  /** The loop of main over the manifest's data lines. */
  method ReadUids(rows: seq<string>, col: nat) returns (r: Result<set<string>>)
    ensures r == RowUids(rows, col)
  {
    var needed: set<string> := {};
    var i := 0;
    while i < |rows|
      invariant 0 <= i <= |rows|
      invariant RowUids(rows[..i], col) == Ok(needed)
    {
      var fields := SplitOn(rows[i], '\t');
      RowUidsStep(rows, col, i);
      if col >= |fields| {
        RowUidsErrPrefix(rows, col, i + 1);
        return Err(IndexOutOfRange);
      }
      var uid := fields[col];
      if uid != "" {
        needed := needed + {uid};
      } else {
        assert needed + {} == needed;
      }
      i := i + 1;
    }
    assert rows[..i] == rows;
    return Ok(needed);
  }

  /** The manifest-reading part of main. */
  method NeededUids(manifest: Option<seq<string>>, found: set<string>) returns (r: Result<set<string>>)
    ensures r == NeededOf(manifest, found)
  {
    if manifest.None? {
      return Ok(found);
    }
    var lines := manifest.value;
    var header := SplitOn(if lines == [] then "" else lines[0], '\t');
    var col := IndexOf(header, "Series Instance UID");
    if col.None? {
      col := IndexOf(header, "0020000E");
      if col.None? {
        return Err(MissingColumn("0020000E"));
      }
    }
    r := ReadUids(if lines == [] then [] else lines[1..], col.value);
  }

  // ---------------------------------------------------------------------------
  // Which series get previews, in which order
  // ---------------------------------------------------------------------------

  /** One series to preview: its files, the chosen slice indices and the files they name. */
  datatype Job = Job(uid: string, slices: seq<Path>, chosen: seq<int>, sources: seq<Path>)

  /** The name of a series' first thumbnail. */
  function SliceZero(uid: string): string
  {
    uid + "_slice0.webp"
  }

  /** The series is wanted, found with files, and not already previewed (or overwriting is on). */
  predicate Selected(uid: string, series: map<string, seq<Path>>, needed: set<string>, existing: set<string>, overwrite: bool)
  {
    uid in needed && uid in series && series[uid] != [] && (overwrite || SliceZero(uid) !in existing)
  }

  /** The job is the one main builds for its series. */
  predicate JobFor(job: Job, series: map<string, seq<Path>>)
  {
    job.uid in series && job.slices == series[job.uid]
    && job.chosen == PreviewIndices(|job.slices|)
    && |job.sources| == |job.chosen|
    && forall i :: 0 <= i < |job.chosen| ==>
         0 <= job.chosen[i] < |job.slices| && job.sources[i] == job.slices[job.chosen[i]]
  }

  function Uids(jobs: seq<Job>): (r: seq<string>)
    ensures |r| == |jobs|
  {
    seq(|jobs|, k requires 0 <= k < |jobs| => jobs[k].uid)
  }

  /**
   * The jobs main runs: one per selected series, in ascending UID order, each
   * with the slices chosen for it.
   */
  ghost predicate PlanOf(jobs: seq<Job>, series: map<string, seq<Path>>, needed: set<string>, existing: set<string>, overwrite: bool)
  {
    SortedStrings(Uids(jobs)) && Distinct(Uids(jobs))
    && (forall u :: u in Uids(jobs) <==> Selected(u, series, needed, existing, overwrite))
    && forall k :: 0 <= k < |jobs| ==> JobFor(jobs[k], series)
  }

  lemma {:induction false} DistinctCount(s: seq<string>, x: string)
    requires Distinct(s)
    ensures multiset(s)[x] == if x in s then 1 else 0
  {
    if s != [] {
      var init := s[..|s| - 1];
      assert s == init + [s[|s| - 1]];
      assert Distinct(init);
      DistinctCount(init, x);
      if s[|s| - 1] == x {
        assert x !in init;
      }
    }
  }

  /** A permutation of a list without repeats has none, and holds the same strings. */
  lemma PermutationDistinct(a: seq<string>, b: seq<string>)
    requires Distinct(a) && multiset(b) == multiset(a)
    ensures Distinct(b) && forall u :: u in b <==> u in a
  {
    forall i, j | 0 <= i < j < |b| ensures b[i] != b[j] {
      if b[i] == b[j] {
        assert b == b[..j] + [b[j]] + b[j + 1..];
        assert b[i] in b[..j];
        assert multiset(b)[b[i]] >= 2;
        DistinctCount(a, b[i]);
        assert false;
      }
    }
    assert forall u :: u in b <==> u in multiset(b);
  }

  /** Two distinct lists of the same strings are permutations of one another. */
  lemma SameSetPermutation(a: seq<string>, b: seq<string>)
    requires Distinct(a) && Distinct(b) && forall x :: x in a <==> x in b
    ensures multiset(a) == multiset(b)
  {
    forall x ensures multiset(a)[x] == multiset(b)[x] {
      DistinctCount(a, x);
      DistinctCount(b, x);
    }
  }

  /** The plan is determined: two job lists meeting it are equal. */
  lemma PlanUnique(jobs1: seq<Job>, jobs2: seq<Job>, series: map<string, seq<Path>>, needed: set<string>, existing: set<string>, overwrite: bool)
    requires PlanOf(jobs1, series, needed, existing, overwrite)
    requires PlanOf(jobs2, series, needed, existing, overwrite)
    ensures jobs1 == jobs2
  {
    SameSetPermutation(Uids(jobs1), Uids(jobs2));
    SortedPermutationUnique(Uids(jobs1), Uids(jobs2));
    forall k | 0 <= k < |jobs1| ensures jobs1[k] == jobs2[k] {
      assert jobs1[k].uid == Uids(jobs1)[k] == Uids(jobs2)[k] == jobs2[k].uid;
      assert jobs1[k].sources == jobs2[k].sources;
    }
  }

  /** The sources of a job are distinct files of its series in series order, first and last included. */
  lemma JobSources(job: Job, series: map<string, seq<Path>>)
    requires JobFor(job, series)
    ensures |job.sources| == Min(|job.slices|, PreviewCount)
    ensures forall i :: 0 <= i < |job.sources| ==> job.sources[i] in job.slices
    ensures job.slices != [] ==> job.sources[0] == job.slices[0] && job.sources[|job.sources| - 1] == job.slices[|job.slices| - 1]
  {
    PreviewIndicesShape(|job.slices|);
  }

  /** sorted(s) for a set of UIDs. */
  method SortedList(s: set<string>) returns (r: seq<string>)
    ensures SortedStrings(r) && Distinct(r)
    ensures forall u :: u in r <==> u in s
  {
    var acc: seq<string> := [];
    var rest := s;
    while rest != {}
      invariant rest <= s
      invariant forall u :: u in acc <==> u in s && u !in rest
      invariant Distinct(acc)
      decreases |rest|
    {
      var u :| u in rest;
      acc := acc + [u];
      rest := rest - {u};
    }
    r := SortStrings(acc);
    PermutationDistinct(acc, r);
  }

  /** A job for the next UID of a sorted list without repeats keeps the jobs sorted and distinct. */
  lemma AppendJobInOrder(jobs: seq<Job>, job: Job, order: seq<string>, k: nat)
    requires k < |order| && SortedStrings(order) && Distinct(order) && job.uid == order[k]
    requires SortedStrings(Uids(jobs)) && Distinct(Uids(jobs))
    requires forall u :: u in Uids(jobs) ==> u in order[..k]
    ensures Uids(jobs + [job]) == Uids(jobs) + [job.uid]
    ensures SortedStrings(Uids(jobs + [job])) && Distinct(Uids(jobs + [job]))
  {
    forall j | 0 <= j < |jobs| ensures LexLe(jobs[j].uid, job.uid) && jobs[j].uid != job.uid {
      assert Uids(jobs)[j] == jobs[j].uid;
      assert jobs[j].uid in order[..k];
      var m :| 0 <= m < k && order[m] == jobs[j].uid;
      assert LexLe(order[m], order[k]) && order[m] != order[k];
    }
    assert Uids(jobs + [job]) == Uids(jobs) + [job.uid];
  }

  /**
   * The preview loop of main, without the rendering: the UIDs wanted but not
   * found are reported, and the wanted UIDs found are visited in sorted order.
   */
  method PlanPreviews(series: map<string, seq<Path>>, needed: set<string>, existing: set<string>, overwrite: bool)
    returns (jobs: seq<Job>, missing: set<string>)
    ensures missing == needed - series.Keys
    ensures PlanOf(jobs, series, needed, existing, overwrite)
  {
    missing := needed - series.Keys;
    var order := SortedList(needed * series.Keys);
    jobs := [];
    var k := 0;
    while k < |order|
      invariant 0 <= k <= |order|
      invariant SortedStrings(Uids(jobs)) && Distinct(Uids(jobs))
      invariant forall u :: u in Uids(jobs) <==> u in order[..k] && Selected(u, series, needed, existing, overwrite)
      invariant forall j :: 0 <= j < |jobs| ==> JobFor(jobs[j], series)
    {
      var uid := order[k];
      assert uid in order;
      assert order[..k + 1] == order[..k] + [uid];
      var slices := series[uid];
      if slices == [] || (SliceZero(uid) in existing && !overwrite) {
        k := k + 1;
        continue;
      }
      var chosen := PreviewIndices(|slices|);
      PreviewIndicesShape(|slices|);
      var sources := seq(|chosen|, i requires 0 <= i < |chosen| => slices[chosen[i]]);
      var job := Job(uid, slices, chosen, sources);
      AppendJobInOrder(jobs, job, order, k);
      jobs := jobs + [job];
      k := k + 1;
    }
    assert order[..k] == order;
  }

  /**
   * main: gather the series, read the manifest, then plan one job per
   * selected series. A read failure the gathering does not catch, or a
   * manifest without a UID column or with a short line, ends the run.
   */
  method Run(disk: Disk, walk: seq<Path>, manifest: Option<seq<string>>, existing: set<string>, overwrite: bool)
    returns (r: Result<seq<Job>>)
    ensures FirstFatal(disk, walk).Some? ==> r == Err(ReadFailed(FirstFatal(disk, walk).value))
    ensures FirstFatal(disk, walk).None? ==>
      var series := DicomUtils.SeriesFiles(disk, walk);
      var needed := NeededOf(manifest, series.Keys);
      (needed.Err? ==> r == Err(needed.error))
      && (needed.Ok? ==> r.Ok? && PlanOf(r.value, series, needed.value, existing, overwrite))
  {
    var gathered := GatherSeriesFiles(disk, walk);
    if gathered.Err? {
      return Err(gathered.error);
    }
    var series := gathered.value;
    var needed := NeededUids(manifest, series.Keys);
    if needed.Err? {
      return Err(needed.error);
    }
    var jobs, missing := PlanPreviews(series, needed.value, existing, overwrite);
    return Ok(jobs);
  }

  /** Without a manifest every series found is previewed, except those already done when not overwriting. */
  lemma NoManifestPreviewsAll(disk: Disk, walk: seq<Path>, jobs: seq<Job>, existing: set<string>, overwrite: bool, uid: string)
    requires NeededOf(None, DicomUtils.SeriesFiles(disk, walk).Keys).Ok?
    requires PlanOf(jobs, DicomUtils.SeriesFiles(disk, walk), NeededOf(None, DicomUtils.SeriesFiles(disk, walk).Keys).value, existing, overwrite)
    ensures uid in Uids(jobs) <==> uid in DicomUtils.SeriesFiles(disk, walk) && (overwrite || SliceZero(uid) !in existing)
  {
    if uid in DicomUtils.SeriesFiles(disk, walk) {
      GatheredListsNonEmpty(disk, walk, uid);
    }
  }
}
