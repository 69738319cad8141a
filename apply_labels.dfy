/**
 * apply_labels.py: writes each series' annotation into the ProtocolName of
 * its files, or moves the files of series annotated DELETE into a trash tree,
 * and counts what happened to every file.
 */
module ApplyLabels {
  import opened Text
  import opened Dicom

  /** The LO value representation holds at most 64 characters (section 6.2 of DICOM PS3.5). */
  const ProtoMaxLen: nat := 64

  /** The trash directory, directly under the scanned root. */
  const TrashDir: string := "WAITING_DELETION"

  // ---------------------------------------------------------------------------
  // classify_acq_dim
  // ---------------------------------------------------------------------------

  datatype Dim = Dim4 | Dim3 | Dim2

  function DimText(d: Dim): string
  {
    match d
    case Dim4 => "4D"
    case Dim3 => "3D"
    case Dim2 => "2D"
  }

  /** to_float: float(val), or None when the element is absent or float() raises. */
  function ToFloat(v: Option<string>): Option<Float>
  {
    match v
    case None => None
    case Some(text) => ParseFloat(text)
  }

  /** NumberOfTemporalPositions reads as an integer above one. */
  predicate Temporal(ds: Dataset)
  {
    var ntp := Attr(ds, NumberOfTemporalPositionsTag);
    ntp.Some? && ParseInt(ntp.value).Some? && ParseInt(ntp.value).value > 1
  }

  /** SliceThickness or SpacingBetweenSlices reads as a float below 2.0. */
  predicate Thin(ds: Dataset)
  {
    var st := ToFloat(Attr(ds, SliceThicknessTag));
    var sb := ToFloat(Attr(ds, SpacingBetweenSlicesTag));
    (st.Some? && FloatLess(st.value, 2.0)) || (sb.Some? && FloatLess(sb.value, 2.0))
  }

  /**
   * classify_acq_dim: 4D when NumberOfTemporalPositions (unless absent, "" or
   * "0") reads as an integer above one; else 3D when either spacing reads as a
   * float below 2.0; else 2D. Nothing unreadable raises.
   */
  function ClassifyAcqDim(ds: Dataset): (d: Dim)
    ensures d == Dim4 <==> Temporal(ds)
    ensures d == Dim3 <==> !Temporal(ds) && Thin(ds)
    ensures d == Dim2 <==> !Temporal(ds) && !Thin(ds)
  {
    var ntp := Attr(ds, NumberOfTemporalPositionsTag);
    SkippedCountsNotTemporal();
    if ntp.Some? && ntp.value != "" && ntp.value != "0"
       && ParseInt(ntp.value).Some? && ParseInt(ntp.value).value > 1
    then Dim4
    else
      var st := ToFloat(Attr(ds, SliceThicknessTag));
      var sb := ToFloat(Attr(ds, SpacingBetweenSlicesTag));
      if (st.Some? && FloatLess(st.value, 2.0)) || (sb.Some? && FloatLess(sb.value, 2.0)) then Dim3
      else Dim2
  }

  /** The values the guard of classify_acq_dim skips would not read as above one anyway. */
  lemma SkippedCountsNotTemporal()
    ensures ParseInt("").None? && ParseInt("0") == Some(0)
  {
    assert Strip("") == "";
    assert Strip("0") == "0";
    assert DecimalValue("0") == 0 by { assert "0"[..0] == []; }
  }

  /** A temporal count wins over any slice spacing. */
  lemma TemporalWins(ds: Dataset, thickness: string, spacing: string)
    requires Temporal(ds)
    ensures ClassifyAcqDim(ds[SliceThicknessTag := thickness][SpacingBetweenSlicesTag := spacing]) == Dim4
  {
    var ds' := ds[SliceThicknessTag := thickness][SpacingBetweenSlicesTag := spacing];
    assert Attr(ds', NumberOfTemporalPositionsTag) == Attr(ds, NumberOfTemporalPositionsTag);
  }

  /** Unreadable values count as absent: a non-numeric thickness changes nothing. */
  lemma UnreadableThicknessIgnored(ds: Dataset, junk: string)
    requires ParseFloat(junk).None?
    ensures ClassifyAcqDim(ds[SliceThicknessTag := junk]) == ClassifyAcqDim(ds - {SliceThicknessTag})
  {
    var a, b := ds[SliceThicknessTag := junk], ds - {SliceThicknessTag};
    assert Attr(a, NumberOfTemporalPositionsTag) == Attr(b, NumberOfTemporalPositionsTag);
    assert Attr(a, SpacingBetweenSlicesTag) == Attr(b, SpacingBetweenSlicesTag);
    assert ToFloat(Attr(a, SliceThicknessTag)) == None == ToFloat(Attr(b, SliceThicknessTag));
    assert Temporal(a) == Temporal(b) && Thin(a) == Thin(b);
  }

  // ---------------------------------------------------------------------------
  // build_protocol_name
  // ---------------------------------------------------------------------------

  function ProtocolPrefix(annot: string, dim: string, plane: string): string
  {
    "seq_" + annot + "_acq_" + dim + "_plane_" + plane + "___"
  }

  /**
   * build_protocol_name: the whole prefix, then as much of the original name
   * as fits in ProtoMaxLen characters; the prefix alone may exceed the limit.
   */
  function BuildProtocolName(orig: string, annot: string, dim: string, plane: string): (r: string)
    ensures var prefix := ProtocolPrefix(annot, dim, plane);
      |prefix| <= |r| && r[..|prefix|] == prefix && r[|prefix|..] <= orig
      && (|prefix| <= ProtoMaxLen ==> |r| == |prefix| + Min(|orig|, ProtoMaxLen - |prefix|) <= ProtoMaxLen)
      && (|prefix| >= ProtoMaxLen ==> r == prefix)
  {
    var prefix := ProtocolPrefix(annot, dim, plane);
    var room := ProtoMaxLen - |prefix|;
    var keep := if room < 0 then 0 else room;
    var r := prefix + orig[..Min(keep, |orig|)];
    assert r[|prefix|..] == orig[..Min(keep, |orig|)];
    r
  }

  /**
   * Labelling is not idempotent: while there is room, a second run prepends
   * the prefix again, so the name changes every time.
   */
  lemma ReapplyPrependsAgain(orig: string, annot: string, dim: string, plane: string)
    requires 2 * |ProtocolPrefix(annot, dim, plane)| + |orig| <= ProtoMaxLen
    ensures var once := BuildProtocolName(orig, annot, dim, plane);
      BuildProtocolName(once, annot, dim, plane) == ProtocolPrefix(annot, dim, plane) + once != once
  {
    var prefix := ProtocolPrefix(annot, dim, plane);
    var once := BuildProtocolName(orig, annot, dim, plane);
    assert once == prefix + orig by {
      assert once[..|prefix|] == prefix && once[|prefix|..] == orig;
      assert once == once[..|prefix|] + once[|prefix|..];
    }
    var twice := BuildProtocolName(once, annot, dim, plane);
    assert twice == prefix + once by {
      assert twice[..|prefix|] == prefix && twice[|prefix|..] == once;
      assert twice == twice[..|prefix|] + twice[|prefix|..];
    }
  }

  // ---------------------------------------------------------------------------
  // handle_file
  // ---------------------------------------------------------------------------

  /** The status keys handle_file returns. */
  datatype Outcome = Edited | Moved | Skipped | Unchanged | Error

  /** A manifest entry: the stripped Annotation and Plane Orientation cells. */
  datatype Label = Label(annotation: string, plane: string)

  type UidMap = map<string, Label>

  /** What handle_file does to the tree. */
  datatype Action = Keep | MoveToTrash | Rewrite(protocolName: string)

  datatype Decision = Decision(outcome: Outcome, action: Action)

  /** The trash path of a file: trash_root / rel. */
  function TrashPath(p: Path): Path
  {
    [TrashDir] + p
  }

  /** The ProtocolName handle_file would write, given the file's header and its series' label. */
  function NewProtocolName(ds: Dataset, entry: Label): string
  {
    BuildProtocolName(
      ValueText(ds, ProtocolNameTag),
      if entry.annotation == "" then "UNKNOWN" else entry.annotation,
      DimText(ClassifyAcqDim(ds)),
      if entry.plane == "" then "UNKNOWN" else entry.plane)
  }

  /** The decision of handle_file for one read result. */
  function Decide(read: ReadResult, uidMap: UidMap, dryRun: bool): Decision
  {
    match read
    case Failed(_) => Decision(Error, Keep)
    case Parsed(ds) =>
      var uid := Attr(ds, SeriesInstanceUidTag);
      if uid.None? || uid.value !in uidMap then Decision(Skipped, Keep)
      else
        var entry := uidMap[uid.value];
        if Upper(entry.annotation) == "DELETE" then
          Decision(Moved, if dryRun then Keep else MoveToTrash)
        else
          var name := NewProtocolName(ds, entry);
          if name == ValueText(ds, ProtocolNameTag) then Decision(Unchanged, Keep)
          else Decision(Edited, if dryRun then Keep else Rewrite(name))
  }

  /** The tree after an action on file p. */
  function Apply(disk: Disk, p: Path, action: Action): Disk
    requires action != Keep ==> p in disk && disk[p].Slice?
  {
    match action
    case Keep => disk
    case MoveToTrash => (disk - {p})[TrashPath(p) := disk[p]]
    case Rewrite(name) => disk[p := Slice(disk[p].ds[ProtocolNameTag := name], disk[p].pixels)]
  }

  /** A file other than p, and outside the trash tree, reads the same after an action on p. */
  lemma ApplyElsewhere(disk: Disk, p: Path, action: Action, q: Path)
    requires action != Keep ==> p in disk && disk[p].Slice?
    requires q != p && (|q| == 0 || q[0] != TrashDir)
    ensures Read(Apply(disk, p, action), q) == Read(disk, q)
  {
    assert q != TrashPath(p);
  }

  /** Only a parsed file is ever moved or rewritten. */
  lemma ActionsNeedParsed(disk: Disk, p: Path, uidMap: UidMap, dryRun: bool)
    ensures Decide(Read(disk, p), uidMap, dryRun).action != Keep ==> p in disk && disk[p].Slice?
  {
  }

  /** Skipped exactly when a read file has no SeriesInstanceUID or one that is not a key of uid_map. */
  lemma DecideSkipped(read: ReadResult, uidMap: UidMap, dryRun: bool)
    ensures Decide(read, uidMap, dryRun).outcome == Skipped
        <==> read.Parsed? && (Attr(read.ds, SeriesInstanceUidTag).None? || Attr(read.ds, SeriesInstanceUidTag).value !in uidMap)
  {
  }

  /**
   * The outcome classes of handle_file: unreadable is an error; a series
   * missing from the map is skipped; DELETE in any letter case is moved, and
   * dry runs change nothing; unchanged exactly when the new name equals the
   * current one; otherwise edited, writing the new name and nothing else.
   */
  lemma DecideOutcomes(disk: Disk, p: Path, uidMap: UidMap, dryRun: bool)
    ensures var d := Decide(Read(disk, p), uidMap, dryRun);
      && (Read(disk, p).Failed? <==> d.outcome == Error)
      && (d.outcome == Skipped <==> (Read(disk, p).Parsed? &&
            Attr(Read(disk, p).ds, SeriesInstanceUidTag) !in (set u | u in uidMap :: Some(u))))
      && (dryRun ==> d.action == Keep)
      && (d.outcome in {Error, Skipped, Unchanged} ==> d.action == Keep)
      && (d.outcome == Moved && !dryRun ==> d.action == MoveToTrash)
      && (d.outcome == Edited && !dryRun ==> (d.action.Rewrite?
            && d.action.protocolName != ValueText(Read(disk, p).ds, ProtocolNameTag)))
    ensures Read(disk, p).Parsed? && Attr(Read(disk, p).ds, SeriesInstanceUidTag).Some?
            && Attr(Read(disk, p).ds, SeriesInstanceUidTag).value in uidMap ==>
      var d := Decide(Read(disk, p), uidMap, dryRun);
      var ds := Read(disk, p).ds;
      var entry := uidMap[Attr(ds, SeriesInstanceUidTag).value];
      && (d.outcome == Moved <==> Upper(entry.annotation) == "DELETE")
      && (d.outcome == Unchanged <==>
            Upper(entry.annotation) != "DELETE" && NewProtocolName(ds, entry) == ValueText(ds, ProtocolNameTag))
      && (d.outcome == Edited && !dryRun ==> d.action == Rewrite(NewProtocolName(ds, entry)))
  {
    var d := Decide(Read(disk, p), uidMap, dryRun);
    if Read(disk, p).Parsed? {
      var uid := Attr(Read(disk, p).ds, SeriesInstanceUidTag);
      if uid.Some? && uid.value in uidMap {
        assert uid in (set u | u in uidMap :: Some(u));
      }
    }
  }

  /** The spellings of DELETE that upper() accepts: "delete" with each letter in either case. */
  lemma DeleteSpellings(a: string)
    ensures Upper(a) == "DELETE"
        <==> |a| == 6 && forall i :: 0 <= i < 6 ==> a[i] == "delete"[i] || a[i] == "DELETE"[i]
  {
    if |a| == 6 && forall i :: 0 <= i < 6 ==> a[i] == "delete"[i] || a[i] == "DELETE"[i] {
      forall i | 0 <= i < 6 ensures Upper(a)[i] == "DELETE"[i] {
        assert UpperChar(a[i]) == "DELETE"[i];
      }
    }
    if Upper(a) == "DELETE" {
      forall i | 0 <= i < 6 ensures a[i] == "delete"[i] || a[i] == "DELETE"[i] {
        assert UpperChar(a[i]) == "DELETE"[i];
      }
    }
  }

  /** An annotation that upper-cases to DELETE, in whatever letter case, moves the file (or only reports it in a dry run). */
  lemma DeleteAnyCase(disk: Disk, p: Path, uidMap: UidMap, uid: string, dryRun: bool)
    requires Read(disk, p).Parsed? && Attr(Read(disk, p).ds, SeriesInstanceUidTag) == Some(uid)
    requires uid in uidMap && |uidMap[uid].annotation| == 6
    requires forall i :: 0 <= i < 6 ==> uidMap[uid].annotation[i] in {"delete"[i], "DELETE"[i]}
    ensures Decide(Read(disk, p), uidMap, dryRun) == Decision(Moved, if dryRun then Keep else MoveToTrash)
  {
    DeleteSpellings(uidMap[uid].annotation);
  }

  /** Rewriting ProtocolName leaves the acquisition class of the file as it was. */
  lemma RewriteKeepsClass(ds: Dataset, name: string)
    ensures ClassifyAcqDim(ds[ProtocolNameTag := name]) == ClassifyAcqDim(ds)
  {
    var ds' := ds[ProtocolNameTag := name];
    assert Attr(ds', NumberOfTemporalPositionsTag) == Attr(ds, NumberOfTemporalPositionsTag);
    assert Attr(ds', SliceThicknessTag) == Attr(ds, SliceThicknessTag);
    assert Attr(ds', SpacingBetweenSlicesTag) == Attr(ds, SpacingBetweenSlicesTag);
  }

  /**
   * A second run over an edited file edits it again while the name has room:
   * the prefix is prepended once more.
   */
  lemma SecondRunEditsAgain(ds: Dataset, entry: Label)
    requires var prefix := ProtocolPrefix(
               if entry.annotation == "" then "UNKNOWN" else entry.annotation,
               DimText(ClassifyAcqDim(ds)),
               if entry.plane == "" then "UNKNOWN" else entry.plane);
             2 * |prefix| + |ValueText(ds, ProtocolNameTag)| <= ProtoMaxLen
    ensures var once := NewProtocolName(ds, entry);
      var ds' := ds[ProtocolNameTag := once];
      NewProtocolName(ds', entry) != once
  {
    var once := NewProtocolName(ds, entry);
    var ds' := ds[ProtocolNameTag := once];
    RewriteKeepsClass(ds, once);
    var annot := if entry.annotation == "" then "UNKNOWN" else entry.annotation;
    var plane := if entry.plane == "" then "UNKNOWN" else entry.plane;
    ReapplyPrependsAgain(ValueText(ds, ProtocolNameTag), annot, DimText(ClassifyAcqDim(ds)), plane);
  }

  // ---------------------------------------------------------------------------
  // main: the manifest map, the file filter and the counters
  // ---------------------------------------------------------------------------

  /** The entry a manifest row contributes to uid_map. */
  function LabelOf(row: Row): Label
  {
    Label(Strip(Cell(row, "Annotation")), Strip(Cell(row, "Plane Orientation")))
  }

  /** uid_map after the rows, later rows overwriting earlier ones. */
  function UidMapOf(rows: seq<Row>): UidMap
    requires forall i :: 0 <= i < |rows| ==> "Series Instance UID" in rows[i]
  {
    if rows == [] then map[]
    else
      var last := rows[|rows| - 1];
      UidMapOf(rows[..|rows| - 1])[last["Series Instance UID"] := LabelOf(last)]
  }

  /** Every UID of the manifest is a key, with the label of the last row that names it. */
  lemma {:induction false} UidMapLastRowWins(rows: seq<Row>, k: nat)
    requires forall i :: 0 <= i < |rows| ==> "Series Instance UID" in rows[i]
    requires k < |rows|
    requires forall j :: k < j < |rows| ==> rows[j]["Series Instance UID"] != rows[k]["Series Instance UID"]
    ensures rows[k]["Series Instance UID"] in UidMapOf(rows)
    ensures UidMapOf(rows)[rows[k]["Series Instance UID"]] == LabelOf(rows[k])
    decreases |rows|
  {
    if k < |rows| - 1 {
      UidMapLastRowWins(rows[..|rows| - 1], k);
    }
  }

  /** Only UIDs named by some row are keys. */
  lemma {:induction false} UidMapKeys(rows: seq<Row>)
    requires forall i :: 0 <= i < |rows| ==> "Series Instance UID" in rows[i]
    ensures UidMapOf(rows).Keys == set i | 0 <= i < |rows| :: rows[i]["Series Instance UID"]
    decreases |rows|
  {
    if rows != [] {
      UidMapKeys(rows[..|rows| - 1]);
    }
  }

  /**
   * The manifest loop of main: row["Series Instance UID"] raises KeyError
   * when the column is missing; the cells are stripped.
   */
  method LoadUidMap(rows: seq<Row>) returns (r: Result<UidMap>)
    ensures r.Ok? <==> forall i :: 0 <= i < |rows| ==> "Series Instance UID" in rows[i]
    ensures r.Ok? ==> r.value == UidMapOf(rows)
    ensures r.Err? ==> r.error == MissingColumn("Series Instance UID")
  {
    var m: UidMap := map[];
    var i := 0;
    while i < |rows|
      invariant 0 <= i <= |rows|
      invariant forall j :: 0 <= j < i ==> "Series Instance UID" in rows[j]
      invariant m == UidMapOf(rows[..i])
    {
      var row := rows[i];
      if "Series Instance UID" !in row {
        return Err(MissingColumn("Series Instance UID"));
      }
      assert rows[..i + 1][..i] == rows[..i];
      m := m[row["Series Instance UID"] := Label(Strip(Cell(row, "Annotation")), Strip(Cell(row, "Plane Orientation")))];
      i := i + 1;
    }
    assert rows[..i] == rows;
    return Ok(m);
  }

  function LastIndexOf(s: string, c: char): (i: int)
    ensures -1 <= i < |s|
    ensures i >= 0 ==> s[i] == c
    ensures forall j :: i < j < |s| ==> s[j] != c
  {
    if s == [] then -1
    else if s[|s| - 1] == c then |s| - 1
    else LastIndexOf(s[..|s| - 1], c)
  }

  /** pathlib's suffix of a file name: from the last dot, unless that dot leads or ends the name. */
  function Suffix(name: string): (r: string)
    ensures r == [] || (r[0] == '.' && |r| >= 2 && '.' !in r[1..])
  {
    var i := LastIndexOf(name, '.');
    if 0 < i < |name| - 1 then name[i..] else ""
  }

  /** p.suffix.lower() in {".dcm", ".ima", ""}. */
  predicate IsCandidate(name: string)
  {
    Lower(Suffix(name)) in {".dcm", ".ima", ""}
  }

  lemma {:induction false} LastDotAfter(stem: string, ext: string)
    requires '.' !in ext
    ensures LastIndexOf(stem + "." + ext, '.') == |stem|
    decreases |ext|
  {
    var s := stem + "." + ext;
    if ext == [] {
      assert s[|s| - 1] == '.';
    } else {
      assert s[..|s| - 1] == stem + "." + ext[..|ext| - 1];
      assert ext[|ext| - 1] in ext;
      LastDotAfter(stem, ext[..|ext| - 1]);
    }
  }

  /**
   * A name stem.ext with a non-empty stem and a non-empty, dot-free extension
   * is a candidate exactly when the extension is dcm or ima in any letter case;
   * a name without a dot always is.
   */
  lemma CandidateNames(stem: string, ext: string)
    requires stem != [] && ext != [] && '.' !in ext
    ensures IsCandidate(stem + "." + ext) <==> Lower("." + ext) in {".dcm", ".ima"}
    ensures '.' !in stem ==> IsCandidate(stem)
  {
    LastDotAfter(stem, ext);
    var name := stem + "." + ext;
    assert name[|stem|..] == "." + ext;
    if '.' !in stem {
      assert forall j :: 0 <= j < |stem| ==> stem[j] != '.';
    }
  }

  /** The counters of main, one per status key. */
  datatype Counts = Counts(edited: nat, moved: nat, skipped: nat, notChanged: nat, error: nat)

  function Bump(c: Counts, o: Outcome): Counts
  {
    match o
    case Edited => c.(edited := c.edited + 1)
    case Moved => c.(moved := c.moved + 1)
    case Skipped => c.(skipped := c.skipped + 1)
    case Unchanged => c.(notChanged := c.notChanged + 1)
    case Error => c.(error := c.error + 1)
  }

  /** counts[result] += 1 over a sequence of results, from all zeros. */
  function Tally(os: seq<Outcome>): Counts
  {
    if os == [] then Counts(0, 0, 0, 0, 0) else Bump(Tally(os[..|os| - 1]), os[|os| - 1])
  }

  function Total(c: Counts): nat
  {
    c.edited + c.moved + c.skipped + c.notChanged + c.error
  }

  /** Bumping the counter of one more result keeps each counter equal to its key's count. */
  lemma BumpCounts(c: Counts, m: multiset<Outcome>, o: Outcome, n: nat)
    requires c.edited == m[Edited] && c.moved == m[Moved] && c.skipped == m[Skipped]
    requires c.notChanged == m[Unchanged] && c.error == m[Error] && Total(c) == n
    ensures var c', m' := Bump(c, o), m + multiset{o};
      c'.edited == m'[Edited] && c'.moved == m'[Moved] && c'.skipped == m'[Skipped]
      && c'.notChanged == m'[Unchanged] && c'.error == m'[Error] && Total(c') == n + 1
  {
    MultisetAddCount(m, o, Edited);
    MultisetAddCount(m, o, Moved);
    MultisetAddCount(m, o, Skipped);
    MultisetAddCount(m, o, Unchanged);
    MultisetAddCount(m, o, Error);
  }

  /** Each counter is the number of results with its key, so the counters sum to the number of files. */
  lemma {:induction false} TallyCounts(os: seq<Outcome>)
    ensures var c := Tally(os);
      c.edited == multiset(os)[Edited] && c.moved == multiset(os)[Moved]
      && c.skipped == multiset(os)[Skipped] && c.notChanged == multiset(os)[Unchanged]
      && c.error == multiset(os)[Error] && Total(c) == |os|
    decreases |os|
  {
    if os != [] {
      var init := os[..|os| - 1];
      TallyCounts(init);
      InitLast(os);
      MultisetSnoc(init, os[|os| - 1]);
      BumpCounts(Tally(init), multiset(init), os[|os| - 1], |init|);
    }
  }

  /** The counters do not depend on the order in which the workers finish. */
  lemma TallyOrderFree(os: seq<Outcome>, os': seq<Outcome>)
    requires multiset(os) == multiset(os')
    ensures Tally(os) == Tally(os')
  {
    TallyCounts(os);
    TallyCounts(os');
  }

  // ---------------------------------------------------------------------------
  // The tree after the work loop
  // ---------------------------------------------------------------------------

  /** The action handle_file takes on the file at p when it reads the tree disk. */
  function ActionOn(disk: Disk, p: Path, uidMap: UidMap, dryRun: bool): Action
  {
    Decide(Read(disk, p), uidMap, dryRun).action
  }

  /** handle_file on p: the tree after its decided action. */
  function Step(disk: Disk, p: Path, uidMap: UidMap, dryRun: bool): Disk
  {
    ActionsNeedParsed(disk, p, uidMap, dryRun);
    Apply(disk, p, ActionOn(disk, p, uidMap, dryRun))
  }

  /** The tree after handling the candidates one after another. */
  function Sequential(disk: Disk, candidates: seq<Path>, uidMap: UidMap, dryRun: bool): Disk
  {
    if candidates == [] then disk
    else Step(Sequential(disk, candidates[..|candidates| - 1], uidMap, dryRun), candidates[|candidates| - 1], uidMap, dryRun)
  }

  /** Distinct candidate paths, none of them under the trash directory. */
  predicate DistinctOutsideTrash(candidates: seq<Path>)
  {
    (forall i, j :: 0 <= i < j < |candidates| ==> candidates[i] != candidates[j])
    && (forall i :: 0 <= i < |candidates| ==> |candidates[i]| == 0 || candidates[i][0] != TrashDir)
  }

  /** The paths among the candidates. */
  function Handled(candidates: seq<Path>): set<Path>
  {
    set c | c in candidates
  }

  /** Path q holds the same file (or none) in a and b. */
  predicate SameAt(a: Disk, b: Disk, q: Path)
  {
    (q in a <==> q in b) && (q in a ==> a[q] == b[q])
  }

  /**
   * What path q holds in tree r after every file in handled was handled with
   * the action decided on tree disk: a moved file is gone and sits at its
   * trash path, a rewritten file holds its header with the new ProtocolName,
   * and every other path holds what it held before.
   */
  predicate FileAfter(disk: Disk, handled: set<Path>, uidMap: UidMap, dryRun: bool, r: Disk, q: Path)
  {
    if q in handled then
      match ActionOn(disk, q, uidMap, dryRun)
      case Keep => SameAt(disk, r, q)
      case MoveToTrash => q !in r
      case Rewrite(name) =>
        q in disk && disk[q].Slice? && q in r
        && r[q] == Slice(disk[q].ds[ProtocolNameTag := name], disk[q].pixels)
    else if |q| > 0 && q[0] == TrashDir && q[1..] in handled && ActionOn(disk, q[1..], uidMap, dryRun) == MoveToTrash then
      q[1..] in disk && q in r && r[q] == disk[q[1..]]
    else SameAt(disk, r, q)
  }

  /** Two trees that both fit FileAfter at q hold the same there. */
  lemma FileAfterUnique(disk: Disk, handled: set<Path>, uidMap: UidMap, dryRun: bool, r: Disk, r': Disk, q: Path)
    requires FileAfter(disk, handled, uidMap, dryRun, r, q) && FileAfter(disk, handled, uidMap, dryRun, r', q)
    ensures SameAt(r, r', q)
  {
  }

  /** One more handled file p, decided on the tree as it was before the run, keeps FileAfter at q. */
  lemma FileAfterStep(disk: Disk, handled: set<Path>, uidMap: UidMap, dryRun: bool, r: Disk, p: Path, q: Path)
    requires p !in handled && (|p| == 0 || p[0] != TrashDir)
    requires forall h :: h in handled ==> |h| == 0 || h[0] != TrashDir
    requires FileAfter(disk, handled, uidMap, dryRun, r, p)
    requires FileAfter(disk, handled, uidMap, dryRun, r, q)
    ensures ActionOn(r, p, uidMap, dryRun) == ActionOn(disk, p, uidMap, dryRun)
    ensures FileAfter(disk, handled + {p}, uidMap, dryRun, Step(r, p, uidMap, dryRun), q)
  {
    assert SameAt(disk, r, p);
    assert Read(r, p) == Read(disk, p);
    var a := ActionOn(disk, p, uidMap, dryRun);
    var r' := Step(r, p, uidMap, dryRun);
    assert r' == Apply(r, p, a);
    if q == p {
    } else if q == TrashPath(p) && a == MoveToTrash {
      assert q[1..] == p && q !in handled;
      assert p in r && r[p] == disk[p];
      assert r'[q] == r[p];
    } else {
      assert SameAt(r, r', q);
      if |q| > 0 && q[0] == TrashDir {
        assert q[1..] == p ==> q == TrashPath(p);
      }
    }
  }

  /** Handling distinct files outside the trash one after another acts on each as the tree before the run decides. */
  lemma {:induction false} SequentialFileAfter(disk: Disk, candidates: seq<Path>, uidMap: UidMap, dryRun: bool)
    requires DistinctOutsideTrash(candidates)
    ensures forall q :: FileAfter(disk, Handled(candidates), uidMap, dryRun, Sequential(disk, candidates, uidMap, dryRun), q)
    decreases |candidates|
  {
    if candidates == [] {
      forall q ensures FileAfter(disk, Handled(candidates), uidMap, dryRun, disk, q) {
        assert q !in Handled(candidates);
      }
    } else {
      var n := |candidates|;
      var init, p := candidates[..n - 1], candidates[n - 1];
      assert DistinctOutsideTrash(init);
      SequentialFileAfter(disk, init, uidMap, dryRun);
      var handled := Handled(init);
      var r := Sequential(disk, init, uidMap, dryRun);
      assert p !in handled;
      assert (Handled(candidates)) == handled + {p} by {
        InitLast(candidates);
      }
      forall q ensures FileAfter(disk, handled + {p}, uidMap, dryRun, Sequential(disk, candidates, uidMap, dryRun), q) {
        FileAfterStep(disk, handled, uidMap, dryRun, r, p, q);
      }
    }
  }

  /** Before candidate k is handled, it reads as it did before the run. */
  lemma NextReadsAsBefore(disk: Disk, candidates: seq<Path>, k: nat, uidMap: UidMap, dryRun: bool)
    requires DistinctOutsideTrash(candidates) && k < |candidates|
    ensures Read(Sequential(disk, candidates[..k], uidMap, dryRun), candidates[k]) == Read(disk, candidates[k])
  {
    var done := candidates[..k];
    assert DistinctOutsideTrash(done);
    SequentialFileAfter(disk, done, uidMap, dryRun);
    assert candidates[k] !in Handled(done);
    assert FileAfter(disk, Handled(done), uidMap, dryRun, Sequential(disk, done, uidMap, dryRun), candidates[k]);
  }

  /**
   * The tree after the run does not depend on the order in which the workers
   * take the files: any order of the same distinct files outside the trash
   * leaves the same tree.
   */
  lemma SequentialOrderFree(disk: Disk, candidates: seq<Path>, candidates': seq<Path>, uidMap: UidMap, dryRun: bool)
    requires DistinctOutsideTrash(candidates) && DistinctOutsideTrash(candidates')
    requires multiset(candidates) == multiset(candidates')
    ensures Sequential(disk, candidates, uidMap, dryRun) == Sequential(disk, candidates', uidMap, dryRun)
  {
    var r := Sequential(disk, candidates, uidMap, dryRun);
    var r' := Sequential(disk, candidates', uidMap, dryRun);
    var handled := Handled(candidates);
    assert handled == Handled(candidates') by {
      forall c ensures c in candidates <==> c in candidates' {
        assert c in candidates <==> c in multiset(candidates);
        assert c in candidates' <==> c in multiset(candidates');
      }
    }
    SequentialFileAfter(disk, candidates, uidMap, dryRun);
    SequentialFileAfter(disk, candidates', uidMap, dryRun);
    forall q ensures SameAt(r, r', q) {
      FileAfterUnique(disk, handled, uidMap, dryRun, r, r', q);
    }
    assert r.Keys == r'.Keys by {
      forall q ensures q in r <==> q in r' {
        assert SameAt(r, r', q);
      }
    }
    forall q | q in r ensures r[q] == r'[q] {
      assert SameAt(r, r', q);
    }
  }

  // ---------------------------------------------------------------------------
  // The tree the script edits
  // ---------------------------------------------------------------------------

  /** The files under the root, which handle_file moves and rewrites in place. */
  class SliceTree {
    var files: Disk

    constructor (disk: Disk)
      ensures files == disk
    {
      files := disk;
    }

    /** shutil.move of the file at p to the same relative path under the trash tree. */
    method MoveIntoTrash(p: Path)
      requires p in files && files[p].Slice?
      modifies this
      ensures files == Apply(old(files), p, MoveToTrash)
    {
      var f := files[p];
      files := (files - {p})[TrashPath(p) := f];
    }

    /** The atomic save: the file at p is replaced by its header with the new ProtocolName. */
    method SaveProtocolName(p: Path, name: string)
      requires p in files && files[p].Slice?
      modifies this
      ensures files == Apply(old(files), p, Rewrite(name))
    {
      files := files[p := Slice(files[p].ds[ProtocolNameTag := name], files[p].pixels)];
    }

    /** handle_file on the file at path p (relative to the root). */
    method HandleFile(p: Path, uidMap: UidMap, dryRun: bool) returns (o: Outcome)
      modifies this
      ensures var d := Decide(Read(old(files), p), uidMap, dryRun);
        o == d.outcome
        && (d.action != Keep ==> p in old(files) && old(files)[p].Slice?)
        && files == Apply(old(files), p, d.action)
    {
      match Read(files, p) {
        case Failed(_) =>
          return Error;
        case Parsed(ds) =>
          if SeriesInstanceUidTag !in ds || ds[SeriesInstanceUidTag] !in uidMap {
            return Skipped;
          }
          var entry := uidMap[ds[SeriesInstanceUidTag]];
          if Upper(entry.annotation) == "DELETE" {
            if dryRun {
              return Moved;
            }
            MoveIntoTrash(p);
            return Moved;
          }
          var dim := ClassifyAcqDim(ds);
          var newProto := BuildProtocolName(
            ValueText(ds, ProtocolNameTag),
            if entry.annotation == "" then "UNKNOWN" else entry.annotation,
            DimText(dim),
            if entry.plane == "" then "UNKNOWN" else entry.plane);
          assert newProto == NewProtocolName(ds, entry);
          if newProto == ValueText(ds, ProtocolNameTag) {
            return Unchanged;
          }
          if dryRun {
            return Edited;
          }
          SaveProtocolName(p, newProto);
          return Edited;
      }
    }

    /**
     * The work loop of main, run one file after another: every candidate file
     * is handled once and counted once, and the tree ends as handling them in
     * turn leaves it. When the candidates are distinct and none lies in the
     * trash tree, each result and each file's fate is the one decided on the
     * tree as it was before the run, so the order of the work does not matter.
     */
    method Run(candidates: seq<Path>, uidMap: UidMap, dryRun: bool)
      returns (counts: Counts, ghost outcomes: seq<Outcome>)
      modifies this
      ensures |outcomes| == |candidates| && counts == Tally(outcomes) && Total(counts) == |candidates|
      ensures files == Sequential(old(files), candidates, uidMap, dryRun)
      ensures DistinctOutsideTrash(candidates) ==> forall i :: 0 <= i < |candidates| ==>
                outcomes[i] == Decide(Read(old(files), candidates[i]), uidMap, dryRun).outcome
    {
      counts := Counts(0, 0, 0, 0, 0);
      outcomes := [];
      ghost var distinct := DistinctOutsideTrash(candidates);
      var k := 0;
      while k < |candidates|
        invariant 0 <= k <= |candidates| && |outcomes| == k
        invariant counts == Tally(outcomes)
        invariant files == Sequential(old(files), candidates[..k], uidMap, dryRun)
        invariant distinct ==> forall i :: 0 <= i < k ==>
                    outcomes[i] == Decide(Read(old(files), candidates[i]), uidMap, dryRun).outcome
      {
        ghost var before := files;
        if distinct {
          NextReadsAsBefore(old(files), candidates, k, uidMap, dryRun);
        }
        var o := HandleFile(candidates[k], uidMap, dryRun);
        assert files == Step(before, candidates[k], uidMap, dryRun);
        assert candidates[..k + 1][..k] == candidates[..k];
        SnocInit(outcomes, o);
        outcomes := outcomes + [o];
        counts := Bump(counts, o);
        k := k + 1;
      }
      TallyCounts(outcomes);
      assert candidates[..k] == candidates;
    }
  }
}
