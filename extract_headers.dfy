/**
 * extract_dicom_headers.py: scans a DICOM tree, keeps one header per
 * (StudyInstanceUID, SeriesInstanceUID), merges the result with an existing
 * manifest so that earlier annotations survive, and writes the manifest rows.
 */
module ExtractHeaders {
  import opened Text
  import opened Sorting
  import opened Dicom
  import DicomUtils
  import ApplyLabels

  // ---------------------------------------------------------------------------
  // Configuration
  // ---------------------------------------------------------------------------

  /** An ordered table from tag text (eight hex digits) to readable column name. */
  datatype Mapping = Mapping(fields: seq<string>, columns: seq<string>)

  /**
   * A table the scripts can use: one name per field, no field or name twice,
   * nothing called Annotation, and every field a tag hex_string_to_tag accepts.
   */
  predicate ValidMapping(fm: Mapping)
  {
    |fm.fields| == |fm.columns|
    && (forall i, j :: 0 <= i < j < |fm.fields| ==> fm.fields[i] != fm.fields[j])
    && (forall i, j :: 0 <= i < j < |fm.columns| ==> fm.columns[i] != fm.columns[j])
    && "Annotation" !in fm.fields && "Annotation" !in fm.columns
    && (forall f :: f in fm.fields ==> DicomUtils.HexToTag(f).Some?)
  }

  /** The UID tags are written under the readable UID names that merging looks up. */
  predicate NamesUids(fm: Mapping)
  {
    (exists i :: 0 <= i < |fm.fields| && i < |fm.columns|
                 && fm.fields[i] == "0020000D" && fm.columns[i] == "Study Instance UID")
    && (exists i :: 0 <= i < |fm.fields| && i < |fm.columns|
                 && fm.fields[i] == "0020000E" && fm.columns[i] == "Series Instance UID")
  }

  /** FIELDS: the keys of DICOM_FIELD_MAPPING, in order. */
  const Fields: seq<string> :=
      ["00100010", "00100030", "00100040", "00101010", "00100020", "00080070",
       "00081090", "00181030", "00189423", "00080020", "00180087", "00080080",
       "00080050", "0020000D", "00200011", "0008103E", "0020000E", "00540081",
       "00181310", "00280030", "00180088", "00180050", "00180080", "00180081",
       "00180086", "00180091", "00180082", "00181314", "00080008", "00189073",
       "2001101B", "00201209"]

  /** The readable names of DICOM_FIELD_MAPPING, in field order. */
  const Columns: seq<string> :=
      ["Patient Name", "Patient Birth Date", "Patient Sex",
       "Patient Age", "Patient ID", "Manufacturer",
       "Manufacturer's Model Name", "Protocol Name", "Acquisition Protocol Name",
       "Study Date", "Magnetic Field Strength", "Institution Name",
       "Accession Number", "Study Instance UID", "Series Number",
       "Series Description", "Series Instance UID", "Number of Slices",
       "Acquisition Matrix", "Pixel Spacing", "Spacing Between Slices",
       "Slice Thickness", "Repetition Time", "Echo Time",
       "Echo Number(s)", "Echo Train Length", "Inversion Time",
       "Flip Angle", "Image Type", "Acquisition Duration",
       "Prepulse Delay", "Number Series Related Instances"]

  /** DICOM_FIELD_MAPPING. */
  const FieldMapping: Mapping := Mapping(Fields, Columns)

  /** HEADER_ROW: the readable names in field order, then Annotation. */
  const HeaderRow: seq<string> := Columns + ["Annotation"]

  lemma FieldsAreHex()
    ensures forall i :: 0 <= i < |Fields| ==> |Fields[i]| == 8 && AllHex(Fields[i])
  {
  }

  lemma FieldsDistinct0()
    ensures forall i, j :: 0 <= i < 2 && i < j < |Fields| ==> Fields[i] != Fields[j]
  {
  }

  lemma FieldsDistinct1()
    ensures forall i, j :: 2 <= i < 4 && i < j < |Fields| ==> Fields[i] != Fields[j]
  {
  }

  lemma FieldsDistinct2()
    ensures forall i, j :: 4 <= i < 6 && i < j < |Fields| ==> Fields[i] != Fields[j]
  {
  }

  lemma FieldsDistinct3()
    ensures forall i, j :: 6 <= i < 8 && i < j < |Fields| ==> Fields[i] != Fields[j]
  {
  }

  lemma FieldsDistinct4()
    ensures forall i, j :: 8 <= i < 11 && i < j < |Fields| ==> Fields[i] != Fields[j]
  {
  }

  lemma FieldsDistinct5()
    ensures forall i, j :: 11 <= i < 13 && i < j < |Fields| ==> Fields[i] != Fields[j]
  {
  }

  lemma FieldsDistinct6()
    ensures forall i, j :: 13 <= i < 16 && i < j < |Fields| ==> Fields[i] != Fields[j]
  {
  }

  lemma FieldsDistinct7()
    ensures forall i, j :: 16 <= i < 20 && i < j < |Fields| ==> Fields[i] != Fields[j]
  {
  }

  lemma FieldsDistinct8()
    ensures forall i, j :: 20 <= i < 32 && i < j < |Fields| ==> Fields[i] != Fields[j]
  {
  }

  lemma ColumnsDistinct0()
    ensures forall i, j :: 0 <= i < 2 && i < j < |Columns| ==> Columns[i] != Columns[j]
  {
  }

  lemma ColumnsDistinct1()
    ensures forall i, j :: 2 <= i < 4 && i < j < |Columns| ==> Columns[i] != Columns[j]
  {
  }

  lemma ColumnsDistinct2()
    ensures forall i, j :: 4 <= i < 6 && i < j < |Columns| ==> Columns[i] != Columns[j]
  {
  }

  lemma ColumnsDistinct3()
    ensures forall i, j :: 6 <= i < 8 && i < j < |Columns| ==> Columns[i] != Columns[j]
  {
  }

  lemma ColumnsDistinct4()
    ensures forall i, j :: 8 <= i < 11 && i < j < |Columns| ==> Columns[i] != Columns[j]
  {
  }

  lemma ColumnsDistinct5()
    ensures forall i, j :: 11 <= i < 13 && i < j < |Columns| ==> Columns[i] != Columns[j]
  {
  }

  lemma ColumnsDistinct6()
    ensures forall i, j :: 13 <= i < 16 && i < j < |Columns| ==> Columns[i] != Columns[j]
  {
  }

  lemma ColumnsDistinct7()
    ensures forall i, j :: 16 <= i < 20 && i < j < |Columns| ==> Columns[i] != Columns[j]
  {
  }

  lemma ColumnsDistinct8()
    ensures forall i, j :: 20 <= i < 32 && i < j < |Columns| ==> Columns[i] != Columns[j]
  {
  }

  lemma FieldsDistinct()
    ensures |Fields| == |Columns|
    ensures forall i, j :: 0 <= i < j < |Fields| ==> Fields[i] != Fields[j]
  {
    FieldsDistinct0();
    FieldsDistinct1();
    FieldsDistinct2();
    FieldsDistinct3();
    FieldsDistinct4();
    FieldsDistinct5();
    FieldsDistinct6();
    FieldsDistinct7();
    FieldsDistinct8();
  }

  lemma ColumnsDistinct()
    ensures forall i, j :: 0 <= i < j < |Columns| ==> Columns[i] != Columns[j]
  {
    ColumnsDistinct0();
    ColumnsDistinct1();
    ColumnsDistinct2();
    ColumnsDistinct3();
    ColumnsDistinct4();
    ColumnsDistinct5();
    ColumnsDistinct6();
    ColumnsDistinct7();
    ColumnsDistinct8();
  }

  lemma AnnotationNotField0()
    ensures forall i :: 0 <= i < 16 ==> Fields[i] != "Annotation"
  {
  }

  lemma AnnotationNotField1()
    ensures forall i :: 16 <= i < 32 ==> Fields[i] != "Annotation"
  {
  }

  lemma AnnotationNotField()
    ensures "Annotation" !in Fields
  {
    AnnotationNotField0();
    AnnotationNotField1();
  }

  lemma AnnotationNotColumn0()
    ensures forall i :: 0 <= i < 16 ==> Columns[i] != "Annotation"
  {
  }

  lemma AnnotationNotColumn1()
    ensures forall i :: 16 <= i < 32 ==> Columns[i] != "Annotation"
  {
  }

  lemma AnnotationNotColumn()
    ensures "Annotation" !in Columns
  {
    AnnotationNotColumn0();
    AnnotationNotColumn1();
  }

  lemma PlaneNotColumn0()
    ensures forall i :: 0 <= i < 16 ==> Columns[i] != "Plane Orientation"
  {
  }

  lemma PlaneNotColumn1()
    ensures forall i :: 16 <= i < 32 ==> Columns[i] != "Plane Orientation"
  {
  }

  lemma PlaneNotColumn()
    ensures "Plane Orientation" !in Columns
  {
    PlaneNotColumn0();
    PlaneNotColumn1();
  }

  lemma UidColumns()
    ensures NamesUids(FieldMapping)
  {
    assert Fields[13] == "0020000D" && Columns[13] == "Study Instance UID";
    assert Fields[16] == "0020000E" && Columns[16] == "Series Instance UID";
  }

  /** DICOM_FIELD_MAPPING is a valid table; it has UID columns and no Plane Orientation column. */
  lemma TheMapping()
    ensures ValidMapping(FieldMapping) && NamesUids(FieldMapping)
    ensures "Plane Orientation" !in Columns
  {
    FieldsAreHex();
    forall f | f in Fields ensures DicomUtils.HexToTag(f).Some? {
      var i :| 0 <= i < |Fields| && Fields[i] == f;
    }
    FieldsDistinct();
    ColumnsDistinct();
    AnnotationNotField();
    AnnotationNotColumn();
    PlaneNotColumn();
    UidColumns();
  }

  // ---------------------------------------------------------------------------
  // hex_string_to_tag
  // ---------------------------------------------------------------------------

  /**
   * hex_string_to_tag: int(text[:4], 16), int(text[4:], 16), the same rule as
   * hex_to_tag of the shared utilities.
   */
  function HexStringToTag(text: string): (r: Option<Tag>)
    ensures r.Some? <==> 4 < |text| && AllHex(text)
    ensures r.Some? ==> r.value.group < 0x1_0000
  {
    DicomUtils.HexToTag(text)
  }

  /** Eight hex digits parsed and written back as two four-digit groups give the text again, up to case. */
  lemma HexStringRoundTrip(text: string)
    requires |text| == 8 && AllHex(text)
    ensures HexStringToTag(text).Some? && HexStringToTag(text).value.element < 0x1_0000
    ensures DicomUtils.FormatTag(HexStringToTag(text).value) == Upper(text)
  {
    DicomUtils.HexTextRoundTrip(text);
  }

  /** Formatting a tag as two four-digit hex groups and parsing it gives the tag back. */
  lemma TagRoundTrip(t: Tag)
    requires t.group < 0x1_0000 && t.element < 0x1_0000
    ensures HexStringToTag(DicomUtils.FormatTag(t)) == Some(t)
  {
    DicomUtils.TagTextRoundTrip(t);
  }

  // ---------------------------------------------------------------------------
  // find_dicom_files
  // ---------------------------------------------------------------------------

  /** One directory met by the walk: its path below the root and the names of its files. */
  datatype WalkEntry = WalkEntry(dir: Path, names: seq<string>)

  /** The names of one directory that are read: in sorted order, only the first five unless read_all. */
  function Picked(names: seq<string>, readAll: bool): seq<string>
  {
    var sorted := SortStrings(names);
    if readAll then sorted else sorted[..Min(5, |sorted|)]
  }

  /**
   * The picked names are sorted, there are all of them with read_all and at
   * most five otherwise, and each sorts before every name left out.
   */
  lemma PickedSmallest(names: seq<string>, readAll: bool)
    ensures var r := Picked(names, readAll);
      |r| == (if readAll then |names| else Min(5, |names|))
      && SortedStrings(r)
      && multiset(r) <= multiset(names)
      && forall x, y :: x in r && y in multiset(names) - multiset(r) ==> LexLe(x, y)
  {
    var s := SortStrings(names);
    var k := if readAll then |s| else Min(5, |s|);
    assert Picked(names, readAll) == s[..k];
    assert |s| == |multiset(s)| == |names|;
    SortedPrefixLeast(s, k);
  }

  /** A prefix of a sorted list is sorted, and each of its elements is at most each element after it. */
  lemma SortedPrefixLeast(s: seq<string>, k: nat)
    requires SortedStrings(s) && k <= |s|
    ensures SortedStrings(s[..k])
    ensures multiset(s[..k]) <= multiset(s)
    ensures forall x, y :: x in s[..k] && y in multiset(s) - multiset(s[..k]) ==> LexLe(x, y)
  {
    assert s == s[..k] + s[k..];
    assert multiset(s) == multiset(s[..k]) + multiset(s[k..]);
    forall x, y | x in s[..k] && y in multiset(s) - multiset(s[..k]) ensures LexLe(x, y) {
      var i :| 0 <= i < k && s[i] == x;
      assert y in multiset(s[k..]);
      var j :| 0 <= j < |s| - k && s[k..][j] == y;
      assert s[k + j] == y;
    }
  }

  /** The paths of the given names in directory dir: Path(dirpath) / f. */
  function InDir(dir: Path, names: seq<string>): (r: seq<Path>)
    ensures |r| == |names|
  {
    seq(|names|, i requires 0 <= i < |names| => dir + [names[i]])
  }

  lemma InDirMember(dir: Path, names: seq<string>, p: Path)
    ensures p in InDir(dir, names) <==> |p| == |dir| + 1 && p[..|dir|] == dir && p[|dir|] in names
  {
    if |p| == |dir| + 1 && p[..|dir|] == dir && p[|dir|] in names {
      var i :| 0 <= i < |names| && names[i] == p[|dir|];
      assert p == dir + [names[i]];
      assert InDir(dir, names)[i] == p;
    }
  }

  /** The files one directory of the walk contributes. */
  function DirFiles(e: WalkEntry, readAll: bool): seq<Path>
  {
    InDir(e.dir, Picked(e.names, readAll))
  }

  /** The lists f(x) of the elements x of xs, concatenated in order. */
  function FlatMap<A, B>(xs: seq<A>, f: A -> seq<B>): seq<B>
  {
    if xs == [] then [] else FlatMap(xs[..|xs| - 1], f) + f(xs[|xs| - 1])
  }

  lemma {:induction false} FlatMapMember<A, B>(xs: seq<A>, f: A -> seq<B>, p: B)
    ensures p in FlatMap(xs, f) <==> exists i :: 0 <= i < |xs| && p in f(xs[i])
    decreases |xs|
  {
    if xs != [] {
      var init := xs[..|xs| - 1];
      FlatMapMember(init, f, p);
      if p in FlatMap(xs, f) && p !in f(xs[|xs| - 1]) {
        var i :| 0 <= i < |init| && p in f(init[i]);
        assert xs[i] == init[i];
      }
      if exists i :: 0 <= i < |xs| && p in f(xs[i]) {
        var i :| 0 <= i < |xs| && p in f(xs[i]);
        if i < |init| {
          assert init[i] == xs[i];
        }
      }
    }
  }

  /** What find_dicom_files yields: the picked files of each directory, directory by directory. */
  function Selection(walk: seq<WalkEntry>, readAll: bool): seq<Path>
  {
    FlatMap(walk, e => DirFiles(e, readAll))
  }

  /** A file is yielded exactly when it is one of the picked files of some directory of the walk. */
  lemma SelectionMember(walk: seq<WalkEntry>, readAll: bool, p: Path)
    ensures p in Selection(walk, readAll) <==> exists i :: 0 <= i < |walk| && p in DirFiles(walk[i], readAll)
  {
    FlatMapMember(walk, e => DirFiles(e, readAll), p);
  }

  /** The selection of one more directory of the walk. */
  lemma SelectionStep(walk: seq<WalkEntry>, i: nat, readAll: bool)
    requires i < |walk|
    ensures Selection(walk[..i + 1], readAll) == Selection(walk[..i], readAll) + DirFiles(walk[i], readAll)
  {
    assert walk[..i + 1][..i] == walk[..i];
  }

  /** Append the paths of `names` in directory dir, one by one. */
  method AppendInDir(files: seq<Path>, dir: Path, names: seq<string>) returns (files': seq<Path>)
    ensures files' == files + InDir(dir, names)
  {
    files' := files;
    var j := 0;
    while j < |names|
      invariant 0 <= j <= |names|
      invariant files' == files + InDir(dir, names[..j])
    {
      assert InDir(dir, names[..j + 1]) == InDir(dir, names[..j]) + [dir + [names[j]]];
      files' := files' + [dir + [names[j]]];
      j := j + 1;
    }
    assert names[..j] == names;
  }

  /** find_dicom_files: walk the directories in order; sort each one's files and keep the first five unless read_all. */
  method FindDicomFiles(walk: seq<WalkEntry>, readAll: bool) returns (files: seq<Path>)
    ensures files == Selection(walk, readAll)
  {
    files := [];
    var i := 0;
    while i < |walk|
      invariant 0 <= i <= |walk|
      invariant files == Selection(walk[..i], readAll)
    {
      var entry := walk[i];
      SelectionStep(walk, i, readAll);
      if entry.names != [] {
        // Within one directory, sorting the paths sorts their last components.
        var sorted := SortStrings(entry.names);
        var take := if readAll then sorted else sorted[..Min(5, |sorted|)];
        assert take == Picked(entry.names, readAll);
        files := AppendInDir(files, entry.dir, take);
      } else {
        assert DirFiles(entry, readAll) == [];
      }
      i := i + 1;
    }
    assert walk[..i] == walk;
  }

  // ---------------------------------------------------------------------------
  // extract_header_fields
  // ---------------------------------------------------------------------------

  /** A header as the scan keeps it: tag text (and, after a merge, Annotation) to cell text. */
  type Info = map<string, string>

  /**
   * {tag_hex: str(ds.get(tag, ""))} over the requested fields: each cell is
   * the element's text, which starts with its tag, or "" when it is absent.
   */
  function Projection(ds: Dataset, fields: seq<string>): (m: Info)
    requires forall f :: f in fields ==> DicomUtils.HexToTag(f).Some?
    ensures m.Keys == set f | f in fields
    ensures forall f :: f in fields ==> (m[f] == "" <==> DicomUtils.HexToTag(f).value !in ds)
    ensures forall f :: f in fields && m[f] != "" ==> m[f][0] == '('
  {
    map f | f in fields :: ElementCell(ds, DicomUtils.HexToTag(f).value)
  }

  /**
   * extract_header_fields: InvalidDicomError and any OSError (a missing or
   * unreadable file included) give {}; any other failure propagates, and so
   * does a field that is not a hex tag.
   */
  method ExtractHeaderFields(disk: Disk, p: Path, fields: seq<string>) returns (r: Result<Info>)
    ensures Read(disk, p).Failed? ==>
              r == if Read(disk, p).why == Malformed then Err(ReadFailed(Malformed)) else Ok(map[])
    ensures Read(disk, p).Parsed? ==>
              (r.Ok? <==> forall f :: f in fields ==> DicomUtils.HexToTag(f).Some?)
              && (r.Ok? ==> r.value == Projection(Read(disk, p).ds, fields))
  {
    match Read(disk, p) {
      case Failed(why) =>
        if why == Malformed {
          return Err(ReadFailed(why));
        }
        return Ok(map[]);
      case Parsed(ds) =>
        // The same projection loop as read_header.
        r := DicomUtils.ProjectFields(ds, fields);
        if r.Ok? {
          assert r.value == Projection(ds, fields);
        }
    }
  }

  // ---------------------------------------------------------------------------
  // build_series_manifest
  // ---------------------------------------------------------------------------

  /** The (StudyInstanceUID, SeriesInstanceUID) key of a manifest entry. */
  datatype SeriesKey = SeriesKey(study: string, series: string)

  /** An insertion-ordered dictionary from series keys to headers (the OrderedDict of the script). */
  datatype Manifest = Manifest(keys: seq<SeriesKey>, entries: map<SeriesKey, Info>)

  /** The key order lists every key once. */
  predicate WellFormed(m: Manifest)
  {
    (forall i, j :: 0 <= i < j < |m.keys| ==> m.keys[i] != m.keys[j])
    && (set k | k in m.keys) == m.entries.Keys
  }

  /** Every entry is filed under its own non-empty UIDs. */
  predicate Consistent(m: Manifest)
  {
    forall k :: k in m.entries ==> k.study != "" && k.series != "" && KeyOf(m.entries[k]) == k
  }

  function StudyOf(info: Info): string { Cell(info, "0020000D") }

  function SeriesUidOf(info: Info): string { Cell(info, "0020000E") }

  function KeyOf(info: Info): SeriesKey { SeriesKey(StudyOf(info), SeriesUidOf(info)) }

  /** A header the scan keeps: non-empty, with both UIDs non-empty. */
  predicate Accepted(info: Info)
  {
    info != map[] && StudyOf(info) != "" && SeriesUidOf(info) != ""
  }

  /** What extract_header_fields gives for one scanned file ({} when the file is skipped). */
  function HeaderOf(disk: Disk, p: Path, fm: Mapping): Info
    requires ValidMapping(fm)
  {
    match Read(disk, p)
    case Parsed(ds) => Projection(ds, fm.fields)
    case Failed(_) => map[]
  }

  /** The two results of build_series_manifest. */
  datatype Scan = Scan(sequences: Manifest, fileLists: map<string, seq<Path>>)

  /** One step of the scan: an accepted file joins its series' list, and its header is kept if its key is new. */
  function AddFile(s: Scan, p: Path, info: Info): Scan
  {
    if !Accepted(info) then s
    else
      var u := SeriesUidOf(info);
      var lists := s.fileLists[u := (if u in s.fileLists then s.fileLists[u] else []) + [p]];
      var k := KeyOf(info);
      if k in s.sequences.entries then Scan(s.sequences, lists)
      else Scan(Manifest(s.sequences.keys + [k], s.sequences.entries[k := info]), lists)
  }

  /** The scan over files whose headers are given by h, in order. */
  function ScanFold(files: seq<Path>, h: Path -> Info): Scan
  {
    if files == [] then Scan(Manifest([], map[]), map[])
    else
      var p := files[|files| - 1];
      AddFile(ScanFold(files[..|files| - 1], h), p, h(p))
  }

  /** build_series_manifest over the files of the walk, in order. */
  function ScanOf(disk: Disk, files: seq<Path>, fm: Mapping): Scan
    requires ValidMapping(fm)
  {
    ScanFold(files, p => HeaderOf(disk, p, fm))
  }

  /** The scan after one more file. */
  lemma ScanStep(disk: Disk, files: seq<Path>, i: nat, fm: Mapping)
    requires ValidMapping(fm) && i < |files|
    ensures ScanOf(disk, files[..i + 1], fm) == AddFile(ScanOf(disk, files[..i], fm), files[i], HeaderOf(disk, files[i], fm))
  {
    assert files[..i + 1][..i] == files[..i];
  }

  /** The loop of build_series_manifest over the selected files. */
  method ScanFiles(disk: Disk, files: seq<Path>, fm: Mapping) returns (r: Result<Scan>)
    requires ValidMapping(fm)
    ensures r.Err? <==> exists p :: p in files && Read(disk, p) == Failed(Malformed)
    ensures r.Err? ==> r.error == ReadFailed(Malformed)
    ensures r.Ok? ==> r.value == ScanOf(disk, files, fm)
  {
    var sequences := Manifest([], map[]);
    var fileLists: map<string, seq<Path>> := map[];
    var i := 0;
    while i < |files|
      invariant 0 <= i <= |files|
      invariant forall j :: 0 <= j < i ==> Read(disk, files[j]) != Failed(Malformed)
      invariant Scan(sequences, fileLists) == ScanOf(disk, files[..i], fm)
    {
      var p := files[i];
      var info := ExtractHeaderFields(disk, p, fm.fields);
      if info.Err? {
        assert Read(disk, p) == Failed(Malformed);
        return Err(info.error);
      }
      assert info.value == HeaderOf(disk, p, fm);
      ScanStep(disk, files, i, fm);
      if info.value != map[] {
        var study := Cell(info.value, "0020000D");
        var series := Cell(info.value, "0020000E");
        if study != "" && series != "" {
          fileLists := fileLists[series := (if series in fileLists then fileLists[series] else []) + [p]];
          var key := SeriesKey(study, series);
          if key !in sequences.entries {
            sequences := Manifest(sequences.keys + [key], sequences.entries[key := info.value]);
          }
        }
      }
      i := i + 1;
    }
    assert files[..i] == files;
    forall p | p in files ensures Read(disk, p) != Failed(Malformed) {
      var j :| 0 <= j < |files| && files[j] == p;
    }
    return Ok(Scan(sequences, fileLists));
  }

  /** build_series_manifest: the scan of the files find_dicom_files yields. */
  method BuildSeriesManifest(disk: Disk, walk: seq<WalkEntry>, readAll: bool, fm: Mapping) returns (r: Result<Scan>)
    requires ValidMapping(fm)
    ensures r.Err? <==> exists p :: p in Selection(walk, readAll) && Read(disk, p) == Failed(Malformed)
    ensures r.Err? ==> r.error == ReadFailed(Malformed)
    ensures r.Ok? ==> r.value == ScanOf(disk, Selection(walk, readAll), fm)
  {
    var files := FindDicomFiles(walk, readAll);
    r := ScanFiles(disk, files, fm);
  }

  lemma {:induction false} FoldWellFormed(files: seq<Path>, h: Path -> Info)
    ensures WellFormed(ScanFold(files, h).sequences) && Consistent(ScanFold(files, h).sequences)
    decreases |files|
  {
    if files != [] {
      FoldWellFormed(files[..|files| - 1], h);
    }
  }

  /** The kept headers are listed once each, in first-seen order, under their own non-empty UIDs. */
  lemma ScanWellFormed(disk: Disk, files: seq<Path>, fm: Mapping)
    requires ValidMapping(fm)
    ensures WellFormed(ScanOf(disk, files, fm).sequences) && Consistent(ScanOf(disk, files, fm).sequences)
  {
    FoldWellFormed(files, p => HeaderOf(disk, p, fm));
  }

  lemma {:induction false} FoldKeys(files: seq<Path>, h: Path -> Info)
    ensures ScanFold(files, h).sequences.entries.Keys == set p | p in files && Accepted(h(p)) :: KeyOf(h(p))
    decreases |files|
  {
    if files != [] {
      var init := files[..|files| - 1];
      FoldKeys(init, h);
      assert files == init + [files[|files| - 1]];
    }
  }

  /** The keys kept are exactly the keys of the accepted files: a file lacking either UID contributes nothing. */
  lemma ScanKeys(disk: Disk, files: seq<Path>, fm: Mapping)
    requires ValidMapping(fm)
    ensures ScanOf(disk, files, fm).sequences.entries.Keys
         == set p | p in files && Accepted(HeaderOf(disk, p, fm)) :: KeyOf(HeaderOf(disk, p, fm))
  {
    FoldKeys(files, p => HeaderOf(disk, p, fm));
  }

  lemma {:induction false} FoldFirstHeader(files: seq<Path>, h: Path -> Info, i: nat)
    requires i < |files| && Accepted(h(files[i]))
    requires forall j :: 0 <= j < i ==> !Accepted(h(files[j])) || KeyOf(h(files[j])) != KeyOf(h(files[i]))
    ensures KeyOf(h(files[i])) in ScanFold(files, h).sequences.entries
    ensures ScanFold(files, h).sequences.entries[KeyOf(h(files[i]))] == h(files[i])
    decreases |files|
  {
    var init := files[..|files| - 1];
    if i == |files| - 1 {
      FoldKeys(init, h);
    } else {
      assert init[i] == files[i];
      forall j | 0 <= j < i ensures !Accepted(h(init[j])) || KeyOf(h(init[j])) != KeyOf(h(files[i])) {
        assert init[j] == files[j];
      }
      FoldFirstHeader(init, h, i);
    }
  }

  /** For each key, the header kept is that of the first accepted file with that key; later ones do not replace it. */
  lemma ScanFirstHeader(disk: Disk, files: seq<Path>, fm: Mapping, i: nat)
    requires ValidMapping(fm)
    requires i < |files| && Accepted(HeaderOf(disk, files[i], fm))
    requires forall j :: 0 <= j < i ==> !Accepted(HeaderOf(disk, files[j], fm))
                                        || KeyOf(HeaderOf(disk, files[j], fm)) != KeyOf(HeaderOf(disk, files[i], fm))
    ensures KeyOf(HeaderOf(disk, files[i], fm)) in ScanOf(disk, files, fm).sequences.entries
    ensures ScanOf(disk, files, fm).sequences.entries[KeyOf(HeaderOf(disk, files[i], fm))] == HeaderOf(disk, files[i], fm)
  {
    FoldFirstHeader(files, p => HeaderOf(disk, p, fm), i);
  }

  lemma {:induction false} FoldFileLists(files: seq<Path>, h: Path -> Info, u: string, p: Path)
    ensures (u in ScanFold(files, h).fileLists && p in ScanFold(files, h).fileLists[u])
        <==> p in files && Accepted(h(p)) && SeriesUidOf(h(p)) == u
    decreases |files|
  {
    if files != [] {
      var init := files[..|files| - 1];
      FoldFileLists(init, h, u, p);
      assert files == init + [files[|files| - 1]];
    }
  }

  /** A file is in the list of series u exactly when it is an accepted file of that series. */
  lemma ScanFileLists(disk: Disk, files: seq<Path>, fm: Mapping, u: string, p: Path)
    requires ValidMapping(fm)
    ensures (u in ScanOf(disk, files, fm).fileLists && p in ScanOf(disk, files, fm).fileLists[u])
        <==> p in files && Accepted(HeaderOf(disk, p, fm)) && SeriesUidOf(HeaderOf(disk, p, fm)) == u
  {
    FoldFileLists(files, q => HeaderOf(disk, q, fm), u, p);
  }

  // ---------------------------------------------------------------------------
  // Moving cells between tag names and readable names
  // ---------------------------------------------------------------------------

  /** {dst[i]: src.get(from[i], "")}, inserted in order, as the scripts' dict comprehensions build it. */
  function Transfer(src: map<string, string>, from: seq<string>, dst: seq<string>): map<string, string>
    requires |from| == |dst|
  {
    if from == [] then map[]
    else Transfer(src, from[..|from| - 1], dst[..|dst| - 1])[dst[|dst| - 1] := Cell(src, from[|from| - 1])]
  }

  /** The keys of a transfer are the destination names. */
  lemma {:induction false} TransferKeys(src: map<string, string>, from: seq<string>, dst: seq<string>, k: string)
    requires |from| == |dst|
    ensures k in Transfer(src, from, dst) <==> k in dst
    decreases |from|
  {
    if from != [] {
      TransferKeys(src, from[..|from| - 1], dst[..|dst| - 1], k);
      assert dst == dst[..|dst| - 1] + [dst[|dst| - 1]];
    }
  }

  /** With distinct destination names, the cell under dst[i] is the source's cell under from[i]. */
  lemma {:induction false} TransferAt(src: map<string, string>, from: seq<string>, dst: seq<string>, i: nat)
    requires |from| == |dst| && i < |dst|
    requires forall a, b :: 0 <= a < b < |dst| ==> dst[a] != dst[b]
    ensures dst[i] in Transfer(src, from, dst) && Transfer(src, from, dst)[dst[i]] == Cell(src, from[i])
    decreases |from|
  {
    if i < |from| - 1 {
      TransferAt(src, from[..|from| - 1], dst[..|dst| - 1], i);
    }
  }

  // ---------------------------------------------------------------------------
  // merge_with_existing
  // ---------------------------------------------------------------------------

  /** The key of an existing row: each readable-name UID column, or the hex-named one when that is empty. */
  function RowKey(row: Row): SeriesKey
  {
    SeriesKey(
      if Cell(row, "Study Instance UID") != "" then Cell(row, "Study Instance UID") else Cell(row, "0020000D"),
      if Cell(row, "Series Instance UID") != "" then Cell(row, "Series Instance UID") else Cell(row, "0020000E"))
  }

  /** The header rebuilt from an existing row whose series is no longer on disk: each field from its column. */
  function Rebuilt(row: Row, fm: Mapping): Info
    requires ValidMapping(fm)
  {
    Transfer(row, fm.columns, fm.fields)
  }

  /** One row of the existing manifest: add its key if new, then set the key's Annotation from the row. */
  function MergeRow(m: Manifest, row: Row, fm: Mapping): Manifest
    requires ValidMapping(fm)
  {
    var k := RowKey(row);
    var m' := if k in m.entries then m else Manifest(m.keys + [k], m.entries[k := Rebuilt(row, fm)]);
    Manifest(m'.keys, m'.entries[k := m'.entries[k]["Annotation" := Cell(row, "Annotation")]])
  }

  /** The scanned manifest merged with the existing rows, in file order. */
  function MergeOf(rows: seq<Row>, scanned: Manifest, fm: Mapping): Manifest
    requires ValidMapping(fm)
  {
    if rows == [] then scanned else MergeRow(MergeOf(rows[..|rows| - 1], scanned, fm), rows[|rows| - 1], fm)
  }

  /**
   * merge_with_existing: the scanned manifest when there is no manifest yet;
   * otherwise the scanned manifest updated row by row.
   */
  method MergeWithExisting(existing: Option<seq<Row>>, scanned: Manifest, fm: Mapping) returns (merged: Manifest)
    requires ValidMapping(fm)
    ensures existing.None? ==> merged == scanned
    ensures existing.Some? ==> merged == MergeOf(existing.value, scanned, fm)
  {
    if existing.None? {
      return scanned;
    }
    var rows := existing.value;
    merged := scanned;
    var i := 0;
    while i < |rows|
      invariant 0 <= i <= |rows|
      invariant merged == MergeOf(rows[..i], scanned, fm)
    {
      var row := rows[i];
      assert rows[..i + 1][..i] == rows[..i];
      var key := RowKey(row);
      if key !in merged.entries {
        merged := Manifest(merged.keys + [key], merged.entries[key := Transfer(row, fm.columns, fm.fields)]);
      }
      merged := Manifest(merged.keys, merged.entries[key := merged.entries[key]["Annotation" := Cell(row, "Annotation")]]);
      i := i + 1;
    }
    assert rows[..i] == rows;
  }

  lemma MergeRowKeys(m: Manifest, row: Row, fm: Mapping, k: SeriesKey)
    requires ValidMapping(fm)
    ensures k in MergeRow(m, row, fm).entries <==> k in m.entries || RowKey(row) == k
  {
  }

  lemma {:induction false} MergeKeyList(rows: seq<Row>, scanned: Manifest, fm: Mapping, k: SeriesKey)
    requires ValidMapping(fm)
    ensures k in MergeOf(rows, scanned, fm).entries <==> k in scanned.entries || k in FlatMap(rows, r => [RowKey(r)])
    decreases |rows|
  {
    if rows != [] {
      var init := rows[..|rows| - 1];
      MergeKeyList(init, scanned, fm, k);
      MergeRowKeys(MergeOf(init, scanned, fm), rows[|rows| - 1], fm, k);
    }
  }

  /** The merged keys are the scanned keys and the key of every existing row. */
  lemma MergeKeys(rows: seq<Row>, scanned: Manifest, fm: Mapping, k: SeriesKey)
    requires ValidMapping(fm)
    ensures k in MergeOf(rows, scanned, fm).entries
        <==> k in scanned.entries || exists i :: 0 <= i < |rows| && RowKey(rows[i]) == k
  {
    MergeKeyList(rows, scanned, fm, k);
    FlatMapMember(rows, r => [RowKey(r)], k);
  }

  /** Merging keeps the scanned keys first, in order, and lists every key once. */
  lemma {:induction false} MergeOrder(rows: seq<Row>, scanned: Manifest, fm: Mapping)
    requires ValidMapping(fm)
    ensures |scanned.keys| <= |MergeOf(rows, scanned, fm).keys|
    ensures MergeOf(rows, scanned, fm).keys[..|scanned.keys|] == scanned.keys
    ensures WellFormed(scanned) ==> WellFormed(MergeOf(rows, scanned, fm))
    decreases |rows|
  {
    if rows != [] {
      var init := rows[..|rows| - 1];
      MergeOrder(init, scanned, fm);
      var m := MergeOf(init, scanned, fm);
      var k := RowKey(rows[|rows| - 1]);
      if k !in m.entries {
        assert (m.keys + [k])[..|scanned.keys|] == m.keys[..|scanned.keys|];
      }
    }
  }

  /** One merged row changes at most the Annotation of an existing entry, and only of its own key. */
  lemma MergeRowKeeps(m: Manifest, row: Row, fm: Mapping, k: SeriesKey)
    requires ValidMapping(fm) && k in m.entries
    ensures k in MergeRow(m, row, fm).entries
    ensures MergeRow(m, row, fm).entries[k] - {"Annotation"} == m.entries[k] - {"Annotation"}
    ensures RowKey(row) != k ==> MergeRow(m, row, fm).entries[k] == m.entries[k]
  {
  }

  /** Past row n, an entry keeps all but its Annotation; rows with other keys leave it whole. */
  lemma {:induction false} MergeAfter(rows: seq<Row>, scanned: Manifest, fm: Mapping, n: nat, k: SeriesKey)
    requires ValidMapping(fm)
    requires n <= |rows| && k in MergeOf(rows[..n], scanned, fm).entries
    ensures k in MergeOf(rows, scanned, fm).entries
    ensures MergeOf(rows, scanned, fm).entries[k] - {"Annotation"} == MergeOf(rows[..n], scanned, fm).entries[k] - {"Annotation"}
    ensures (forall j :: n <= j < |rows| ==> RowKey(rows[j]) != k) ==>
              MergeOf(rows, scanned, fm).entries[k] == MergeOf(rows[..n], scanned, fm).entries[k]
    decreases |rows| - n
  {
    if n < |rows| {
      var init := rows[..|rows| - 1];
      assert init[..n] == rows[..n];
      MergeAfter(init, scanned, fm, n, k);
      MergeRowKeeps(MergeOf(init, scanned, fm), rows[|rows| - 1], fm, k);
      assert forall j :: n <= j < |init| ==> init[j] == rows[j];
    } else {
      assert rows[..n] == rows;
    }
  }

  /** Fields of a scanned key other than Annotation stay as scanned; a scanned key no row names is untouched. */
  lemma MergeKeepsScanned(rows: seq<Row>, scanned: Manifest, fm: Mapping, k: SeriesKey)
    requires ValidMapping(fm) && k in scanned.entries
    ensures k in MergeOf(rows, scanned, fm).entries
    ensures MergeOf(rows, scanned, fm).entries[k] - {"Annotation"} == scanned.entries[k] - {"Annotation"}
    ensures (forall j :: 0 <= j < |rows| ==> RowKey(rows[j]) != k) ==>
              MergeOf(rows, scanned, fm).entries[k] == scanned.entries[k]
  {
    assert rows[..0] == [];
    MergeAfter(rows, scanned, fm, 0, k);
  }

  /** A row whose key is neither scanned nor named by an earlier row is rebuilt from its own columns. */
  lemma MergeRebuildsOldRows(rows: seq<Row>, scanned: Manifest, fm: Mapping, i: nat)
    requires ValidMapping(fm)
    requires i < |rows| && RowKey(rows[i]) !in scanned.entries
    requires forall j :: 0 <= j < i ==> RowKey(rows[j]) != RowKey(rows[i])
    ensures RowKey(rows[i]) in MergeOf(rows, scanned, fm).entries
    ensures MergeOf(rows, scanned, fm).entries[RowKey(rows[i])] - {"Annotation"} == Rebuilt(rows[i], fm)
  {
    var k := RowKey(rows[i]);
    MergeKeys(rows[..i], scanned, fm, k);
    assert rows[..i + 1][..i] == rows[..i];
    MergeRowNew(MergeOf(rows[..i], scanned, fm), rows[i], fm);
    MergeAfter(rows, scanned, fm, i + 1, k);
  }

  /** A row with a new key adds the header rebuilt from its columns, plus its Annotation. */
  lemma MergeRowNew(m: Manifest, row: Row, fm: Mapping)
    requires ValidMapping(fm) && RowKey(row) !in m.entries
    ensures RowKey(row) in MergeRow(m, row, fm).entries
    ensures MergeRow(m, row, fm).entries[RowKey(row)] - {"Annotation"} == Rebuilt(row, fm)
  {
    var e := MergeRow(m, row, fm).entries[RowKey(row)];
    assert e == Rebuilt(row, fm)["Annotation" := Cell(row, "Annotation")];
    TransferKeys(row, fm.columns, fm.fields, "Annotation");
  }

  /** Every existing row's Annotation lands on its key, overwriting: the last row with a key wins. */
  lemma MergeAnnotation(rows: seq<Row>, scanned: Manifest, fm: Mapping, i: nat)
    requires ValidMapping(fm)
    requires i < |rows|
    requires forall j :: i < j < |rows| ==> RowKey(rows[j]) != RowKey(rows[i])
    ensures RowKey(rows[i]) in MergeOf(rows, scanned, fm).entries
    ensures Cell(MergeOf(rows, scanned, fm).entries[RowKey(rows[i])], "Annotation") == Cell(rows[i], "Annotation")
  {
    assert rows[..i + 1][..i] == rows[..i];
    MergeAfter(rows, scanned, fm, i + 1, RowKey(rows[i]));
  }

  // ---------------------------------------------------------------------------
  // write_manifest
  // ---------------------------------------------------------------------------

  /** The row written for one entry: each column from its field ('' when missing), then Annotation. */
  function WrittenRow(info: Info, fm: Mapping): Row
    requires ValidMapping(fm)
  {
    var row := Transfer(info, fm.fields, fm.columns);
    if "Annotation" in row then row else row["Annotation" := Cell(info, "Annotation")]
  }

  /** The rows of a manifest, one per entry in key order. */
  function WrittenRows(m: Manifest, fm: Mapping): (rows: seq<Row>)
    requires ValidMapping(fm)
    requires forall k :: k in m.keys ==> k in m.entries
    ensures |rows| == |m.keys|
  {
    seq(|m.keys|, i requires 0 <= i < |m.keys| => WrittenRow(m.entries[m.keys[i]], fm))
  }

  /** write_manifest: one row per entry, in the manifest's order. */
  method WriteManifest(m: Manifest, fm: Mapping) returns (rows: seq<Row>)
    requires ValidMapping(fm) && WellFormed(m)
    ensures rows == WrittenRows(m, fm)
  {
    rows := [];
    var i := 0;
    while i < |m.keys|
      invariant 0 <= i <= |m.keys|
      invariant rows == WrittenRows(m, fm)[..i]
    {
      assert m.keys[i] in m.entries;
      var info := m.entries[m.keys[i]];
      var row := Transfer(info, fm.fields, fm.columns);
      if "Annotation" !in row {
        row := row["Annotation" := Cell(info, "Annotation")];
      }
      rows := rows + [row];
      i := i + 1;
    }
    assert WrittenRows(m, fm)[..i] == WrittenRows(m, fm);
  }

  /** A written row has exactly the columns of the header row, each holding its field of the entry. */
  lemma WrittenRowShape(info: Info, fm: Mapping)
    requires ValidMapping(fm)
    ensures forall c :: c in WrittenRow(info, fm) <==> c in fm.columns + ["Annotation"]
    ensures forall i :: 0 <= i < |fm.columns| ==> WrittenRow(info, fm)[fm.columns[i]] == Cell(info, fm.fields[i])
    ensures WrittenRow(info, fm)["Annotation"] == Cell(info, "Annotation")
  {
    var row := Transfer(info, fm.fields, fm.columns);
    TransferKeys(info, fm.fields, fm.columns, "Annotation");
    forall c ensures c in WrittenRow(info, fm) <==> c in fm.columns + ["Annotation"] {
      TransferKeys(info, fm.fields, fm.columns, c);
    }
    forall i | 0 <= i < |fm.columns| ensures WrittenRow(info, fm)[fm.columns[i]] == Cell(info, fm.fields[i]) {
      TransferAt(info, fm.fields, fm.columns, i);
    }
  }

  /** Rebuilding a header from its written row gives back each of its fields. */
  lemma RebuiltWritten(info: Info, fm: Mapping, i: nat)
    requires ValidMapping(fm) && i < |fm.fields|
    ensures fm.fields[i] in Rebuilt(WrittenRow(info, fm), fm)
    ensures Rebuilt(WrittenRow(info, fm), fm)[fm.fields[i]] == Cell(info, fm.fields[i])
  {
    var row := Transfer(info, fm.fields, fm.columns);
    TransferKeys(info, fm.fields, fm.columns, "Annotation");
    TransferAt(info, fm.fields, fm.columns, i);
    TransferAt(WrittenRow(info, fm), fm.columns, fm.fields, i);
  }

  /** The readable UID columns of a written row hold the entry's UIDs. */
  lemma WrittenUidCells(info: Info, fm: Mapping)
    requires ValidMapping(fm) && NamesUids(fm)
    ensures "Study Instance UID" in WrittenRow(info, fm) && "Series Instance UID" in WrittenRow(info, fm)
    ensures WrittenRow(info, fm)["Study Instance UID"] == StudyOf(info)
    ensures WrittenRow(info, fm)["Series Instance UID"] == SeriesUidOf(info)
  {
    WrittenRowShape(info, fm);
    var i :| 0 <= i < |fm.fields| && i < |fm.columns| && fm.fields[i] == "0020000D" && fm.columns[i] == "Study Instance UID";
    var j :| 0 <= j < |fm.fields| && j < |fm.columns| && fm.fields[j] == "0020000E" && fm.columns[j] == "Series Instance UID";
  }

  /** A written row is read back under its entry's key. */
  lemma WrittenRowKey(info: Info, fm: Mapping)
    requires ValidMapping(fm) && NamesUids(fm)
    requires StudyOf(info) != "" && SeriesUidOf(info) != ""
    ensures RowKey(WrittenRow(info, fm)) == KeyOf(info)
  {
    WrittenUidCells(info, fm);
  }

  /**
   * A written row has no Plane Orientation column, so apply_labels reads an
   * empty plane for every series of a manifest this script wrote.
   */
  lemma WrittenRowHasNoPlane(info: Info, fm: Mapping)
    requires ValidMapping(fm) && "Plane Orientation" !in fm.columns
    ensures ApplyLabels.LabelOf(WrittenRow(info, fm)).plane == ""
  {
    WrittenRowShape(info, fm);
    assert "Plane Orientation" !in WrittenRow(info, fm);
    assert Strip("") == "";
  }

  /**
   * Re-running the extraction keeps every annotation: merging any scan with
   * the rows written for a consistent manifest carries each entry's Annotation
   * over to its key.
   */
  lemma AnnotationsSurviveRescan(m: Manifest, scanned: Manifest, fm: Mapping, k: SeriesKey)
    requires ValidMapping(fm) && NamesUids(fm)
    requires WellFormed(m) && Consistent(m) && k in m.entries
    ensures k in MergeOf(WrittenRows(m, fm), scanned, fm).entries
    ensures Cell(MergeOf(WrittenRows(m, fm), scanned, fm).entries[k], "Annotation") == Cell(m.entries[k], "Annotation")
  {
    var rows := WrittenRows(m, fm);
    var i :| 0 <= i < |m.keys| && m.keys[i] == k;
    WrittenRowKey(m.entries[k], fm);
    forall j | i < j < |rows| ensures RowKey(rows[j]) != RowKey(rows[i]) {
      WrittenRowKey(m.entries[m.keys[j]], fm);
    }
    MergeAnnotation(rows, scanned, fm, i);
    WrittenRowShape(m.entries[k], fm);
  }
  // ---------------------------------------------------------------------------
  // Later runs
  // ---------------------------------------------------------------------------

  /** Both readable UID cells of a row are filled. */
  predicate NamesBothUids(row: Row)
  {
    Cell(row, "Study Instance UID") != "" && Cell(row, "Series Instance UID") != ""
  }

  /** The header rebuilt from a row with both readable UID cells filled is filed under the row's key. */
  lemma RebuiltKey(row: Row, fm: Mapping)
    requires ValidMapping(fm) && NamesUids(fm) && NamesBothUids(row)
    ensures KeyOf(Rebuilt(row, fm)) == RowKey(row)
  {
    var i :| 0 <= i < |fm.fields| && i < |fm.columns| && fm.fields[i] == "0020000D" && fm.columns[i] == "Study Instance UID";
    var j :| 0 <= j < |fm.fields| && j < |fm.columns| && fm.fields[j] == "0020000E" && fm.columns[j] == "Series Instance UID";
    TransferAt(row, fm.columns, fm.fields, i);
    TransferAt(row, fm.columns, fm.fields, j);
  }

  /** A row with both readable UID cells filled keeps a consistent manifest consistent. */
  lemma MergeRowConsistent(m: Manifest, row: Row, fm: Mapping)
    requires ValidMapping(fm) && NamesUids(fm) && Consistent(m) && NamesBothUids(row)
    ensures Consistent(MergeRow(m, row, fm))
  {
    var k := RowKey(row);
    var m' := if k in m.entries then m else Manifest(m.keys + [k], m.entries[k := Rebuilt(row, fm)]);
    if k !in m.entries {
      RebuiltKey(row, fm);
    }
    assert Consistent(m');
    var e := m'.entries[k];
    assert KeyOf(e["Annotation" := Cell(row, "Annotation")]) == KeyOf(e);
  }

  lemma {:induction false} MergeConsistent(rows: seq<Row>, scanned: Manifest, fm: Mapping)
    requires ValidMapping(fm) && NamesUids(fm) && Consistent(scanned)
    requires forall i :: 0 <= i < |rows| ==> NamesBothUids(rows[i])
    ensures Consistent(MergeOf(rows, scanned, fm))
    decreases |rows|
  {
    if rows != [] {
      MergeConsistent(rows[..|rows| - 1], scanned, fm);
      MergeRowConsistent(MergeOf(rows[..|rows| - 1], scanned, fm), rows[|rows| - 1], fm);
    }
  }

  /**
   * The manifest a run writes after merging is again well formed and
   * consistent, so AnnotationsSurviveRescan applies to every later run too.
   */
  lemma RescanWellFormed(m: Manifest, scanned: Manifest, fm: Mapping)
    requires ValidMapping(fm) && NamesUids(fm)
    requires WellFormed(m) && Consistent(m) && WellFormed(scanned) && Consistent(scanned)
    ensures WellFormed(MergeOf(WrittenRows(m, fm), scanned, fm))
    ensures Consistent(MergeOf(WrittenRows(m, fm), scanned, fm))
  {
    var rows := WrittenRows(m, fm);
    MergeOrder(rows, scanned, fm);
    forall i | 0 <= i < |rows| ensures NamesBothUids(rows[i]) {
      assert m.keys[i] in m.entries;
      WrittenUidCells(m.entries[m.keys[i]], fm);
    }
    MergeConsistent(rows, scanned, fm);
  }

  // ---------------------------------------------------------------------------
  // The UID join with apply_labels
  // ---------------------------------------------------------------------------

  /** The series UID of every scanned key is an element's text, so it starts with "(". */
  lemma ScanSeriesIsElementText(disk: Disk, files: seq<Path>, fm: Mapping, k: SeriesKey)
    requires ValidMapping(fm) && NamesUids(fm)
    requires k in ScanOf(disk, files, fm).sequences.entries
    ensures k.series != "" && k.series[0] == '('
  {
    ScanKeys(disk, files, fm);
    var p :| p in files && Accepted(HeaderOf(disk, p, fm)) && KeyOf(HeaderOf(disk, p, fm)) == k;
    var j :| 0 <= j < |fm.fields| && j < |fm.columns| && fm.fields[j] == "0020000E" && fm.columns[j] == "Series Instance UID";
    assert fm.fields[j] in fm.fields;
    var ds := Read(disk, p).ds;
    assert k.series == ElementCell(ds, DicomUtils.HexToTag("0020000E").value);
  }

  /** The uid_map apply_labels builds from a written manifest is keyed by the manifest's series UIDs. */
  lemma WrittenUidMapKeys(m: Manifest, fm: Mapping)
    requires ValidMapping(fm) && NamesUids(fm) && WellFormed(m) && Consistent(m)
    ensures forall i :: 0 <= i < |WrittenRows(m, fm)| ==> "Series Instance UID" in WrittenRows(m, fm)[i]
    ensures ApplyLabels.UidMapOf(WrittenRows(m, fm)).Keys == set k | k in m.entries :: k.series
  {
    var rows := WrittenRows(m, fm);
    forall i | 0 <= i < |rows|
      ensures "Series Instance UID" in rows[i] && rows[i]["Series Instance UID"] == m.keys[i].series
    {
      WrittenUidCells(m.entries[m.keys[i]], fm);
    }
    ApplyLabels.UidMapKeys(rows);
    forall k | k in m.entries ensures k.series in ApplyLabels.UidMapOf(rows) {
      var i :| 0 <= i < |m.keys| && m.keys[i] == k;
    }
  }

  /**
   * As written, apply_labels skips every file once this script has written
   * the manifest: uid_map is keyed by the Series Instance UID cells, which are
   * element texts, and a file's SeriesInstanceUID value does not start with "(".
   */
  lemma WrittenManifestSkipsAll(disk: Disk, files: seq<Path>, fm: Mapping, q: Path, dryRun: bool)
    requires ValidMapping(fm) && NamesUids(fm)
    requires Read(disk, q).Parsed?
    requires var u := ValueText(Read(disk, q).ds, SeriesInstanceUidTag); u == "" || u[0] != '('
    ensures var m := ScanOf(disk, files, fm).sequences;
      WellFormed(m)
      && (forall i :: 0 <= i < |WrittenRows(m, fm)| ==> "Series Instance UID" in WrittenRows(m, fm)[i])
      && ApplyLabels.Decide(Read(disk, q), ApplyLabels.UidMapOf(WrittenRows(m, fm)), dryRun).outcome == ApplyLabels.Skipped
  {
    var m := ScanOf(disk, files, fm).sequences;
    ScanWellFormed(disk, files, fm);
    WrittenUidMapKeys(m, fm);
    var uid := Attr(Read(disk, q).ds, SeriesInstanceUidTag);
    if uid.Some? && uid.value in ApplyLabels.UidMapOf(WrittenRows(m, fm)) {
      var k :| k in m.entries && k.series == uid.value;
      ScanSeriesIsElementText(disk, files, fm, k);
      assert false;
    }
    ApplyLabels.DecideSkipped(Read(disk, q), ApplyLabels.UidMapOf(WrittenRows(m, fm)), dryRun);
  }

  /** The evidently intended header: each field's value text, {tag_hex: str(ds[tag].value)}. */
  function ValueHeaderOf(disk: Disk, p: Path, fm: Mapping): Info
    requires ValidMapping(fm)
  {
    match Read(disk, p)
    case Parsed(ds) => map f | f in fm.fields :: ValueText(ds, DicomUtils.HexToTag(f).value)
    case Failed(_) => map[]
  }

  /** The series UID of the intended header is the file's SeriesInstanceUID value. */
  lemma ValueHeaderSeries(disk: Disk, p: Path, fm: Mapping)
    requires ValidMapping(fm) && NamesUids(fm) && Read(disk, p).Parsed?
    ensures SeriesUidOf(ValueHeaderOf(disk, p, fm)) == ValueText(Read(disk, p).ds, SeriesInstanceUidTag)
  {
    var j :| 0 <= j < |fm.fields| && j < |fm.columns| && fm.fields[j] == "0020000E" && fm.columns[j] == "Series Instance UID";
    assert fm.fields[j] in fm.fields;
    DicomUtils.SeriesFieldTag();
  }

  /** The scan with the intended headers. */
  function ValueScanOf(disk: Disk, files: seq<Path>, fm: Mapping): Scan
    requires ValidMapping(fm)
  {
    ScanFold(files, p => ValueHeaderOf(disk, p, fm))
  }

  /** The intended scan is well formed and keeps the key of every accepted file. */
  lemma ValueScanKeeps(disk: Disk, files: seq<Path>, fm: Mapping, q: Path)
    requires ValidMapping(fm)
    requires q in files && Accepted(ValueHeaderOf(disk, q, fm))
    ensures WellFormed(ValueScanOf(disk, files, fm).sequences) && Consistent(ValueScanOf(disk, files, fm).sequences)
    ensures KeyOf(ValueHeaderOf(disk, q, fm)) in ValueScanOf(disk, files, fm).sequences.entries
  {
    FoldWellFormed(files, p => ValueHeaderOf(disk, p, fm));
    FoldKeys(files, p => ValueHeaderOf(disk, p, fm));
  }

  /**
   * With value texts in the manifest, every file the scan keeps finds its
   * series in the uid_map of the written manifest, so apply_labels acts on it.
   */
  lemma ValueManifestJoins(disk: Disk, files: seq<Path>, fm: Mapping, q: Path, dryRun: bool)
    requires ValidMapping(fm) && NamesUids(fm)
    requires q in files && Accepted(ValueHeaderOf(disk, q, fm))
    ensures var m := ValueScanOf(disk, files, fm).sequences;
      WellFormed(m)
      && (forall i :: 0 <= i < |WrittenRows(m, fm)| ==> "Series Instance UID" in WrittenRows(m, fm)[i])
      && ApplyLabels.Decide(Read(disk, q), ApplyLabels.UidMapOf(WrittenRows(m, fm)), dryRun).outcome != ApplyLabels.Skipped
  {
    var m := ValueScanOf(disk, files, fm).sequences;
    ValueScanKeeps(disk, files, fm, q);
    WrittenUidMapKeys(m, fm);
    var k := KeyOf(ValueHeaderOf(disk, q, fm));
    ValueHeaderSeries(disk, q, fm);
    assert k.series in ApplyLabels.UidMapOf(WrittenRows(m, fm));
    assert Attr(Read(disk, q).ds, SeriesInstanceUidTag) == Some(k.series);
    ApplyLabels.DecideSkipped(Read(disk, q), ApplyLabels.UidMapOf(WrittenRows(m, fm)), dryRun);
  }
}
