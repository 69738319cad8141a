/**
 * The DICOM-facing vocabulary shared by the scripts, with the codec and the
 * filesystem abstracted: a dataset is the text of each data element present,
 * keyed by its (group, element) tag; a directory tree is a map from paths
 * (relative to the scanned root) to what reading that file yields.
 */
module Dicom {
  import opened Text

  /** A data-element tag: the (group, element) pair of section 7.1 of DICOM PS3.5. */
  datatype Tag = Tag(group: nat, element: nat)

  const ProtocolNameTag: Tag := Tag(0x0018, 0x1030)
  const SliceThicknessTag: Tag := Tag(0x0018, 0x0050)
  const SpacingBetweenSlicesTag: Tag := Tag(0x0018, 0x0088)
  const StudyInstanceUidTag: Tag := Tag(0x0020, 0x000D)
  const SeriesInstanceUidTag: Tag := Tag(0x0020, 0x000E)
  const InstanceNumberTag: Tag := Tag(0x0020, 0x0013)
  const NumberOfTemporalPositionsTag: Tag := Tag(0x0020, 0x0105)

  /** A parsed header: for each element present, the text of its value. */
  type Dataset = map<Tag, string>

  /** getattr(ds, keyword, None): the element's value, or None when it is absent. */
  function Attr(ds: Dataset, t: Tag): Option<string>
  {
    if t in ds then Some(ds[t]) else None
  }

  /** getattr(ds, keyword, ""): the text of the element's value, or "" when it is absent. */
  function ValueText(ds: Dataset, t: Tag): string
  {
    if t in ds then ds[t] else ""
  }

  /**
   * A tag as pydicom 2 prints it, "(gggg, eeee)" in upper-case hex. Tags are
   * two 16-bit numbers; a larger number keeps only its low sixteen bits here.
   */
  function TagText(t: Tag): (r: string)
    ensures |r| == 12 && r[0] == '('
  {
    "(" + FormatHex4(t.group % 0x1_0000) + ", " + FormatHex4(t.element % 0x1_0000) + ")"
  }

  /**
   * str() of a data element: its tag, then its value. pydicom puts the
   * element's name and VR between the two and quotes some values; those
   * parts are not modelled.
   */
  function ElementText(t: Tag, v: string): (r: string)
    ensures |r| == |TagText(t)| + 1 + |v|
    ensures r[..|TagText(t)|] == TagText(t) && r[|TagText(t)| + 1..] == v
  {
    TagText(t) + " " + v
  }

  /**
   * str(ds.get(tag, "")) with a (group, element) key: Dataset.get returns the
   * data element itself, not its value, so the text is the element's; "" when
   * it is absent.
   */
  function ElementCell(ds: Dataset, t: Tag): (r: string)
    ensures r == "" <==> t !in ds
    ensures r != "" ==> t in ds && |r| == |TagText(t)| + 1 + |ds[t]|
    ensures r != "" ==> r[0] == '(' && r[|TagText(t)| + 1..] == ds[t]
  {
    if t in ds then ElementText(t, ds[t]) else ""
  }

  /**
   * The element's text is never its value when the value does not start with
   * "(": a UID value, made of digits and dots, never equals the cell.
   */
  lemma ElementCellNotValue(ds: Dataset, t: Tag)
    requires t in ds && (ds[t] == "" || ds[t][0] != '(')
    ensures ElementCell(ds, t) != ValueText(ds, t)
  {
  }

  /**
   * Why reading a file failed, in the exception classes the scripts tell apart:
   * pydicom's InvalidDicomError, FileNotFoundError, PermissionError, any other
   * OSError, and any other exception raised while parsing.
   */
  datatype ReadError = InvalidDicom | NotFound | PermissionDenied | OtherOsError | Malformed

  /** A file on disk: a DICOM object (header and pixel data) or something reading rejects. */
  datatype FileData = Slice(ds: Dataset, pixels: seq<int>) | Unreadable(why: ReadError)

  /** A path as its components below the scanned root. */
  type Path = seq<string>

  type Disk = map<Path, FileData>

  datatype ReadResult = Parsed(ds: Dataset) | Failed(why: ReadError)

  /** pydicom.dcmread on a path: a missing file raises FileNotFoundError. */
  function Read(disk: Disk, p: Path): (r: ReadResult)
    ensures p !in disk ==> r == Failed(NotFound)
  {
    if p !in disk then Failed(NotFound)
    else match disk[p]
      case Slice(ds, _) => Parsed(ds)
      case Unreadable(why) => Failed(why)
  }

  /** One manifest row: column name to cell text. */
  type Row = map<string, string>

  /** row.get(column, ""). */
  function Cell(row: Row, column: string): string
  {
    if column in row then row[column] else ""
  }

  /** The exceptions that escape a script's own handlers and end the run. */
  datatype Error =
    | ReadFailed(why: ReadError)
    | BadHexTag(text: string)
    | MissingColumn(name: string)
    | IndexOutOfRange
    | ZeroDivision
    | NoSearchTerms
    | FieldNotInHeader

  datatype Result<T> = Ok(value: T) | Err(error: Error)
}
