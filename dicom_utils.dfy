/**
 * Shared helpers of utils/dicom_utils.py: tag parsing, the header projection,
 * the InstanceNumber fallback, the stable slice sort, evenly spaced slice
 * selection and grouping of files by series.
 */
module DicomUtils {
  import opened Text
  import opened Sorting
  import opened Dicom

  // ---------------------------------------------------------------------------
  // Tags written as eight hex digits
  // ---------------------------------------------------------------------------

  /** Both halves are hex digits, the second one non-empty. */
  lemma HexHalves(s: string)
    ensures (4 < |s| && AllHex(s)) <==> (4 < |s| && AllHex(s[..4]) && AllHex(s[4..]))
  {
    if 4 < |s| && AllHex(s[..4]) && AllHex(s[4..]) {
      forall i | 0 <= i < |s| ensures IsHexDigit(s[i]) {
        if i < 4 { assert s[i] == s[..4][i]; } else { assert s[i] == s[4..][i - 4]; }
      }
    }
  }

  /**
   * hex_to_tag: int(text[:4], 16) and int(text[4:], 16). Either conversion
   * failing raises ValueError (None here); text of four characters or fewer
   * leaves the element half empty, which fails.
   */
  function HexToTag(text: string): (r: Option<Tag>)
    ensures r.Some? <==> 4 < |text| && AllHex(text)
    ensures r.Some? ==> r.value.group < 0x1_0000
  {
    var cut := if |text| < 4 then |text| else 4;
    HexHalves(text);
    match (ParseHex(text[..cut]), ParseHex(text[cut..]))
    case (Some(g), Some(e)) =>
      HexValue4(text[..4]);
      Some(Tag(g, e))
    case _ => None
  }

  /** A tag written back as '%04X%04X'. */
  function FormatTag(t: Tag): (r: string)
    requires t.group < 0x1_0000 && t.element < 0x1_0000
    ensures |r| == 8 && AllHex(r)
  {
    FormatHex4(t.group) + FormatHex4(t.element)
  }

  /** Writing a tag as eight hex digits and parsing it gives the tag back. */
  lemma TagTextRoundTrip(t: Tag)
    requires t.group < 0x1_0000 && t.element < 0x1_0000
    ensures HexToTag(FormatTag(t)) == Some(t)
  {
    var s := FormatTag(t);
    assert s[..4] == FormatHex4(t.group) && s[4..] == FormatHex4(t.element);
    HexValueOfFormat4(t.group);
    HexValueOfFormat4(t.element);
  }

  /** Parsing eight hex digits and writing the tag back gives the text again, up to letter case. */
  lemma HexTextRoundTrip(s: string)
    requires |s| == 8 && AllHex(s)
    ensures HexToTag(s).Some?
    ensures HexToTag(s).value.element < 0x1_0000
    ensures FormatTag(HexToTag(s).value) == Upper(s)
  {
    HexHalves(s);
    FormatOfHexValue4(s[..4]);
    FormatOfHexValue4(s[4..]);
    assert Upper(s) == Upper(s[..4]) + Upper(s[4..]);
  }

  /** The field text of SeriesInstanceUID parses to its tag. */
  lemma SeriesFieldTag()
    ensures HexToTag("0020000E") == Some(SeriesInstanceUidTag)
  {
    TagTextRoundTrip(SeriesInstanceUidTag);
    assert FormatTag(SeriesInstanceUidTag) == "0020000E";
  }

  // ---------------------------------------------------------------------------
  // read_header
  // ---------------------------------------------------------------------------

  /** `m` has one entry per requested field: the element's text, or "" when the element is absent. */
  predicate Projects(ds: Dataset, fields: seq<string>, m: map<string, string>)
  {
    m.Keys == (set f | f in fields)
    && forall f :: f in fields ==> HexToTag(f).Some? && m[f] == ElementCell(ds, HexToTag(f).value)
  }

  /** The loop of read_header (and of extract_header_fields): {tag_hex: str(ds.get(tag, ""))}. */
  method ProjectFields(ds: Dataset, fields: seq<string>) returns (r: Result<map<string, string>>)
    ensures r.Ok? <==> forall f :: f in fields ==> HexToTag(f).Some?
    ensures r.Ok? ==> Projects(ds, fields, r.value)
    ensures r.Err? ==> exists k :: 0 <= k < |fields| && r.error == BadHexTag(fields[k])
                                 && HexToTag(fields[k]).None?
  {
    var out: map<string, string> := map[];
    var i := 0;
    while i < |fields|
      invariant 0 <= i <= |fields|
      invariant out.Keys == set j | 0 <= j < i :: fields[j]
      invariant forall j :: 0 <= j < i ==> HexToTag(fields[j]).Some?
      invariant forall j :: 0 <= j < i ==> out[fields[j]] == ElementCell(ds, HexToTag(fields[j]).value)
    {
      match HexToTag(fields[i]) {
        case None =>
          return Err(BadHexTag(fields[i]));
        case Some(tag) =>
          out := out[fields[i] := ElementCell(ds, tag)];
      }
      i := i + 1;
    }
    forall f | f in fields ensures f in out && HexToTag(f).Some? && out[f] == ElementCell(ds, HexToTag(f).value) {
      var j :| 0 <= j < |fields| && fields[j] == f;
    }
    assert out.Keys == set f | f in fields;
    return Ok(out);
  }

  /**
   * read_header: an invalid file gives {} (or raises when strict); any other
   * read failure and any malformed tag text propagate.
   */
  method ReadHeader(disk: Disk, p: Path, fields: seq<string>, strict: bool)
    returns (r: Result<map<string, string>>)
    ensures Read(disk, p) == Failed(InvalidDicom) ==>
              r == if strict then Err(ReadFailed(InvalidDicom)) else Ok(map[])
    ensures Read(disk, p).Failed? && Read(disk, p).why != InvalidDicom ==>
              r == Err(ReadFailed(Read(disk, p).why))
    ensures Read(disk, p).Parsed? ==>
              (r.Ok? <==> forall f :: f in fields ==> HexToTag(f).Some?)
              && (r.Ok? ==> Projects(Read(disk, p).ds, fields, r.value))
  {
    match Read(disk, p) {
      case Failed(why) =>
        if why == InvalidDicom {
          r := if strict then Err(ReadFailed(InvalidDicom)) else Ok(map[]);
        } else {
          r := Err(ReadFailed(why));
        }
      case Parsed(ds) =>
        r := ProjectFields(ds, fields);
    }
  }

  // ---------------------------------------------------------------------------
  // safe_instance_number and sort_slices_by_instance
  // ---------------------------------------------------------------------------

  /** safe_instance_number: int(ds.InstanceNumber), or `default` when it is absent or not an integer. */
  function SafeInstanceNumber(ds: Dataset, default: int): (n: int)
    ensures InstanceNumberTag !in ds ==> n == default
    ensures InstanceNumberTag in ds ==> n == GetOr(ParseInt(ds[InstanceNumberTag]), default)
  {
    match Attr(ds, InstanceNumberTag)
    case None => default
    case Some(text) =>
      match ParseInt(text)
      case Some(v) => v
      case None => default
  }

  /** An InstanceNumber written as str(n) is read back as n, whatever the default. */
  lemma InstanceNumberRoundTrip(ds: Dataset, n: int, default: int)
    ensures SafeInstanceNumber(ds[InstanceNumberTag := FormatInt(n)], default) == n
  {
    ParseFormatInt(n);
  }

  /** The sort key of sort_slices_by_instance: -1 for a file that cannot be read. */
  function InstanceKey(disk: Disk, p: Path): int
  {
    match Read(disk, p)
    case Parsed(ds) => SafeInstanceNumber(ds, -1)
    case Failed(_) => -1
  }

  function InstanceKeyOf(disk: Disk): Path -> int
  {
    p => InstanceKey(disk, p)
  }

  /**
   * sort_slices_by_instance: the same files, ascending by instance key, and
   * files with equal keys in their input order.
   */
  function SortSlicesByInstance(disk: Disk, files: seq<Path>): (r: seq<Path>)
    ensures multiset(r) == multiset(files)
    ensures SortedByKey(r, InstanceKeyOf(disk))
    ensures forall k :: WithKey(r, InstanceKeyOf(disk), k) == WithKey(files, InstanceKeyOf(disk), k)
  {
    forall k ensures WithKey(SortByKey(files, InstanceKeyOf(disk)), InstanceKeyOf(disk), k)
                  == WithKey(files, InstanceKeyOf(disk), k) {
      SortByKeyStable(files, InstanceKeyOf(disk), k);
    }
    SortByKey(files, InstanceKeyOf(disk))
  }

  // ---------------------------------------------------------------------------
  // choose_slice_indices
  // ---------------------------------------------------------------------------

  /** Python's round(num / den): the nearest integer, ties to the even one. */
  function RoundHalfEven(num: int, den: int): (r: int)
    requires den > 0
    ensures 2 * (r * den - num) <= den && 2 * (num - r * den) <= den
    ensures 2 * (r * den - num) == den || 2 * (num - r * den) == den ==> r % 2 == 0
  {
    var q, m := num / den, num % den;
    assert num == q * den + m;
    if 2 * m < den then q
    else if 2 * m > den then q + 1
    else if q % 2 == 0 then q
    else q + 1
  }

  function Range(n: int): (r: seq<int>)
    ensures |r| == (if n < 0 then 0 else n)
    ensures forall i :: 0 <= i < |r| ==> r[i] == i
  {
    seq(if n < 0 then 0 else n, i => i)
  }

  /**
   * choose_slice_indices: every index when there are at most n_pick slices;
   * otherwise round(i * (n - 1) / (n_pick - 1)) for i in range(n_pick), which
   * divides by zero when n_pick is 1. Pick i is the integer nearest to
   * i * (n - 1) / (n_pick - 1), the even one on a tie: the picks are evenly
   * spaced over the slices.
   */
  function ChooseSliceIndices(n: int, nPick: int): (r: Result<seq<int>>)
    ensures n <= nPick ==> r == Ok(Range(n))
    ensures nPick < n && nPick == 1 ==> r == Err(ZeroDivision)
    ensures nPick < n && nPick != 1 ==> r.Ok? && |r.value| == (if nPick < 0 then 0 else nPick)
    ensures 2 <= nPick < n ==> forall i :: 0 <= i < nPick ==>
              var num, den := i * (n - 1), nPick - 1;
              2 * (r.value[i] * den - num) <= den && 2 * (num - r.value[i] * den) <= den
              && (2 * (r.value[i] * den - num) == den || 2 * (num - r.value[i] * den) == den ==> r.value[i] % 2 == 0)
  {
    if n <= nPick then Ok(Range(n))
    else if nPick <= 0 then Ok([])
    else if nPick == 1 then Err(ZeroDivision)
    else Ok(seq(nPick, i requires 0 <= i < nPick => RoundHalfEven(i * (n - 1), nPick - 1)))
  }

  lemma MulCancelLt(a: int, b: int, d: int)
    requires d > 0 && a * d < b * d
    ensures a < b
  {
  }

  lemma MulMonotone(a: int, b: int, c: int)
    requires a <= b && c >= 0
    ensures a * c <= b * c
  {
  }

  /** round(num / den) >= m whenever num / den >= m. */
  lemma RoundAtLeast(num: int, den: int, m: int)
    requires den > 0 && num >= den * m
    ensures RoundHalfEven(num, den) >= m
  {
    var r := RoundHalfEven(num, den);
    assert 2 * (r * den) >= 2 * num - den;
    assert (m - 1) * den == den * m - den;
    MulCancelLt(m - 1, r, den);
  }

  /** round(num / den) <= m whenever num / den <= m. */
  lemma RoundAtMost(num: int, den: int, m: int)
    requires den > 0 && num <= den * m
    ensures RoundHalfEven(num, den) <= m
  {
    var r := RoundHalfEven(num, den);
    assert 2 * (r * den) <= 2 * num + den;
    assert (m + 1) * den == den * m + den;
    MulCancelLt(r, m + 1, den);
  }

  /** Numerators more than one denominator apart round to increasing integers. */
  lemma RoundApart(num1: int, num2: int, den: int)
    requires den > 0 && num2 - num1 > den
    ensures RoundHalfEven(num1, den) < RoundHalfEven(num2, den)
  {
    var a, b := RoundHalfEven(num1, den), RoundHalfEven(num2, den);
    assert 2 * (a * den) <= 2 * num1 + den;
    assert 2 * (b * den) >= 2 * num2 - den;
    MulCancelLt(a, b, den);
  }

  /** A rounded pick round(i * (n - 1) / den) with 0 <= i <= den lies in [0, n). */
  lemma PickInRange(n: int, den: int, i: int)
    requires 1 <= den < n - 1 && 0 <= i <= den
    ensures 0 <= RoundHalfEven(i * (n - 1), den) < n
  {
    MulMonotone(0, i, n - 1);
    assert den * 0 == 0;
    RoundAtLeast(i * (n - 1), den, 0);
    MulMonotone(i, den, n - 1);
    RoundAtMost(i * (n - 1), den, n - 1);
  }

  /** Picks i < j are at least n - 1 > den apart before rounding, so they round apart. */
  lemma PickIncreasing(n: int, den: int, i: int, j: int)
    requires 1 <= den < n - 1 && 0 <= i < j
    ensures RoundHalfEven(i * (n - 1), den) < RoundHalfEven(j * (n - 1), den)
  {
    MulMonotone(1, j - i, n - 1);
    assert j * (n - 1) - i * (n - 1) == (j - i) * (n - 1);
    RoundApart(i * (n - 1), j * (n - 1), den);
  }

  /** The last pick is exactly n - 1. */
  lemma LastPick(n: int, den: int)
    requires 1 <= den
    ensures RoundHalfEven(den * (n - 1), den) == n - 1
  {
    RoundAtLeast(den * (n - 1), den, n - 1);
    RoundAtMost(den * (n - 1), den, n - 1);
  }

  /** With more slices than picks, the picks are strictly increasing, start at 0, end at n - 1. */
  lemma ChooseSliceIndicesSpread(n: int, nPick: int)
    requires 2 <= nPick < n
    ensures ChooseSliceIndices(n, nPick).Ok?
    ensures var s := ChooseSliceIndices(n, nPick).value;
      |s| == nPick && s[0] == 0 && s[nPick - 1] == n - 1
      && (forall i :: 0 <= i < nPick ==> 0 <= s[i] < n)
      && (forall i, j :: 0 <= i < j < nPick ==> s[i] < s[j])
  {
    var s := ChooseSliceIndices(n, nPick).value;
    var den := nPick - 1;
    forall i | 0 <= i < nPick ensures 0 <= s[i] < n {
      PickInRange(n, den, i);
    }
    forall i, j | 0 <= i < j < nPick ensures s[i] < s[j] {
      PickIncreasing(n, den, i, j);
    }
    assert s[0] == RoundHalfEven(0, den);
    assert s[nPick - 1] == RoundHalfEven(den * (n - 1), den);
    LastPick(n, den);
  }

  // ---------------------------------------------------------------------------
  // gather_series_files
  // ---------------------------------------------------------------------------

  /** The series a file belongs to: None when it cannot be read or has no SeriesInstanceUID. */
  function SeriesOf(disk: Disk, p: Path): Option<string>
  {
    match Read(disk, p)
    case Parsed(ds) => Attr(ds, SeriesInstanceUidTag)
    case Failed(_) => None
  }

  /** The files of `files` in series `uid`, in walk order. */
  function FilesOf(disk: Disk, files: seq<Path>, uid: string): seq<Path>
  {
    if files == [] then []
    else
      var p := files[|files| - 1];
      FilesOf(disk, files[..|files| - 1], uid) + (if SeriesOf(disk, p) == Some(uid) then [p] else [])
  }

  /** The series met among `files`. */
  function UidsOf(disk: Disk, files: seq<Path>): set<string>
  {
    set p | p in files && SeriesOf(disk, p).Some? :: SeriesOf(disk, p).value
  }

  /** What gather_series_files returns: each series' files, sorted by instance key. */
  function SeriesFiles(disk: Disk, files: seq<Path>): map<string, seq<Path>>
  {
    map u | u in UidsOf(disk, files) :: SortSlicesByInstance(disk, FilesOf(disk, files, u))
  }

  lemma {:induction false} FilesOfMember(disk: Disk, files: seq<Path>, uid: string, p: Path)
    ensures p in FilesOf(disk, files, uid) <==> p in files && SeriesOf(disk, p) == Some(uid)
    decreases |files|
  {
    if files != [] {
      var init := files[..|files| - 1];
      FilesOfMember(disk, init, uid, p);
      assert files == init + [files[|files| - 1]];
    }
  }

  /**
   * Every file that can be read and names a series sits in that series' list
   * and in no other; nothing else is listed. Each list is sorted by instance key.
   */
  lemma SeriesFilesPlacement(disk: Disk, files: seq<Path>, p: Path, uid: string)
    ensures (uid in SeriesFiles(disk, files) && p in SeriesFiles(disk, files)[uid])
        <==> (p in files && SeriesOf(disk, p) == Some(uid))
    ensures uid in SeriesFiles(disk, files) ==> SortedByKey(SeriesFiles(disk, files)[uid], InstanceKeyOf(disk))
  {
    FilesOfMember(disk, files, uid, p);
    if p in files && SeriesOf(disk, p) == Some(uid) {
      assert uid in UidsOf(disk, files);
    }
    if uid in SeriesFiles(disk, files) {
      assert p in SeriesFiles(disk, files)[uid] <==> p in multiset(FilesOf(disk, files, uid));
    }
  }

  lemma {:induction false} FilesOfNone(disk: Disk, files: seq<Path>, uid: string)
    requires uid !in UidsOf(disk, files)
    ensures FilesOf(disk, files, uid) == []
    decreases |files|
  {
    if files != [] {
      var init, p := files[..|files| - 1], files[|files| - 1];
      assert uid !in UidsOf(disk, init) by {
        assert forall q :: q in init ==> q in files;
      }
      assert p in files;
      assert SeriesOf(disk, p) != Some(uid);
      FilesOfNone(disk, init, uid);
    }
  }

  /** `series` maps each series met among `files` to its files, in walk order. */
  predicate Groups(disk: Disk, files: seq<Path>, series: map<string, seq<Path>>)
  {
    series.Keys == UidsOf(disk, files)
    && forall u :: u in series ==> series[u] == FilesOf(disk, files, u)
  }

  /** Appending the next file of the walk to its series' list keeps the grouping. */
  lemma GroupsStep(disk: Disk, files: seq<Path>, series: map<string, seq<Path>>, p: Path)
    requires Groups(disk, files, series)
    ensures Groups(disk, files + [p],
                   match SeriesOf(disk, p)
                   case None => series
                   case Some(u) => series[u := (if u in series then series[u] else []) + [p]])
  {
    var files' := files + [p];
    assert files'[..|files|] == files;
    assert forall q :: q in files' <==> q in files || q == p;
    match SeriesOf(disk, p) {
      case None =>
        assert UidsOf(disk, files') == UidsOf(disk, files);
      case Some(u) =>
        assert UidsOf(disk, files') == UidsOf(disk, files) + {u};
        if u !in series {
          FilesOfNone(disk, files, u);
        }
    }
  }

  /** The grouping after the walk's next file, as the grouping loop updates it. */
  lemma GroupsAt(disk: Disk, walk: seq<Path>, i: nat, series: map<string, seq<Path>>)
    requires i < |walk| && Groups(disk, walk[..i], series)
    ensures var read := Read(disk, walk[i]);
      Groups(disk, walk[..i + 1],
        if read.Parsed? && SeriesInstanceUidTag in read.ds
        then series[read.ds[SeriesInstanceUidTag] := (if read.ds[SeriesInstanceUidTag] in series then series[read.ds[SeriesInstanceUidTag]] else []) + [walk[i]]]
        else series)
  {
    assert walk[..i + 1] == walk[..i] + [walk[i]];
    GroupsStep(disk, walk[..i], series, walk[i]);
  }

  /** The first loop of gather_series_files: append each readable file to its series' list. */
  method GroupBySeries(disk: Disk, walk: seq<Path>) returns (series: map<string, seq<Path>>)
    ensures Groups(disk, walk, series)
  {
    series := map[];
    var i := 0;
    while i < |walk|
      invariant 0 <= i <= |walk|
      invariant Groups(disk, walk[..i], series)
    {
      var p := walk[i];
      GroupsAt(disk, walk, i, series);
      match Read(disk, p) {
        case Failed(_) =>
        case Parsed(ds) =>
          if SeriesInstanceUidTag in ds {
            var uid := ds[SeriesInstanceUidTag];
            series := series[uid := (if uid in series then series[uid] else []) + [p]];
          }
      }
      i := i + 1;
    }
    assert walk[..i] == walk;
  }

  lemma SortedGroups(disk: Disk, walk: seq<Path>, grouped: map<string, seq<Path>>, series: map<string, seq<Path>>)
    requires Groups(disk, walk, grouped) && series.Keys == grouped.Keys
    requires forall u :: u in series ==> series[u] == SortSlicesByInstance(disk, grouped[u])
    ensures series == SeriesFiles(disk, walk)
  {
  }

  /** The second loop of gather_series_files: sort each series' list in place. */
  method SortEachSeries(disk: Disk, grouped: map<string, seq<Path>>) returns (series: map<string, seq<Path>>)
    ensures series.Keys == grouped.Keys
    ensures forall u :: u in series ==> series[u] == SortSlicesByInstance(disk, grouped[u])
  {
    series := grouped;
    var todo := series.Keys;
    while todo != {}
      invariant todo <= series.Keys && series.Keys == grouped.Keys
      invariant forall u :: u in todo ==> series[u] == grouped[u]
      invariant forall u :: u in series && u !in todo ==> series[u] == SortSlicesByInstance(disk, grouped[u])
      decreases |todo|
    {
      var u :| u in todo;
      var sorted := SortSlicesByInstance(disk, series[u]);
      series := series[u := sorted];
      todo := todo - {u};
    }
  }

  /** gather_series_files: group the files of the walk by series, then sort each list. */
  method GatherSeriesFiles(disk: Disk, walk: seq<Path>) returns (series: map<string, seq<Path>>)
    ensures series == SeriesFiles(disk, walk)
  {
    var grouped := GroupBySeries(disk, walk);
    series := SortEachSeries(disk, grouped);
    SortedGroups(disk, walk, grouped, series);
  }
}
