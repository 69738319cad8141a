/**
 * The annotation store behind the labelling web UI: the label list kept in a
 * text file (one label per line), the manifest kept as rows, the pagination of
 * the manifest into pages of 20 series, and the handling of a submitted page,
 * which writes each series' annotation into its manifest row and adds new
 * labels to the label file.
 *
 * A file that does not exist is modelled as empty: loading either gives no
 * labels and no rows, and appending to a missing label file creates it.
 */
module LabelServer {
  import opened Text
  import opened Dicom

  // ---------------------------------------------------------------------------
  // The label file: load_labels
  // ---------------------------------------------------------------------------

  /** The labels named by `lines`: each line stripped, blanks dropped, first occurrence kept. */
  function LabelsOf(lines: seq<string>): seq<string>
  {
    if lines == [] then []
    else
      var prev := LabelsOf(lines[..|lines| - 1]);
      var l := Strip(lines[|lines| - 1]);
      if l != "" && l !in prev then prev + [l] else prev
  }

  /** What load_labels returns for a label file with text `text`. */
  function Labels(text: string): seq<string>
  {
    LabelsOf(SplitLines(text))
  }

  /** Every label is stripped and non-empty, and no label is listed twice. */
  lemma {:induction false} LabelsOfClean(lines: seq<string>)
    ensures var labels := LabelsOf(lines);
      Distinct(labels) && forall i :: 0 <= i < |labels| ==> labels[i] != "" && Strip(labels[i]) == labels[i]
  {
    if lines != [] {
      LabelsOfClean(lines[..|lines| - 1]);
      StripIdempotent(lines[|lines| - 1]);
    }
  }

  lemma LabelsOfStep(lines: seq<string>, l: string)
    requires lines != []
    ensures l in LabelsOf(lines)
        <==> l in LabelsOf(lines[..|lines| - 1]) || (l != "" && Strip(lines[|lines| - 1]) == l)
  {
  }

  /** Some element of xs maps to y exactly when one before the last does or the last does. */
  lemma SomeMapsTo<T, U>(xs: seq<T>, init: seq<T>, f: T -> U, y: U)
    requires xs != [] && init == xs[..|xs| - 1]
    ensures (exists i :: 0 <= i < |xs| && f(xs[i]) == y)
        <==> (exists i :: 0 <= i < |init| && f(init[i]) == y) || f(xs[|xs| - 1]) == y
  {
    if exists i :: 0 <= i < |xs| && f(xs[i]) == y {
      var i :| 0 <= i < |xs| && f(xs[i]) == y;
      if i < |init| {
        assert init[i] == xs[i];
      }
    }
    if exists i :: 0 <= i < |init| && f(init[i]) == y {
      var i :| 0 <= i < |init| && f(init[i]) == y;
      assert xs[i] == init[i];
    }
  }

  lemma {:induction false} LabelsOfSome(lines: seq<string>, l: string)
    ensures l in LabelsOf(lines) <==> l != "" && exists i :: 0 <= i < |lines| && Strip(lines[i]) == l
  {
    if lines != [] {
      LabelsOfSome(lines[..|lines| - 1], l);
      LabelsOfStep(lines, l);
      SomeMapsTo(lines, lines[..|lines| - 1], Strip, l);
    }
  }

  /** A label is listed exactly when some line strips to it and it is not blank. */
  lemma LabelsOfMember(lines: seq<string>, l: string)
    ensures l in LabelsOf(lines) <==> l != "" && exists i :: 0 <= i < |lines| && Strip(lines[i]) == l
  {
    LabelsOfSome(lines, l);
  }

  /** More lines only add labels at the end: the order is the order of first occurrence. */
  lemma {:induction false} LabelsOfPrefix(lines: seq<string>, more: seq<string>)
    ensures LabelsOf(lines) <= LabelsOf(lines + more)
    decreases |more|
  {
    if more == [] {
      assert lines + more == lines;
    } else {
      var init := more[..|more| - 1];
      assert (lines + more)[..|lines + more| - 1] == lines + init;
      LabelsOfPrefix(lines, init);
    }
  }

  // ---------------------------------------------------------------------------
  // The label file: append_label
  // ---------------------------------------------------------------------------

  /**
   * append_label as written: the stripped label is written followed by "\n"
   * at the end of the file, unless it is blank or already listed.
   */
  function AppendLabelAsWritten(text: string, newLabel: string): string
  {
    var l := Strip(newLabel);
    if l == "" || l in Labels(text) then text else text + l + "\n"
  }

  /** A file holding one stripped line lists that line, with or without a final line break. */
  lemma LabelsOneLine(t: string)
    requires t != [] && NoBreaks(t) && Strip(t) == t
    ensures Labels(t + "\n") == [t] && Labels(t) == [t]
  {
    SplitLinesOne(t);
    SplitLinesTerminate(t);
    assert LabelsOf([t]) == [t] by {
      assert [t][..0] == [];
    }
  }

  /** Two stripped single lines glued together make one stripped line. */
  lemma GluedLine(t: string, l: string)
    requires t != [] && NoBreaks(t) && Stripped(t)
    requires l != [] && NoBreaks(l) && Stripped(l)
    ensures NoBreaks(t + l) && Strip(t + l) == t + l
  {
    var glued := t + l;
    forall i | 0 <= i < |glued| ensures !IsLineBreak(glued[i]) {
      if i < |t| { assert glued[i] == t[i]; } else { assert glued[i] == l[i - |t|]; }
    }
    assert glued[0] == t[0] && glued[|glued| - 1] == l[|l| - 1];
    StripFacts(glued);
  }

  /**
   * On a one-line file without a final line break, the code glues the new label
   * onto that line: the file lists t before and only t + label after.
   */
  lemma AppendGluesOntoLastLine(t: string, newLabel: string)
    requires t != [] && NoBreaks(t) && Stripped(t)
    requires Strip(newLabel) != "" && NoBreaks(Strip(newLabel)) && Strip(newLabel) != t
    ensures Labels(t) == [t]
    ensures Labels(AppendLabelAsWritten(t, newLabel)) == [t + Strip(newLabel)]
  {
    var l := Strip(newLabel);
    StripFacts(t);
    LabelsOneLine(t);
    StripFacts(newLabel);
    GluedLine(t, l);
    assert AppendLabelAsWritten(t, newLabel) == (t + l) + "\n";
    LabelsOneLine(t + l);
  }

  /**
   * When the label file does not end with a line break, the appended label is
   * glued onto the last line: the file "T1" becomes "T1T2\n", so the label
   * list loses "T1" and does not gain "T2".
   */
  lemma AppendAsWrittenGluesLines()
    ensures Labels("T1") == ["T1"]
    ensures Labels(AppendLabelAsWritten("T1", "T2")) == ["T1T2"]
  {
    assert Stripped("T1") && Stripped("T2");
    StripFacts("T2");
    assert "T1" + "T2" == "T1T2";
    AppendGluesOntoLastLine("T1", "T2");
  }

  /**
   * As written, append_label is not idempotent: after "T2" was glued onto an
   * unterminated "T1", "T2" is still not listed, so it is appended again.
   */
  lemma AppendAsWrittenAppendsAgain()
    ensures AppendLabelAsWritten(AppendLabelAsWritten("T1", "T2"), "T2") == "T1T2\n" + "T2\n"
  {
    AppendAsWrittenGluesLines();
    assert Strip("T2") == "T2" by {
      assert Stripped("T2");
      StripFacts("T2");
    }
    assert AppendLabelAsWritten("T1", "T2") == "T1T2\n";
    assert "T2" !in Labels("T1T2\n");
  }

  /** The file's text ends at a line boundary, so appended text starts a new line. */
  predicate EndsLine(text: string)
  {
    text == [] || IsLineBreak(text[|text| - 1])
  }

  /**
   * append_label as intended: like the code, but a line break is written
   * first when the file's last line is unterminated.
   */
  function AppendLabelText(text: string, newLabel: string): string
  {
    var l := Strip(newLabel);
    if l == "" || l in Labels(text) then text
    else if EndsLine(text) then text + l + "\n"
    else text + "\n" + l + "\n"
  }

  /** On a file that ends with a line break (or is empty) the code does what was intended. */
  lemma AppendAgreesOnEndedFiles(text: string, newLabel: string)
    requires EndsLine(text)
    ensures AppendLabelAsWritten(text, newLabel) == AppendLabelText(text, newLabel)
  {
  }

  /**
   * A new, non-blank label on one line ends up listed last, after every label
   * the file already listed.
   */
  lemma AppendLabelAdds(text: string, newLabel: string)
    requires Strip(newLabel) != "" && Strip(newLabel) !in Labels(text)
    requires NoBreaks(Strip(newLabel))
    ensures Labels(AppendLabelText(text, newLabel)) == Labels(text) + [Strip(newLabel)]
  {
    var l := Strip(newLabel);
    StripFacts(newLabel);
    StripIdempotent(newLabel);
    AppendedLines(text, l);
    LabelsOfSnoc(SplitLines(text), l);
  }

  /** The intended append adds exactly one line, the label. */
  lemma AppendedLines(text: string, l: string)
    requires l != [] && NoBreaks(l) && !IsSpace(l[0])
    ensures SplitLines(if EndsLine(text) then text + l + "\n" else text + "\n" + l + "\n") == SplitLines(text) + [l]
  {
    if EndsLine(text) {
      AppendAssoc(text, l, "\n");
      SplitLinesAppendLine(text, l);
    } else {
      AppendAssoc(text + "\n", l, "\n");
      SplitLinesTerminate(text);
      SplitLinesAppendLine(text + "\n", l);
    }
  }

  /** A line appended after a line boundary becomes the last line. */
  lemma SplitLinesAppendLine(head: string, l: string)
    requires EndsLine(head)
    requires l != [] && NoBreaks(l) && !IsSpace(l[0])
    ensures SplitLines(head + (l + "\n")) == SplitLines(head) + [l]
  {
    assert (l + "\n")[0] == l[0];
    SplitLinesConcat(head, l + "\n");
    SplitLinesOne(l);
  }

  /** A new stripped label on a line of its own is listed last. */
  lemma LabelsOfSnoc(lines: seq<string>, l: string)
    requires l != "" && Strip(l) == l && l !in LabelsOf(lines)
    ensures LabelsOf(lines + [l]) == LabelsOf(lines) + [l]
  {
    assert (lines + [l])[..|lines|] == lines;
  }

  /** The corrected append is idempotent for a label without a line break: a second append of it changes nothing. */
  lemma AppendLabelIdempotent(text: string, newLabel: string)
    requires NoBreaks(Strip(newLabel))
    ensures var once := AppendLabelText(text, newLabel);
      AppendLabelText(once, newLabel) == once
  {
    var l := Strip(newLabel);
    if l != "" && l !in Labels(text) {
      AppendLabelAdds(text, newLabel);
      assert l in Labels(AppendLabelText(text, newLabel));
    }
  }

  /** The label file after append_label for each label of `labels`, in order. */
  function AppendAll(text: string, labels: seq<string>): string
  {
    if labels == [] then text
    else AppendLabelText(AppendAll(text, labels[..|labels| - 1]), labels[|labels| - 1])
  }

  // ---------------------------------------------------------------------------
  // The submitted form
  // ---------------------------------------------------------------------------

  predicate IsLabelKey(key: string)
  {
    |key| >= 6 && key[..6] == "label_"
  }

  lemma LabelKeyParts(key: string, uid: string)
    ensures key == "label_" + uid <==> IsLabelKey(key) && key[6..] == uid
  {
    if IsLabelKey(key) {
      assert key == key[..6] + key[6..];
    }
  }

  /**
   * The annotations a submitted form carries, given the pairs form.items()
   * yields: one per field name, with that name's first value. Every field
   * named "label_<uid>" gives `uid` its value, whitespace-trimmed. A list that
   * repeated a name would have its later pair overwrite the earlier one, as
   * the dict assignment does.
   */
  function FormAnnotations(items: seq<(string, string)>): map<string, string>
  {
    if items == [] then map[]
    else
      var m := FormAnnotations(items[..|items| - 1]);
      var (key, value) := items[|items| - 1];
      if IsLabelKey(key) then m[key[6..] := Strip(value)] else m
  }

  /** A series has an annotation exactly when a "label_<uid>" field was submitted. */
  lemma {:induction false} FormAnnotationsHas(items: seq<(string, string)>, uid: string)
    ensures uid in FormAnnotations(items) <==> exists i :: 0 <= i < |items| && items[i].0 == "label_" + uid
  {
    if items != [] {
      var n := |items| - 1;
      var init := items[..n];
      FormAnnotationsHas(init, uid);
      LabelKeyParts(items[n].0, uid);
      if exists i :: 0 <= i < |items| && items[i].0 == "label_" + uid {
        var i :| 0 <= i < |items| && items[i].0 == "label_" + uid;
        if i < n {
          assert init[i].0 == "label_" + uid;
        }
      }
      if exists i :: 0 <= i < |init| && init[i].0 == "label_" + uid {
        var i :| 0 <= i < |init| && init[i].0 == "label_" + uid;
        assert items[i] == init[i];
      }
    }
  }

  /** The annotation is the trimmed value of the last "label_<uid>" field. */
  lemma {:induction false} FormAnnotationsValue(items: seq<(string, string)>, uid: string)
    requires uid in FormAnnotations(items)
    ensures exists i :: (0 <= i < |items| && items[i].0 == "label_" + uid
      && FormAnnotations(items)[uid] == Strip(items[i].1)
      && forall j :: i < j < |items| ==> items[j].0 != "label_" + uid)
  {
    var n := |items| - 1;
    var init := items[..n];
    LabelKeyParts(items[n].0, uid);
    if items[n].0 == "label_" + uid {
      assert FormAnnotations(items)[uid] == Strip(items[n].1);
    } else {
      assert uid in FormAnnotations(init);
      FormAnnotationsValue(init, uid);
      var i :| 0 <= i < |init| && init[i].0 == "label_" + uid
        && FormAnnotations(init)[uid] == Strip(init[i].1)
        && forall j :: i < j < |init| ==> init[j].0 != "label_" + uid;
      assert items[i] == init[i];
      assert FormAnnotations(items)[uid] == FormAnnotations(init)[uid];
      assert forall j :: i < j < |items| ==> items[j].0 != "label_" + uid by {
        forall j | i < j < |items| ensures items[j].0 != "label_" + uid {
          if j < n {
            assert items[j] == init[j];
          }
        }
      }
    }
  }

  // ---------------------------------------------------------------------------
  // Updating the manifest rows
  // ---------------------------------------------------------------------------

  /** `row.get("Series Instance UID") or row.get("0020000E", "")`. */
  function RowUid(row: Row): string
  {
    if Cell(row, "Series Instance UID") != "" then Cell(row, "Series Instance UID") else Cell(row, "0020000E")
  }

  /** The row's series has a non-blank submitted annotation that differs from its current one. */
  predicate Changes(row: Row, annotations: map<string, string>)
  {
    var uid := RowUid(row);
    uid in annotations && annotations[uid] != ""
    && ("Annotation" !in row || row["Annotation"] != annotations[uid])
  }

  function UpdatedRow(row: Row, annotations: map<string, string>): Row
  {
    if Changes(row, annotations) then row["Annotation" := annotations[RowUid(row)]] else row
  }

  function UpdatedRows(rows: seq<Row>, annotations: map<string, string>): (r: seq<Row>)
    ensures |r| == |rows|
  {
    seq(|rows|, i requires 0 <= i < |rows| => UpdatedRow(rows[i], annotations))
  }

  /** The number of rows the submission changes. */
  function ChangedCount(rows: seq<Row>, annotations: map<string, string>): nat
  {
    if rows == [] then 0
    else ChangedCount(rows[..|rows| - 1], annotations) + (if Changes(rows[|rows| - 1], annotations) then 1 else 0)
  }

  /** The annotations written, one per changed row, in row order. */
  function NewLabels(rows: seq<Row>, annotations: map<string, string>): seq<string>
  {
    if rows == [] then []
    else
      var row := rows[|rows| - 1];
      NewLabels(rows[..|rows| - 1], annotations) + (if Changes(row, annotations) then [annotations[RowUid(row)]] else [])
  }

  /** One more row: its change, if any, is counted and its annotation appended to the labels written. */
  lemma PrefixStep(rows: seq<Row>, i: nat, annotations: map<string, string>)
    requires i < |rows|
    ensures var step := Changes(rows[i], annotations);
      ChangedCount(rows[..i + 1], annotations) == ChangedCount(rows[..i], annotations) + (if step then 1 else 0)
      && NewLabels(rows[..i + 1], annotations)
         == NewLabels(rows[..i], annotations) + (if step then [annotations[RowUid(rows[i])]] else [])
  {
    assert rows[..i + 1][..i] == rows[..i];
  }

  /** One more row: a changed row's annotation goes through append_label; the file is otherwise unchanged. */
  lemma AppendNewLabel(text: string, rows: seq<Row>, i: nat, annotations: map<string, string>)
    requires i < |rows|
    ensures var before := AppendAll(text, NewLabels(rows[..i], annotations));
      AppendAll(text, NewLabels(rows[..i + 1], annotations))
      == if Changes(rows[i], annotations) then AppendLabelText(before, annotations[RowUid(rows[i])]) else before
  {
    PrefixStep(rows, i, annotations);
    var labels := NewLabels(rows[..i], annotations);
    if Changes(rows[i], annotations) {
      var more := labels + [annotations[RowUid(rows[i])]];
      assert more[..|labels|] == labels;
    } else {
      assert labels + [] == labels;
    }
  }

  /** One more row of the loop: the rows so far updated, the rest as read, with row i updated in place. */
  lemma UpdateRowStep(original: seq<Row>, i: nat, annotations: map<string, string>, rows: seq<Row>)
    requires i < |original| && rows == UpdatedRows(original[..i], annotations) + original[i..]
    ensures |rows| == |original| && rows[i] == original[i]
    ensures rows[i := UpdatedRow(original[i], annotations)] == UpdatedRows(original[..i + 1], annotations) + original[i + 1..]
    ensures !Changes(original[i], annotations) ==> rows == UpdatedRows(original[..i + 1], annotations) + original[i + 1..]
  {
    var next := UpdatedRows(original[..i + 1], annotations) + original[i + 1..];
    assert rows[i] == original[i..][0];
    forall k | 0 <= k < |rows| ensures rows[i := UpdatedRow(original[i], annotations)][k] == next[k] {
      if k < i {
        assert rows[k] == UpdatedRows(original[..i], annotations)[k];
      } else if k > i {
        assert rows[k] == original[i..][k - i];
      }
    }
  }

  /** The number of positions at which two row lists differ. */
  function DiffCount(a: seq<Row>, b: seq<Row>): nat
    requires |a| == |b|
  {
    if a == [] then 0
    else DiffCount(a[..|a| - 1], b[..|b| - 1]) + (if a[|a| - 1] != b[|b| - 1] then 1 else 0)
  }

  /**
   * A row is rewritten exactly when it changes, and then only its Annotation
   * cell is set, to its series' submitted annotation.
   */
  lemma UpdatedRowChanges(row: Row, annotations: map<string, string>)
    ensures UpdatedRow(row, annotations) != row <==> Changes(row, annotations)
    ensures Changes(row, annotations) ==> Cell(UpdatedRow(row, annotations), "Annotation") == annotations[RowUid(row)]
    ensures forall c :: c != "Annotation" ==>
      (c in UpdatedRow(row, annotations) <==> c in row) && Cell(UpdatedRow(row, annotations), c) == Cell(row, c)
  {
    if Changes(row, annotations) {
      assert UpdatedRow(row, annotations)["Annotation"] == annotations[RowUid(row)];
      if "Annotation" in row {
        assert UpdatedRow(row, annotations)["Annotation"] != row["Annotation"];
      }
    }
  }

  /** The change count is the number of rows that differ after the update. */
  lemma {:induction false} ChangedCountIsDiff(rows: seq<Row>, annotations: map<string, string>)
    ensures ChangedCount(rows, annotations) == DiffCount(rows, UpdatedRows(rows, annotations))
  {
    if rows != [] {
      var n := |rows| - 1;
      var updated := UpdatedRows(rows, annotations);
      assert updated[..n] == UpdatedRows(rows[..n], annotations);
      ChangedCountIsDiff(rows[..n], annotations);
      UpdatedRowChanges(rows[n], annotations);
    }
  }

  /** The update does not change a row's series UID. */
  lemma UpdatedRowUid(row: Row, annotations: map<string, string>)
    ensures RowUid(UpdatedRow(row, annotations)) == RowUid(row)
  {
    UpdatedRowChanges(row, annotations);
  }

  /** Submitting the same annotations again changes nothing. */
  lemma ResubmitChangesNothing(rows: seq<Row>, annotations: map<string, string>)
    ensures UpdatedRows(UpdatedRows(rows, annotations), annotations) == UpdatedRows(rows, annotations)
    ensures ChangedCount(UpdatedRows(rows, annotations), annotations) == 0
  {
    var updated := UpdatedRows(rows, annotations);
    forall i | 0 <= i < |rows| ensures !Changes(updated[i], annotations) {
      UpdatedRowUid(rows[i], annotations);
    }
    assert UpdatedRows(updated, annotations) == updated;
    ChangedCountIsDiff(updated, annotations);
    NoDiffIsZero(updated);
  }

  lemma {:induction false} NoDiffIsZero(rows: seq<Row>)
    ensures DiffCount(rows, rows) == 0
  {
    if rows != [] {
      NoDiffIsZero(rows[..|rows| - 1]);
    }
  }

  // ---------------------------------------------------------------------------
  // save_manifest
  // ---------------------------------------------------------------------------

  /** Every row's columns are among the first row's, the header the writer uses. */
  predicate FitsHeader(rows: seq<Row>)
    requires rows != []
  {
    forall i :: 0 <= i < |rows| ==> rows[i].Keys <= rows[0].Keys
  }

  /** A row as read back from a file with header `header`: absent cells are empty. */
  function Complete(row: Row, header: set<string>): Row
  {
    map c | c in header :: Cell(row, c)
  }

  /** The rows read back after writing `rows` under the first row's header. */
  function Saved(rows: seq<Row>): (r: seq<Row>)
    requires rows != []
    ensures |r| == |rows|
  {
    seq(|rows|, i requires 0 <= i < |rows| => Complete(rows[i], rows[0].Keys))
  }

  predicate SameColumns(rows: seq<Row>)
  {
    forall i :: 0 <= i < |rows| ==> rows[i].Keys == rows[0].Keys
  }

  /** Rows that share their columns are written without error and read back unchanged. */
  lemma SavedReadsBack(rows: seq<Row>)
    requires rows != [] && SameColumns(rows)
    ensures FitsHeader(rows) && Saved(rows) == rows
  {
    forall i | 0 <= i < |rows| ensures Complete(rows[i], rows[0].Keys) == rows[i] {
      var c := Complete(rows[i], rows[0].Keys);
      assert c.Keys == rows[i].Keys;
      forall k | k in c ensures c[k] == rows[i][k] {
      }
    }
  }

  /**
   * On a manifest whose rows share their columns, Annotation among them (as
   * the header writer produces), the updated rows are saved as they are.
   */
  lemma UpdateKeepsColumns(rows: seq<Row>, annotations: map<string, string>)
    requires rows != [] && SameColumns(rows) && "Annotation" in rows[0]
    ensures SameColumns(UpdatedRows(rows, annotations))
    ensures FitsHeader(UpdatedRows(rows, annotations))
    ensures Saved(UpdatedRows(rows, annotations)) == UpdatedRows(rows, annotations)
  {
    var updated := UpdatedRows(rows, annotations);
    forall i | 0 <= i < |rows| ensures updated[i].Keys == rows[0].Keys {
      assert "Annotation" in rows[i];
      UpdatedRowChanges(rows[i], annotations);
    }
    SavedReadsBack(updated);
  }

  /**
   * Without an Annotation column, annotating a row other than the first adds
   * a column the header lacks, and the writer refuses the rows.
   */
  lemma NoAnnotationColumnRefused()
    ensures var rows := [map["Series Instance UID" := "1.1"], map["Series Instance UID" := "1.2"]];
      !FitsHeader(UpdatedRows(rows, map["1.2" := "T1"]))
  {
    var rows := [map["Series Instance UID" := "1.1"], map["Series Instance UID" := "1.2"]];
    var a := map["1.2" := "T1"];
    assert RowUid(rows[0]) == "1.1" && RowUid(rows[1]) == "1.2";
    assert UpdatedRows(rows, a)[0] == rows[0];
    assert "Annotation" in UpdatedRows(rows, a)[1];
  }

  // ---------------------------------------------------------------------------
  // Pagination
  // ---------------------------------------------------------------------------

  const PerPage: nat := 20

  function TotalPages(n: nat): nat
  {
    (n + PerPage - 1) / PerPage
  }

  /** The number of pages is the least that holds every row. */
  lemma TotalPagesCeil(n: nat)
    ensures TotalPages(n) * PerPage >= n
    ensures TotalPages(n) > 0 ==> (TotalPages(n) - 1) * PerPage < n
    ensures TotalPages(n) == 0 <==> n == 0
  {
  }

  /** The number of rows carrying a non-blank annotation. */
  function Done(rows: seq<Row>): (done: nat)
    ensures done <= |rows|
  {
    if rows == [] then 0
    else Done(rows[..|rows| - 1]) + (if Cell(rows[|rows| - 1], "Annotation") != "" then 1 else 0)
  }

  datatype PageView =
    | Redirect(target: int)
    | View(pageNum: int, totalPages: nat, batch: seq<Row>, labels: seq<string>, done: nat, remaining: int)

  function Max(a: int, b: int): int
  {
    if a < b then b else a
  }

  /**
   * The page handler: page `pageNum` of the manifest, or a redirect to page 1;
   * `labels` is the list load_labels read from the label file.
   */
  function Page(manifest: seq<Row>, labels: seq<string>, pageNum: int): PageView
  {
    var total := TotalPages(|manifest|);
    if pageNum < 1 || pageNum > Max(total, 1) then Redirect(1)
    else
      var start := (pageNum - 1) * PerPage;
      assert start <= |manifest| by {
        TotalPagesCeil(|manifest|);
      }
      var end := start + PerPage;
      var done := Done(manifest);
      View(pageNum, total, manifest[start..Min(end, |manifest|)], labels, done, |manifest| - done)
  }

  /** Only the pages 1 .. max(total, 1) are shown; any other number redirects to page 1. */
  lemma PageBounds(manifest: seq<Row>, labels: seq<string>, pageNum: int)
    ensures Page(manifest, labels, pageNum).Redirect? <==> pageNum < 1 || pageNum > Max(TotalPages(|manifest|), 1)
    ensures Page(manifest, labels, pageNum).Redirect? ==> Page(manifest, labels, pageNum).target == 1
  {
  }

  /**
   * Every row is shown on exactly one page: row k is at position k % 20 of
   * page k / 20 + 1, every page holds at most 20 rows, and all but the last hold 20.
   */
  lemma PageHoldsRow(manifest: seq<Row>, labels: seq<string>, k: nat)
    requires k < |manifest|
    ensures var v := Page(manifest, labels, k / PerPage + 1);
      v.View? && k % PerPage < |v.batch| && v.batch[k % PerPage] == manifest[k]
  {
    var n := |manifest|;
    var p, r := k / PerPage, k % PerPage;
    assert k == p * 20 + r && 0 <= r < 20;
    TotalPagesCeil(n);
    assert p < TotalPages(n) by {
      assert p * 20 <= k < n <= TotalPages(n) * 20;
    }
    PageBatch(manifest, labels, p + 1);
    assert (p + 1 - 1) * PerPage == p * 20;
  }

  /** A shown page holds the rows from (pageNum - 1) * 20, up to 20 of them. */
  lemma PageBatch(manifest: seq<Row>, labels: seq<string>, pageNum: int)
    requires 1 <= pageNum <= Max(TotalPages(|manifest|), 1)
    ensures (pageNum - 1) * PerPage <= |manifest|
    ensures Page(manifest, labels, pageNum).View?
    ensures Page(manifest, labels, pageNum).batch
         == manifest[(pageNum - 1) * PerPage..Min((pageNum - 1) * PerPage + PerPage, |manifest|)]
  {
    TotalPagesCeil(|manifest|);
  }

  lemma PageSize(manifest: seq<Row>, labels: seq<string>, pageNum: int)
    requires Page(manifest, labels, pageNum).View?
    ensures |Page(manifest, labels, pageNum).batch| <= PerPage
    ensures pageNum < TotalPages(|manifest|) ==> |Page(manifest, labels, pageNum).batch| == PerPage
    ensures |manifest| > 0 ==> |Page(manifest, labels, pageNum).batch| > 0
  {
    TotalPagesCeil(|manifest|);
  }

  /** The progress counters add up to the number of series. */
  lemma DoneRemaining(manifest: seq<Row>, labels: seq<string>, pageNum: int)
    requires Page(manifest, labels, pageNum).View?
    ensures var v := Page(manifest, labels, pageNum);
      v.done + v.remaining == |manifest| && 0 <= v.remaining
  {
  }

  /** The page shown after saving page `pageNum`: the next one, wrapping to 1 after the last. */
  function NextPage(pageNum: int, n: nat): int
  {
    if pageNum + 1 > (n + 19) / 20 then 1 else pageNum + 1
  }

  /** After a valid page is saved, the next page is one the page handler shows, not a redirect. */
  lemma NextPageShown(manifest: seq<Row>, labels: seq<string>, pageNum: int)
    requires pageNum >= 0
    ensures Page(manifest, labels, NextPage(pageNum, |manifest|)).View?
    ensures pageNum + 1 <= TotalPages(|manifest|) ==> NextPage(pageNum, |manifest|) == pageNum + 1
  {
  }

  // ---------------------------------------------------------------------------
  // The store: the manifest file and the label file
  // ---------------------------------------------------------------------------

  class LabelStore {
    /** The manifest as load_manifest reads it. */
    var manifest: seq<Row>
    /** The text of the label file. */
    var labelsText: string

    constructor(manifest: seq<Row>, labelsText: string)
      ensures this.manifest == manifest && this.labelsText == labelsText
    {
      this.manifest := manifest;
      this.labelsText := labelsText;
    }

    /** load_labels. */
    method LoadLabels() returns (labels: seq<string>)
      ensures labels == Labels(labelsText)
    {
      var lines := SplitLines(labelsText);
      var seen: set<string> := {};
      labels := [];
      var i := 0;
      while i < |lines|
        invariant 0 <= i <= |lines|
        invariant labels == LabelsOf(lines[..i])
        invariant forall x :: x in seen <==> x in labels
      {
        var l := Strip(lines[i]);
        if l != "" && l !in seen {
          labels := labels + [l];
          seen := seen + {l};
        }
        assert lines[..i + 1][..i] == lines[..i];
        i := i + 1;
      }
      assert lines[..|lines|] == lines;
    }

    /** append_label, writing a line break first when the file's last line is unterminated. */
    method AppendLabel(newLabel: string)
      modifies this
      ensures labelsText == AppendLabelText(old(labelsText), newLabel)
      ensures manifest == old(manifest)
    {
      var l := Strip(newLabel);
      if l == "" {
        return;
      }
      var existing := LoadLabels();
      if l !in existing {
        if !EndsLine(labelsText) {
          labelsText := labelsText + "\n";
        }
        labelsText := labelsText + l + "\n";
      }
    }

    /**
     * save_manifest: nothing is written for an empty row list; otherwise the
     * rows are written under the first row's columns, and a row with a column
     * outside them makes the writer fail before the file is replaced.
     */
    method SaveManifest(rows: seq<Row>) returns (err: Option<Error>)
      modifies this
      ensures rows == [] ==> err == None && manifest == old(manifest)
      ensures rows != [] && FitsHeader(rows) ==> err == None && manifest == Saved(rows)
      ensures rows != [] && !FitsHeader(rows) ==> err == Some(FieldNotInHeader) && manifest == old(manifest)
      ensures labelsText == old(labelsText)
    {
      if rows == [] {
        return None;
      }
      if !FitsHeader(rows) {
        return Some(FieldNotInHeader);
      }
      manifest := Saved(rows);
      return None;
    }

    /** The loop of save_page that collects the submitted annotations. */
    static method CollectAnnotations(items: seq<(string, string)>) returns (annotations: map<string, string>)
      ensures annotations == FormAnnotations(items)
    {
      annotations := map[];
      var i := 0;
      while i < |items|
        invariant 0 <= i <= |items|
        invariant annotations == FormAnnotations(items[..i])
      {
        var (key, value) := items[i];
        if IsLabelKey(key) {
          annotations := annotations[key[6..] := Strip(value)];
        }
        assert items[..i + 1][..i] == items[..i];
        i := i + 1;
      }
      assert items[..|items|] == items;
    }

    /**
     * The loop of save_page over the manifest rows: each row whose series has a
     * non-blank annotation differing from its current one gets that annotation,
     * is counted, and the annotation goes through append_label.
     */
    method ApplyAnnotations(annotations: map<string, string>) returns (rows: seq<Row>, changed: nat)
      modifies this
      ensures rows == UpdatedRows(old(manifest), annotations)
      ensures changed == ChangedCount(old(manifest), annotations)
      ensures labelsText == AppendAll(old(labelsText), NewLabels(old(manifest), annotations))
      ensures manifest == old(manifest)
    {
      var original := manifest;
      ghost var text0 := labelsText;
      rows := manifest;
      changed := 0;
      var i := 0;
      while i < |rows|
        invariant 0 <= i <= |rows| == |original|
        invariant manifest == original
        invariant rows == UpdatedRows(original[..i], annotations) + original[i..]
        invariant changed == ChangedCount(original[..i], annotations)
        invariant labelsText == AppendAll(text0, NewLabels(original[..i], annotations))
      {
        PrefixStep(original, i, annotations);
        AppendNewLabel(text0, original, i, annotations);
        UpdateRowStep(original, i, annotations, rows);
        var row := rows[i];
        var uid := RowUid(row);
        if uid in annotations && annotations[uid] != "" {
          if "Annotation" !in row || row["Annotation"] != annotations[uid] {
            rows := rows[i := row["Annotation" := annotations[uid]]];
            changed := changed + 1;
            AppendLabel(annotations[uid]);
          }
        }
        i := i + 1;
      }
      assert original[..i] == original && original[i..] == [];
    }

    /**
     * save_page: apply the submitted annotations to the manifest rows, save the
     * manifest when a row changed, and answer with the page to show next.
     */
    method SavePage(pageNum: int, items: seq<(string, string)>) returns (r: Result<int>)
      modifies this
      ensures var a := FormAnnotations(items);
        a == map[] ==> r == Ok(pageNum) && manifest == old(manifest) && labelsText == old(labelsText)
      ensures var a := FormAnnotations(items);
        a != map[] ==> labelsText == AppendAll(old(labelsText), NewLabels(old(manifest), a))
      ensures var a := FormAnnotations(items);
        a != map[] && ChangedCount(old(manifest), a) == 0 ==>
          manifest == old(manifest) && r == Ok(NextPage(pageNum, |old(manifest)|))
      ensures var a := FormAnnotations(items); var rows := UpdatedRows(old(manifest), a);
        a != map[] && ChangedCount(old(manifest), a) > 0 && FitsHeader(rows) ==>
          manifest == Saved(rows) && r == Ok(NextPage(pageNum, |old(manifest)|))
      ensures var a := FormAnnotations(items); var rows := UpdatedRows(old(manifest), a);
        a != map[] && ChangedCount(old(manifest), a) > 0 && !FitsHeader(rows) ==>
          manifest == old(manifest) && r == Err(FieldNotInHeader)
    {
      var annotations := CollectAnnotations(items);
      if annotations == map[] {
        return Ok(pageNum);
      }
      var rows, changed := ApplyAnnotations(annotations);
      if changed > 0 {
        var err := SaveManifest(rows);
        if err.Some? {
          return Err(err.value);
        }
      }
      return Ok(NextPage(pageNum, |rows|));
    }
  }
}
