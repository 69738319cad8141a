# dicom-labeler, modelled in Dafny

dicom-labeler is a small pipeline for labelling MRI series. It works in four steps:

1. `extract_dicom_headers.py` scans a DICOM tree. It writes one manifest row (`series_info.tsv`) per (study, series) key and keeps earlier annotations.
2. `generate_previews.py` picks up to eight evenly spaced slices per series to preview.
3. A small web server (`label_server/app.py`) shows the manifest 20 series per page. It stores the labels an operator types into the manifest and into a label list.
4. `apply_labels.py` writes each series' label into the ProtocolName of every slice, or moves the series to `WAITING_DELETION` when it is labelled `DELETE`. `move_labelled_subset.py` then copies the files whose ProtocolName matches search terms.

This project models the decision and bookkeeping logic of these scripts and proves properties about it. DICOM decoding, the filesystem and the web layer are abstracted.

## Layout

| file | module | models |
|---|---|---|
| text.dfy | Text | Python's `str.strip`, `split`, `splitlines`, ASCII `lower`/`upper`, `in` on strings, `int()`, `int(x, 16)` and `float()` |
| sorting.dfy | Sorting | `sorted()` on strings and the stable `sort(key=...)` on integer keys |
| dicom.dfy | Dicom | a dataset as a map from tag to value text, read failures by kind, a disk as a map from relative path to file, rows as maps from column to cell |
| dicom_utils.dfy | DicomUtils | `utils/dicom_utils.py` |
| extract_headers.dfy | ExtractHeaders | `extract_dicom_headers.py` |
| generate_previews.dfy | GeneratePreviews | `generate_previews.py` |
| label_server.dfy | LabelServer | `label_server/app.py` |
| apply_labels.dfy | ApplyLabels | `apply_labels.py` |
| move_subset.dfy | MoveSubset | `move_labelled_subset.py` |

The scripts that change state in place have a class. `ApplyLabels.SliceTree` holds the tree that `handle_file` rewrites and moves files in. `LabelServer.LabelStore` holds the manifest and the label file the server rewrites. `MoveSubset.OutputTree` holds the output root that `copy_if_match` copies into. Loops of the source are methods with invariants, each proved equal to a specification function. The properties are lemmas about those functions.

## Model

| member | source | states |
|---|---|---|
| ApplyLabels.ClassifyAcqDim | apply_labels.py:63-83 | 4D exactly when NumberOfTemporalPositions reads as an integer above one; 3D exactly when that fails and slice thickness or spacing reads as a float below 2.0; 2D in every other case |
| ApplyLabels.SkippedCountsNotTemporal | apply_labels.py:66-68 | the values the guard skips ("" and "0") would fail the above-one test anyway, so skipping them changes no result |
| ApplyLabels.TemporalWins | apply_labels.py:65-69 | a temporal count above one gives 4D whatever the thickness and spacing hold |
| ApplyLabels.UnreadableThicknessIgnored | apply_labels.py:73-81 | a thickness that float() rejects counts as absent and never raises |
| Text.ParseIntThenFloat | apply_labels.py:66-81 | every text that int() accepts, float() accepts too, with the same value in the model's exact arithmetic |
| ApplyLabels.BuildProtocolName | apply_labels.py:86-89 | the result starts with the whole prefix `seq_{annot}_acq_{dim}_plane_{plane}___`, the rest is a prefix of the original name; when the prefix fits in 64 characters the length is prefix + min(original, 64 - prefix) and at most 64, otherwise the result is the prefix alone |
| ApplyLabels.ReapplyPrependsAgain | apply_labels.py:86-89 | building the name again from its own output prepends a second prefix, so re-application is not idempotent |
| ApplyLabels.ActionsNeedParsed | apply_labels.py:105-110 | only a file that was read is ever moved or rewritten |
| ApplyLabels.DecideOutcomes | apply_labels.py:105-158 | error exactly when the read fails; skipped exactly when the series UID is not in the map; for a mapped series, moved exactly when the annotation upper-cases to DELETE, unchanged exactly when it does not and the new name equals the current ProtocolName, and edited (not dry) writes exactly the new name, which differs from the current one; a dry run never acts; error, skipped and unchanged leave the file; moved (not dry) moves it to the trash |
| ApplyLabels.DecideSkipped | apply_labels.py:105-114 | skipped exactly when a read file has no SeriesInstanceUID or one that is not a key of uid_map |
| ApplyLabels.DeleteAnyCase | apply_labels.py:116-127 | an annotation spelling "delete" with each letter in either case moves the file to the trash, or is only reported in a dry run |
| ApplyLabels.DeleteSpellings | apply_labels.py:117 | `.upper() == "DELETE"` holds exactly for the six-letter spellings of "delete" with each letter in either case |
| ApplyLabels.RewriteKeepsClass | apply_labels.py:129-144 | writing ProtocolName leaves the acquisition class of the file unchanged |
| ApplyLabels.SecondRunEditsAgain | apply_labels.py:129-137 | a file edited once gets a new, different name on a second run, so it is edited again rather than reported unchanged |
| ApplyLabels.UidMapLastRowWins | apply_labels.py:194-200 | each manifest UID maps to the stripped annotation and plane of the last row that names it |
| ApplyLabels.UidMapKeys | apply_labels.py:194-200 | the keys of uid_map are exactly the UIDs named by the rows |
| ApplyLabels.LoadUidMap | apply_labels.py:194-200 | the map is built exactly when every row has a Series Instance UID cell (a KeyError otherwise), and it equals the last-row-wins map |
| ApplyLabels.CandidateNames | apply_labels.py:205-208 | `stem.ext` is processed exactly when `.ext` lower-cased is `.dcm` or `.ima`; a name without a dot is always processed |
| ApplyLabels.TallyCounts | apply_labels.py:214-231 | each counter is the number of results with its status key, so the counters sum to the number of files |
| ApplyLabels.TallyOrderFree | apply_labels.py:217-231 | the counters do not depend on the order in which the workers finish |
| ApplyLabels.SliceTree.HandleFile | apply_labels.py:96-158 | the status returned is the decision's, the file changes only by the decided move or rewrite, and only a parsed file is touched |
| ApplyLabels.SliceTree.Run | apply_labels.py:214-231 | the counters tally the statuses, which number one per file; the tree ends as handling the files one after another leaves it; for distinct files outside the trash each status is the one decided on the tree as it was before the run |
| ApplyLabels.SequentialFileAfter | apply_labels.py:96-158 | after a run over distinct files outside the trash, each handled file is gone and sits at its trash path when its decision was a move, holds its header with the new ProtocolName when it was a rewrite, and holds what it held before otherwise; every other path is as before |
| ApplyLabels.SequentialOrderFree | apply_labels.py:217-231 | for distinct files outside the trash, the tree after the run is the same for every order in which the workers take the files |
| DicomUtils.HexToTag | utils/dicom_utils.py:26-28 | a tag is parsed exactly when the text has more than four characters, all hex digits; the group is below 0x10000 |
| DicomUtils.TagTextRoundTrip | utils/dicom_utils.py:26-28 | writing a tag as eight hex digits and parsing it gives the tag back |
| DicomUtils.HexTextRoundTrip | utils/dicom_utils.py:26-28 | parsing eight hex digits and writing the tag back gives the text again, upper-cased |
| Text.HexValueOfFormat4 | utils/dicom_utils.py:26-28 | a number below 0x10000 written as four hex digits parses back to itself |
| Text.FormatOfHexValue4 | utils/dicom_utils.py:26-28 | four hex digits parse to a number below 0x10000 that is written back as the same digits, upper-cased |
| DicomUtils.ProjectFields | utils/dicom_utils.py:51-55 | every requested field is a key, holding the data element's text (its tag, then its value) or "" when absent; an unparsable field name is the error |
| DicomUtils.ReadHeader | utils/dicom_utils.py:36-55 | an invalid file raises when strict and gives {} otherwise; other read failures propagate; a parsed file gives the projection of data-element texts |
| Dicom.ElementCell | utils/dicom_utils.py:54 | str(ds.get(tag, "")) with a tag key is "" exactly when the element is absent; otherwise it starts with the tag's "(" and ends with the value |
| Dicom.ElementCellNotValue | utils/dicom_utils.py:54 | the element's text differs from its value whenever the value does not start with "(", as no UID does |
| DicomUtils.SafeInstanceNumber | utils/dicom_utils.py:63-68 | int(InstanceNumber) when present and an integer, else the default; the copy at generate_previews.py:39-44 is the same helper with the default passed in |
| DicomUtils.InstanceNumberRoundTrip | utils/dicom_utils.py:63-68 | an InstanceNumber written as str(n) reads back as n, whatever the default |
| Text.ParseFormatInt | generate_previews.py:42 | int(str(n)) is n for every integer n, negative ones included |
| DicomUtils.SortSlicesByInstance | utils/dicom_utils.py:71-79 | a permutation of the input, nondecreasing by instance number (-1 for unreadable files), with equal keys in input order |
| Sorting.SortByKeyStable | utils/dicom_utils.py:79 | Python's sort is stable: elements with equal keys keep their input order |
| DicomUtils.RoundHalfEven | utils/dicom_utils.py:90 | Python's round() of a quotient: the nearest integer, ties to the even one |
| DicomUtils.Range | utils/dicom_utils.py:89 | list(range(n)): the indices 0 .. n-1, empty for n below one |
| DicomUtils.RoundApart | utils/dicom_utils.py:90 | two quotients more than one apart round to strictly increasing integers |
| DicomUtils.ChooseSliceIndices | utils/dicom_utils.py:82-90 | range(n) when n <= n_pick; ZeroDivisionError when n_pick is 1 and n is larger; otherwise n_pick indices, pick i being the integer nearest to i * (n - 1) / (n_pick - 1), the even one on a tie, so the picks are evenly spaced |
| DicomUtils.ChooseSliceIndicesSpread | utils/dicom_utils.py:90 | with more slices than picks (at least two), the picks lie in [0, n), strictly increase, and start at 0 and end at n - 1 |
| DicomUtils.SeriesFilesPlacement | utils/dicom_utils.py:98-117 | a file is in the list of series u exactly when it is read and its SeriesInstanceUID is u, and every list is sorted by instance key |
| DicomUtils.GroupBySeries | utils/dicom_utils.py:102-112 | the first loop puts each readable file of the walk in its series' list, in walk order |
| DicomUtils.SortEachSeries | utils/dicom_utils.py:114-116 | the second loop replaces each list by its sorted copy and keeps the keys |
| DicomUtils.SortedGroups | utils/dicom_utils.py:98-117 | grouping then sorting gives exactly the specified series map |
| DicomUtils.GatherSeriesFiles | utils/dicom_utils.py:98-117 | the result is the series map of the walk |
| ExtractHeaders.TheMapping | extract_dicom_headers.py:39-77 | the mapping's tags are distinct 8-digit hex strings and its column names are distinct; Annotation is neither; the UID tags map to the UID column names; there is no Plane Orientation column |
| ExtractHeaders.HexStringToTag | extract_dicom_headers.py:85-88 | a tag is parsed exactly when the text has more than four characters, all hex digits |
| ExtractHeaders.HexStringRoundTrip | extract_dicom_headers.py:85-88 | eight hex digits parsed and written back as two four-digit groups give the text again, up to case |
| ExtractHeaders.TagRoundTrip | extract_dicom_headers.py:85-88 | formatting a tag as two four-digit groups and parsing it gives the tag back |
| Sorting.SortStrings | extract_dicom_headers.py:103 | sorted() returns an ascending permutation of its input |
| Sorting.LexLeTotal | extract_dicom_headers.py:103 | any two strings are comparable under Python's code-point ordering |
| Sorting.LexLeTransitive | extract_dicom_headers.py:103 | the string ordering is transitive |
| Sorting.LexLeAntisymmetric | extract_dicom_headers.py:103 | two strings each no greater than the other are equal |
| ExtractHeaders.PickedSmallest | extract_dicom_headers.py:101-105 | per directory, all files with read_all and min(5, n) otherwise, in sorted order, each no greater than any file left out |
| ExtractHeaders.SelectionMember | extract_dicom_headers.py:98-105 | a file is yielded exactly when it is a picked file of some directory of the walk |
| ExtractHeaders.FindDicomFiles | extract_dicom_headers.py:91-105 | the loop yields each directory's picked files, directory by directory |
| ExtractHeaders.Projection | extract_dicom_headers.py:119-123 | every requested field is a key of the header read; its cell is "" exactly when the element is absent, and otherwise the element's text, starting with "(" |
| ExtractHeaders.ExtractHeaderFields | extract_dicom_headers.py:108-123 | an invalid or unreadable file gives {}; any other read failure propagates; a parsed file gives its projection of data-element texts, which is built exactly when every field name parses |
| ExtractHeaders.ScanFiles | extract_dicom_headers.py:142-162 | the loop fails exactly when some file raises an uncaught read failure; otherwise it gives the specified scan |
| ExtractHeaders.BuildSeriesManifest | extract_dicom_headers.py:131-162 | the scan of the files that find_dicom_files yields |
| ExtractHeaders.ScanWellFormed | extract_dicom_headers.py:139-160 | each kept header is listed once, in first-seen order, under its own non-empty UIDs |
| ExtractHeaders.ScanKeys | extract_dicom_headers.py:144-160 | the keys kept are exactly those of files with a header and both UIDs non-empty |
| ExtractHeaders.ScanFirstHeader | extract_dicom_headers.py:157-160 | for each key the first accepted header is kept and later ones do not replace it |
| ExtractHeaders.ScanFileLists | extract_dicom_headers.py:151-155 | a file is in the list of series u exactly when it is an accepted file of that series |
| ExtractHeaders.TransferKeys | extract_dicom_headers.py:203 | the keys of a dict comprehension over the columns are exactly the column names |
| ExtractHeaders.TransferAt | extract_dicom_headers.py:185-186 | with distinct names, the cell under each name is the source's cell under the matching key, or "" |
| ExtractHeaders.MergeWithExisting | extract_dicom_headers.py:165-191 | without an existing manifest the scan is returned unchanged; otherwise the rows are merged one by one in file order |
| ExtractHeaders.MergeKeys | extract_dicom_headers.py:176-186 | the merged keys are the scanned keys plus the key of every existing row |
| ExtractHeaders.MergeOrder | extract_dicom_headers.py:176-186 | the scanned keys come first, in order, and every key is listed once |
| ExtractHeaders.MergeRowKeeps | extract_dicom_headers.py:183-189 | one row changes at most the Annotation of an entry, and only of its own key |
| ExtractHeaders.MergeKeepsScanned | extract_dicom_headers.py:176-189 | fields of a scanned key other than Annotation stay as scanned; a scanned key no row names is untouched |
| ExtractHeaders.MergeRebuildsOldRows | extract_dicom_headers.py:183-186 | a row whose series is no longer on disk is kept, rebuilt from its readable columns |
| ExtractHeaders.MergeAnnotation | extract_dicom_headers.py:187-189 | every existing row's Annotation lands on its key, overwriting, so the last row with a key wins |
| ExtractHeaders.WriteManifest | extract_dicom_headers.py:194-205 | one row per entry, in the manifest's key order |
| ExtractHeaders.WrittenRowShape | extract_dicom_headers.py:196-205 | a written row has exactly the header's columns, each holding its field of the entry or "", then the Annotation |
| ExtractHeaders.RebuiltWritten | extract_dicom_headers.py:185-186 | rebuilding a header from its written row gives back each of its fields |
| ExtractHeaders.WrittenRowKey | extract_dicom_headers.py:180-182 | a written row is read back under its entry's (study, series) key |
| ExtractHeaders.WrittenRowHasNoPlane | extract_dicom_headers.py:77 | the written manifest has no Plane Orientation column, so apply_labels reads an empty plane for every row |
| ExtractHeaders.AnnotationsSurviveRescan | extract_dicom_headers.py:165-205 | writing a well-formed, consistent manifest and merging it into any later scan keeps every series and its Annotation |
| ExtractHeaders.RescanWellFormed | extract_dicom_headers.py:165-205 | the manifest a run writes after merging is again well formed and consistent, so AnnotationsSurviveRescan holds from each run to the next, not only after the first scan |
| ExtractHeaders.MergeConsistent | extract_dicom_headers.py:176-189 | merging rows whose readable UID cells are filled keeps every entry under its own non-empty UIDs |
| ExtractHeaders.ScanSeriesIsElementText | extract_dicom_headers.py:120-122 | every scanned series UID is a data element's text, so it starts with "(" |
| ExtractHeaders.WrittenUidMapKeys | apply_labels.py:194-200 | the uid_map that apply_labels builds from a written manifest is keyed by exactly the manifest's series UIDs |
| ExtractHeaders.WrittenManifestSkipsAll | apply_labels.py:112-114 | as written, apply_labels skips every file of a freshly extracted manifest whose SeriesInstanceUID value does not start with "(" |
| ExtractHeaders.ValueManifestJoins | apply_labels.py:112-114 | with value texts in the manifest, every file the scan keeps finds its series in uid_map and is not skipped |
| GeneratePreviews.GatherSeriesFiles | generate_previews.py:68-92 | a read failure other than the caught ones propagates (the first in walk order); otherwise the series map of the walk, each list sorted by instance number |
| GeneratePreviews.FatalPrefix | generate_previews.py:76-82 | a fatal failure among the first k files is the first fatal failure of the whole walk |
| GeneratePreviews.GatheredListsNonEmpty | generate_previews.py:79 | every series found has at least one file, so the empty-list guard never skips one |
| GeneratePreviews.PreviewIndicesShape | generate_previews.py:95-102 | choose_slice_indices(n, 8) gives min(n, 8) strictly increasing indices in [0, n), first 0 and last n - 1; with more than eight slices pick i is the index nearest to i * (n - 1) / 7 |
| GeneratePreviews.IndexOf | generate_previews.py:159-161 | list.index: the first position of the name, or a ValueError when it is absent |
| Text.SplitJoin | generate_previews.py:157-163 | splitting a tab-joined line on tabs gives back its cells when no cell holds a tab |
| Text.JoinSplit | generate_previews.py:157-163 | joining the pieces of split() with the separator gives the line back |
| GeneratePreviews.UidColumnFallback | generate_previews.py:157-161 | the UID column is "Series Instance UID" when present, else "0020000E"; with neither the script fails |
| GeneratePreviews.RowUidsMember | generate_previews.py:162-165 | reading succeeds exactly when every data line has the UID column, and then the needed UIDs are exactly the non-empty cells of that column |
| GeneratePreviews.ReadUids | generate_previews.py:162-165 | the loop over the data lines gives the specified UID set, or the IndexError of the first short line |
| GeneratePreviews.NeededUids | generate_previews.py:153-167 | with no manifest every UID found is needed; otherwise the UIDs of the manifest's UID column |
| GeneratePreviews.SortedList | generate_previews.py:179 | sorted() of a UID set: ascending, without repeats, holding exactly the set's members |
| Sorting.SortedPermutationUnique | generate_previews.py:179 | sorted() has one possible result: two sorted permutations of one another are equal |
| GeneratePreviews.PlanPreviews | generate_previews.py:170-203 | missing is needed minus found; the jobs are the needed and found series in sorted order, without those whose first preview exists unless overwriting, each with its chosen slices and their sources |
| GeneratePreviews.PlanUnique | generate_previews.py:178-188 | the job list is determined by the series, the needed set, the existing previews and the overwrite flag |
| GeneratePreviews.JobSources | generate_previews.py:188-203 | a job's sources are min(n, 8) files of its series, starting with the first slice and ending with the last |
| GeneratePreviews.Run | generate_previews.py:141-203 | a fatal read failure or a manifest without a UID column or with a short line is an error; otherwise the plan for the needed series |
| GeneratePreviews.NoManifestPreviewsAll | generate_previews.py:166-186 | without a manifest every series found is previewed, except those already done when not overwriting |
| LabelServer.LabelsOfClean | label_server/app.py:76-86 | every label is stripped and non-empty, and no label is listed twice |
| LabelServer.LabelsOfMember | label_server/app.py:81-85 | a label is listed exactly when it is non-empty and some line strips to it |
| LabelServer.LabelsOfPrefix | label_server/app.py:78-85 | more lines only add labels at the end: labels are in first-occurrence order |
| Text.StripFacts | label_server/app.py:82 | strip() leaves no whitespace at either end, keeps only characters of its input, is empty exactly when the input is all whitespace, and leaves stripped text as it is |
| Text.StripIdempotent | label_server/app.py:82 | stripping twice gives what stripping once gives |
| Text.SplitLinesConcat | label_server/app.py:81 | splitlines() of text that is empty or ends in a line break, followed by text that does not start with one, is the lines of the first part then those of the second |
| LabelServer.LabelStore.LoadLabels | label_server/app.py:76-86 | the loop with its seen set gives the specified label list |
| LabelServer.AppendAsWrittenGluesLines | label_server/app.py:96-97 | as written, appending "T2" to a label file "T1" without a final newline leaves one label "T1T2" |
| LabelServer.AppendAgreesOnEndedFiles | label_server/app.py:96-97 | on a file that is empty or ends with a line break, the corrected append writes what the source writes |
| LabelServer.AppendLabelAdds | label_server/app.py:89-97 | appending a new non-blank label lists it last after the existing labels |
| LabelServer.AppendLabelIdempotent | label_server/app.py:91-97 | the corrected append (AppendLabelText, see Findings) is idempotent for a label without a line break: appending it again leaves the file as the first append left it |
| LabelServer.AppendAsWrittenAppendsAgain | label_server/app.py:91-97 | as written, append_label is not idempotent on a file whose last line is unterminated: "T2" appended twice to "T1" gives "T1T2\n" then "T2\n" |
| LabelServer.LabelStore.AppendLabel | label_server/app.py:89-97 | the label file becomes AppendLabelText of the old text, the corrected append (see Findings), which writes what the source writes on a file that is empty or ends in a line break; the manifest is untouched |
| LabelServer.LabelKeyParts | label_server/app.py:177-178 | a form key names series uid exactly when it starts with "label_" followed by uid |
| LabelServer.FormAnnotationsHas | label_server/app.py:174-179 | a series has a submitted annotation exactly when a "label_<uid>" field was submitted |
| LabelServer.FormAnnotationsValue | label_server/app.py:176-179 | the annotation is the stripped value of the last "label_<uid>" pair that form.items() yields; there is one pair per name, carrying its first value |
| LabelServer.LabelStore.CollectAnnotations | label_server/app.py:174-179 | the loop over the form gives the specified annotation map |
| LabelServer.UpdatedRowChanges | label_server/app.py:188-193 | a row changes exactly when its UID has a non-blank annotation that differs from its current one; then its Annotation is that value and no other column changes |
| LabelServer.UpdatedRowUid | label_server/app.py:189-192 | the update does not change a row's series UID |
| LabelServer.ChangedCountIsDiff | label_server/app.py:187-193 | changed is the number of rows that differ after the update |
| LabelServer.ResubmitChangesNothing | label_server/app.py:188-193 | submitting the same annotations again changes no row and counts zero |
| LabelServer.LabelStore.ApplyAnnotations | label_server/app.py:186-195 | the rows become the updated rows, changed is their change count, and each new annotation is appended to the label file in row order |
| LabelServer.SavedReadsBack | label_server/app.py:63-73 | rows that share their columns are written without error and read back unchanged |
| LabelServer.UpdateKeepsColumns | label_server/app.py:188-198 | on a manifest with an Annotation column, the updated rows keep their columns and are saved and read back as they are |
| LabelServer.NoAnnotationColumnRefused | label_server/app.py:67-72 | on a manifest without an Annotation column, an update that adds one to a later row is refused by the writer |
| LabelServer.LabelStore.SaveManifest | label_server/app.py:63-73 | an empty row list writes nothing; rows whose columns fit the first row's are saved; otherwise the writer's ValueError and nothing changes |
| LabelServer.TotalPagesCeil | label_server/app.py:141-142 | total_pages is the least number of 20-row pages that holds every row |
| LabelServer.PageBounds | label_server/app.py:144-146 | a page outside [1, max(total_pages, 1)] redirects to page 1, and only those do |
| LabelServer.PageHoldsRow | label_server/app.py:148-150 | row k is shown on page k / 20 + 1, at position k mod 20 |
| LabelServer.PageSize | label_server/app.py:148-150 | a page holds at most 20 rows, exactly 20 before the last page, and at least one when the manifest is not empty |
| LabelServer.DoneRemaining | label_server/app.py:155-156 | done plus remaining is the number of series, and remaining is not negative |
| LabelServer.NextPageShown | label_server/app.py:204-207 | the next page is page + 1 while that is a page, wrapping to 1 after the last, and it is always shown rather than redirected |
| LabelServer.LabelStore.SavePage | label_server/app.py:169-208 | no annotations: nothing changes and the same page follows; otherwise the new labels are appended, the manifest is saved only when a row changed and its columns fit, and the next page follows; a column the header lacks is an error |
| MoveSubset.TermsClean | move_labelled_subset.py:75-83 | every term is whitespace-trimmed and non-empty |
| MoveSubset.PlainTerms | move_labelled_subset.py:63-84 | a value without commas or backslashes is one term, stripped, or no term when blank |
| MoveSubset.TermsRoundTrip | move_labelled_subset.py:68-80 | splitting only on unescaped commas and dropping the escaping backslash: any list of clean terms, escaped and joined with commas, parses back to itself |
| MoveSubset.ParseTerms | move_labelled_subset.py:63-84 | the character loop with its escape flag gives the specified terms |
| MoveSubset.AllTermsClean | move_labelled_subset.py:144-146 | the terms of all -t values, concatenated in order, are all clean |
| MoveSubset.AnyTermIn | move_labelled_subset.py:97 | true exactly when some lower-cased term occurs in the lower-cased protocol name |
| MoveSubset.MatchNeedsProtocolAndTerms | move_labelled_subset.py:93-97 | no Protocol Name or no terms never matches; otherwise a match is some term occurring, ignoring case |
| MoveSubset.MatchIgnoresCase | move_labelled_subset.py:96-97 | upper-casing the protocol name or the terms does not change a match |
| MoveSubset.OutputAt | move_labelled_subset.py:100-115 | a path is in the output exactly when it was there or its file was read and matched; a copied file is the source file at the same relative path |
| MoveSubset.CopyCountOrderFree | move_labelled_subset.py:163-170 | the copied count does not depend on the order in which the files complete |
| MoveSubset.OutputTree.CopyIfMatch | move_labelled_subset.py:100-115 | invalid, missing or forbidden files are no match; other read failures propagate; a matching file is copied to the same relative path and nothing else changes |
| MoveSubset.OutputTree.Run | move_labelled_subset.py:144-170 | no terms is an error that copies nothing; otherwise every file is processed, then a propagated read failure is the error, else the result is the number copied |

## Left out

- The DICOM codec is abstracted. A dataset is a map from tag to the text of the element's value, and reading a file gives a dataset or a read-failure kind. Deferred reading and `save_as` are not modelled. A write sets ProtocolName only.
- Dicom.ElementCell: `str()` of a data element is its tag as "(gggg, eeee)", a space and the value. pydicom also prints the element's name and VR, quotes string values and abbreviates long ones; none of that is modelled. A tag number above 0xFFFF, which pydicom's `Tag()` refuses, keeps only its low sixteen bits.
- Dicom.Read: each file has one read outcome for every script. The extraction script, `read_header` and the preview script read with `force=True`, which makes pydicom parse some files that the other scripts reject as invalid. Their "invalid file" branches stand for whatever forced reading still rejects.
- ApplyLabels.ClassifyAcqDim: `int()` and `float()` follow their ASCII grammar (whitespace, sign, digits, decimal point, exponent, inf and nan words). Underscores in numbers and non-ASCII digits are not accepted.
- ApplyLabels.ClassifyAcqDim: a float is the exact value of its literal. Python rounds to binary64 and overflows to infinity, so a thickness such as "1.99999999999999999" is 2.0 (2D) in the script and below 2.0 (3D) here.
- Text.ParseIntThenFloat: holds in exact arithmetic only. Python's `float()` of an integer above 2^53 may round it.
- DicomUtils.HexToTag: accepts only a run of hex digits after the four-character split. Python's `int(x, 16)` also accepts surrounding whitespace, a sign, underscores and a `0x` prefix.
- ExtractHeaders.HexStringToTag: the same restriction as DicomUtils.HexToTag.
- DicomUtils.RoundHalfEven: rounds the exact rational quotient. Python divides in floating point first, which gives the same result while the numerator stays below 2^53.
- `str.lower()` and `str.upper()` are modelled on ASCII letters only.
- Directory walks (`os.walk`, `rglob`) are an input list of relative paths in walk order, and the disk is a map from relative path to file. Missing files are not found on the disk.
- A missing manifest or label file reads the same as an empty one, because the label server's state holds their contents.
- Temporary files in `handle_file` and `save_manifest` are not modelled. The atomic replace is one update of the modelled state.
- The failures of `shutil.move`, `save_as`, `shutil.copy2`, `mkdir` and file writes are not modelled. In the source they propagate out of the worker.
- The thread pools of `apply_labels.py` and `move_labelled_subset.py` are modelled as a sequential loop. TallyOrderFree and CopyCountOrderFree prove that the counts do not depend on completion order, and SequentialOrderFree proves the same of the tree `apply_labels.py` leaves.
- ApplyLabels.SliceTree.Run: states each file's status, and each file's fate, against the tree before the run only for distinct files outside `WAITING_DELETION`. For other candidate lists it states the tree as the result of handling the files in list order. A tree that already holds the trash directory is rescanned and its files are processed again, and then the order of the workers can matter.
- MoveSubset.OutputTree.Run: reports the read failure of the first failing path in walk order. The source re-raises whichever failing worker completes first, which depends on scheduling.
- The csv module is not modelled: rows are maps from column to cell. Quoting, short rows (whose missing cells read as None) and surplus cells are not modelled.
- The preview script reads its manifest line by line with `rstrip("\n")`. The model takes those lines as input, so universal-newline translation is outside it.
- LabelServer.AppendLabelAdds: requires the stripped label to hold no line break. A label with an embedded line break would be read back as several labels.
- LabelServer.AppendLabelIdempotent: requires the stripped label to hold no line break. Such a label never appears among the labels read back, so it is appended on every call, in the source as well as in the corrected append.
- Flask routing, templates, `flash` messages and the previews route are not modelled. A page is a value (`PageView`), and `save_page` returns the number of the page it redirects to.
- The submitted form is a list of (key, value) pairs, the first value per key as Werkzeug's `items()` yields them.
- Image rendering (`normalize_to_uint8`, `save_slice_webp`, `utils/image_utils.py`) is not modelled. A job records the chosen indices and source files. The sidecar JSON file and the creation of the output directory are not modelled either.
- The GUI (`dicom_labeler_gui.py`), argparse, logging, tqdm and printed summaries are not modelled.
- The scripts exit early when the root directory or the manifest is missing. These checks are not modelled: the inputs are given.

The code differs from its specification in several places, and the model follows the code:
- No plane-orientation classifier exists in the code. The plane is only a manifest column that `write_manifest` never writes, so it reads as empty and becomes `UNKNOWN` (WrittenRowHasNoPlane).
- Applying labels twice is not idempotent: the second run prefixes the name again (ReapplyPrependsAgain, SecondRunEditsAgain).
- The original name keeps min(its length, 64 - prefix) characters, not exactly 64 - prefix.
- The manifest has no example-path or plane column before Annotation.

## Findings

| source | as written | input that shows it | evidently intended | confidence | as-written member | corrected member |
|---|---|---|---|---|---|---|
| extract_dicom_headers.py:120-122 | `str(ds.get(tag, ""))` with a (group, element) tuple: `Dataset.get` returns the data element, so every manifest cell is the element's text, e.g. `(0020, 000E) Series Instance UID UI: 1.2.3`, and apply_labels keys uid_map by those cells | a file whose SeriesInstanceUID is `1.2.3`: its manifest row names `(0020, 000E) … 1.2.3`, apply_labels looks up `1.2.3` and reports the file skipped | each cell holds the element's value, so apply_labels finds the series of every file the scan kept | high; not executed | ExtractHeaders.WrittenManifestSkipsAll | ExtractHeaders.ValueManifestJoins |
| label_server/app.py:96-97 | `append_label` opens the label file for appending and writes `new_label + "\n"`, whatever the file's last character is | a label file holding `T1` with no final newline, new label `T2`: the file becomes `T1T2\n` and `load_labels` returns `["T1T2"]` | the new label starts a line of its own, so the labels read back are `["T1", "T2"]` | high; not executed | LabelServer.AppendAsWrittenGluesLines | LabelServer.AppendLabelAdds |

LabelServer.AppendLabelAsWritten models the code as written. LabelServer.AppendLabelText writes a line break first when the last line is unterminated; the label store and `save_page` use it.

The extraction model follows the code as written: ExtractHeaders.Projection and DicomUtils.ReadHeader give data-element texts, so the scan, merge and write properties describe the manifest the script really writes. ExtractHeaders.ValueHeaderOf is the intended projection, and ExtractHeaders.ValueManifestJoins proves that the join with apply_labels then holds. The preview script compares the same column with `str(ds.SeriesInstanceUID)` (generate_previews.py:78 and 159-178). The TSV text between the two scripts is not modelled, so that comparison is not proved here.
