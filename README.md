# abcd-dicom2bids: the fast-track QC mapping, modelled in Dafny

This project models the bookkeeping core of abcd-dicom2bids. That core turns the
ABCD fast-track QC manifest (`abcd_fastqc01.txt`) into an expected BIDS layout.
It covers three pieces:

- **`ftq_map`** (ftq_map.py). It splits every `ftq_series_id`
  (`subject_session_seriestype_timestamp`) on `_` and puts identifiers that do not
  split into four parts on an error list. It groups the rest by subject, session
  and series type, sorts each group by the timestamp string, and gives it
  zero-padded run labels. It names the expected files of each series from a
  fixed table of nine series types and files them under `anat`, `dwi` or `func`
  of `fin[sub][ses]`. It records each series' file list in `mapping`. Finally
  it checks every file against the raw-data tree, giving a done flag per series
  (`have_df`) and a flat `missing` list.
- **The subset tool** (src/subset_data.py). It expands the requested data-type
  keys into series types and finds the `ftq_series_id` column of the QC file.
  It keys the QC lines by that column, selects mapping keys by the substring
  `_ABCD-<type>_`, and writes a subset QC file of the selected lines.
- **Conversion preparation** (utilities/prepare_conversion.py). It drops
  recalled rows and runs `ftq_map`. It then lists the existing session
  directories of not-done series for removal, and sorts the QC rows into errors,
  already-converted and to-convert. It writes the rows still to convert after
  the header row, plus the list of their subjects.

The filesystem is two sets of paths: those for which `os.path.isfile` holds and
those for which `os.path.isdir` holds. Files read and written are sequences of
lines or rows.

Modules:

- `Wrappers`: `Option`.
- `Text`: split and join on a separator, `in` on strings, `strip`, `replace` by
  nothing, lexicographic order, `zfill` and run labels.
- `Ordering`: sorting by a key, pandas `unique()` and listing a set.
- `Naming`: the nine series types and their file-name table.
- `FtqMapSpec`: ftq_map as a list of actions applied in order, with its
  invariant and lemmas.
- `FtqMapTree`: the shape of `fin`.
- `FtqMap`: the loops of ftq_map as methods, proved equal to the specification.
- `SubsetData`: src/subset_data.py.
- `PrepareConversion`: utilities/prepare_conversion.py.

## Model

| member | source | states |
|---|---|---|
| FtqMap.ParseIds | ftq_map.py:40-48 | The rows are the well-formed identifiers' splits, in order, and `errors` holds the others verbatim. An identifier is an error iff it does not split into exactly four parts. Rows plus errors account for every input. Every row is the split of its own identifier. |
| FtqMapSpec.ParseFacts | ftq_map.py:41-47 | An identifier is in `errors` iff it occurs in the input and does not give four parts. Each parsed row's fields are the four parts of its own identifier. |
| FtqMapSpec.WellFormedIffThreeUnderscores | ftq_map.py:42-43 | Splitting gives four parts exactly when the identifier holds exactly three underscores. |
| FtqMap.CheckPresence | ftq_map.py:89-96 | The flag is 0 or 1. It is 1 iff every name exists under `{directory}/{sub}/{ses}/{bucket}`. The absent names are exactly the listed names whose path is not a file, in list order. |
| FtqMapSpec.AbsentFacts | ftq_map.py:92-95 | Each absent file is reported as many times as it is listed, and present files never. |
| FtqMapSpec.AbsentIffComplete | ftq_map.py:91-96 | A series adds nothing to `missing` exactly when its flag is 1. |
| FtqMap.CheckGroup | ftq_map.py:70-111 | The layout after one series-type group is the layout after that group's checks, one per sorted row, in run order. |
| FtqMap.CheckSession | ftq_map.py:60-347 | The layout after one session is the layout after its opening (four empty lists) and its series types in first-seen order. |
| FtqMap.CheckSubject | ftq_map.py:51-347 | The layout after one subject is the layout after its opening (an empty dict) and its sessions in first-seen order. |
| FtqMap.FtqMap | ftq_map.py:1-351 | `errors` is exactly the malformed identifiers. The five results keep the ftq_map invariant (see ResolveCoherent). Each handled identifier is checked as many times as it occurs in the input, and nothing else is checked. `mapping` holds exactly the handled identifiers. |
| FtqMapSpec.ResolveCoherent | ftq_map.py:81-349 | `done_ftq` and `done_yesno` have equal length and every flag is 0 or 1. `mapping` holds exactly the checked identifiers. Each entry is the expected file list of its identifier's own subject, session and type, with or without a run label. The last flag of an identifier is 1 iff all its mapped files exist in its bucket directory. Nothing is filed under `fmap`, and `missing` is empty iff every flag is 1. There is one check per handled row. |
| FtqMapSpec.ResolveFromIds | ftq_map.py:81-347 | A series type outside the nine gets no `mapping` entry and no `done_ftq` entry. Each handled identifier appears in `done_ftq` as often as in the input. |
| FtqMapSpec.GroupRuns | ftq_map.py:70-79 | A group is its rows of one series type, sorted ascending by the timestamp string and otherwise a permutation. The r-th sorted row gets the check with run label RunOf(r, group size). |
| FtqMapSpec.RunChecksAt | ftq_map.py:99-111 | A group's check list has one check per row, and its r-th check is the check of the r-th row. |
| FtqMapSpec.RunOfLabel | ftq_map.py:76-79 | A group of one row gets no run label. Otherwise row r gets a label of digits, at least two of them, whose value is r+1, and exactly two when r < 99. |
| Text.RunLabelValue | ftq_map.py:78 | `str(r+1).zfill(2)` is all digits, reads back as r+1, is at least two long, and is exactly two long for r < 99. |
| Text.RunLabelInjective | ftq_map.py:78 | Different run indexes get different labels. |
| FtqMapSpec.GroupNaming | ftq_map.py:83-111 | A group of size 1 gives file names with no `run-` piece. A larger group gives every member, run 01 included, the piece `run-<label>`. |
| Naming.RunPieceIffLabelled | ftq_map.py:83-111 | An expected file name has a `_`-separated piece starting with `run-` iff a run label is given, and then `run-<label>` is a piece. |
| Naming.DistinctRunsDistinctFiles | ftq_map.py:99-103 | Two runs of one group never share a file name. |
| Naming.FilesShape | ftq_map.py:200-206 | Every type lists `.nii.gz` then `.json` of one stem. ABCD-DTI alone adds `.bval` and `.bvec`, in that order. |
| Naming.FilesPrefix | ftq_map.py:53-61 | Every expected file name starts with `sub-{s}_ses-{ss}_`. |
| Naming.FilesDistinct | ftq_map.py:86-87 | One series' expected names are pairwise distinct. |
| Naming.TableMatchesSource | ftq_map.py:81-347 | The naming table yields, for each of the nine types, with and without a run label, the literal f-strings of that type's branch. |
| Naming.KindOf | ftq_map.py:81-320 | A series string selects a type iff it is that type's `ABCD-` name; otherwise no branch applies. |
| Naming.BucketRouting | ftq_map.py:81-347 | T1, T1-NORM, T2 and T2-NORM go to `anat`; DTI goes to `dwi`; MID, nBack, SST and rsfMRI go to `func`; no type goes to `fmap`. |
| FtqMapTree.ResolveTree | ftq_map.py:51-88 | Every parsed row's session has a `fin` entry, unknown series types included. Each list of an entry is the concatenation, in processing order, of the file lists checked into that bucket of that session. |
| FtqMapTree.UnhandledSessionEmpty | ftq_map.py:60-81 | A session whose series types all lack a branch still gets its `fin` entry, with the four empty lists. |
| FtqMapTree.ApplyMatches | ftq_map.py:54-88 | Running actions in which no subject or session is reopened after something was filed under it keeps `fin` equal to what was filed. |
| SubsetData.ParseTypes | src/subset_data.py:127-128 | The arguments are accepted iff there is at least one and each is a key of DATATYPES. The result is then the keys named, in order. |
| SubsetData.KeyOf | src/subset_data.py:128 | A string is resolved to a key iff it is spelled as that DATATYPES key. |
| SubsetData.AllKeysListed | src/subset_data.py:27-92 | Every data-type key has an entry in the table. |
| SubsetData.MembersPossible | src/subset_data.py:9-92 | Every series type listed in DATATYPES is one of POSSIBLES. |
| SubsetData.ExpandTypes | src/subset_data.py:142-147 | `datatypes` is exactly the union of `DATATYPES[t]` over the requested keys. `subsets` is sorted, duplicate-free and has exactly its members. |
| SubsetData.SubsetsDetermined | src/subset_data.py:147 | Only one sorted duplicate-free list has exactly those members. |
| SubsetData.FirstContaining | src/subset_data.py:152-155 | The index is the first column containing `ftq_series_id`, or the last column when none does. |
| SubsetData.FindIdColumn | src/subset_data.py:152-155 | The loop finds the first header column containing `ftq_series_id`, or stops at the last column. |
| SubsetData.LineId | src/subset_data.py:159 | A line yields an id iff it has a field at that index; otherwise Python raises IndexError. |
| Text.StripIsMiddle | src/subset_data.py:159 | `strip('"')` removes the leading and trailing runs of `"` and keeps the middle. |
| SubsetData.KeyLines | src/subset_data.py:157-160 | Lines from the third on are keyed by their id. The result is None, the IndexError, when some line lacks the column. |
| SubsetData.KeyedSome | src/subset_data.py:157-160 | Keying succeeds iff every line has a field at the index. |
| SubsetData.KeyedKeys | src/subset_data.py:157-160 | The keys are exactly the ids of the lines. |
| SubsetData.KeyedLast | src/subset_data.py:160 | The line stored under an id is the last line with that id; a later line overwrites an earlier one. |
| SubsetData.SelectIds | src/subset_data.py:168-173 | A mapping key is selected iff it contains `_ABCD-<subset>_` for some subset. |
| SubsetData.MatchesInnerPiece | src/subset_data.py:172 | For a subset without `_`, matching means that some inner `_`-piece of the id is exactly `ABCD-<subset>`. |
| SubsetData.T1SkipsNormalized | src/subset_data.py:172 | Selecting `T1` does not select a four-part `ABCD-T1-NORM` identifier whose session piece is not `ABCD-T1`. |
| SubsetData.T1MatchesSessionT1 | src/subset_data.py:172 | When the session piece is `ABCD-T1`, selecting `T1` does select the `ABCD-T1-NORM` identifier. |
| SubsetData.WriteSubsetQc | src/subset_data.py:182-186 | The file is the two original header lines, then one stored line per id of the final set: each id once, in some order. |
| SubsetData.SubsetData | src/subset_data.py:142-186 | Fails exactly when the file has fewer than two lines or a QC line lacks the id column. Otherwise `subsets` is the sorted expansion, and an id is final iff it is a mapping key, a QC-file id and matches some subset. The subset QC file is written as in WriteSubsetQc. |
| PrepareConversion.NotRecalled | utilities/prepare_conversion.py:30-31 | A row is kept iff its `ftq_recalled` is not `'1'`, and the result is no longer than the input. |
| PrepareConversion.NotDone | utilities/prepare_conversion.py:47 | An id is not done iff some `have_df` row pairs it with flag 0. |
| PrepareConversion.PairsOfParsed | utilities/prepare_conversion.py:50-56 | A (subject, session) pair is in the frame iff some four-part not-done id has those parts. Other ids are skipped. |
| PrepareConversion.SessionsToRemove | utilities/prepare_conversion.py:58-63 | A subject's `temp` lists each session once. A session is listed iff the subject has a not-done series in it and `{top}/sub-{s}/ses-{ss}` is a directory. |
| PrepareConversion.RemovalList | utilities/prepare_conversion.py:46-65 | A subject has an `rm_dirs` entry iff it has a removable session. Each entry lists exactly its removable sessions, each once, and each subject is visited once. |
| PrepareConversion.RemovalLinesListed | utilities/prepare_conversion.py:68-71 | The removal file holds exactly the session directories of the `rm_dirs` entries. |
| PrepareConversion.Partition | utilities/prepare_conversion.py:73-87 | `errors`, `have` and `not_have` are the ids of the rows of each class, in row order. `drop_idx` is increasing and holds exactly the indexes of error and have rows. Dropping those leaves exactly the not-have rows in order. |
| PrepareConversion.ClassesCover | utilities/prepare_conversion.py:77-87 | Every row lands in exactly one of the three classes. |
| PrepareConversion.OfClassMembers | utilities/prepare_conversion.py:79-87 | A row is in a class iff the class test on its id says so: errors if not four parts, have if its session directory exists, not_have otherwise. |
| PrepareConversion.DroppedSamePositions | utilities/prepare_conversion.py:89 | `drop` depends only on which indexes are listed. |
| PrepareConversion.SubjectSet | utilities/prepare_conversion.py:95 | The subject list holds `sub-` plus the subjectkey with every `_` removed, for every kept row, and nothing holds a `_`. |
| Text.RemoveChar | utilities/prepare_conversion.py:95 | `replace('_','')` leaves no `_`. |
| PrepareConversion.PrepareConversion | utilities/prepare_conversion.py:24-97 | Fails only on a QC table with no row after the column header. Otherwise the ftq_map results are those of the non-recalled rows after the header. The removal list and the partition are as in RemovalList and Partition. The final table is the header row then the not-have rows. The subject list is duplicate-free and holds exactly the subjects of the not-have rows. |
| Ordering.SortBy | ftq_map.py:72 | The result is sorted by the key and is a permutation of the input. |
| Ordering.SortedTiesDetermined | ftq_map.py:72 | Two key-sorted permutations of one list are equal when equal keys occur only on identical elements. |
| FtqMapSpec.TiedRowsEqual | ftq_map.py:41-48 | Two parsed rows agreeing on subject, session, series type and time are the same row, since the four pieces rebuild the identifier. |
| FtqMapSpec.GroupOrderDetermined | ftq_map.py:70-72 | Any time-sorted ordering of a series-type group's selected rows is exactly the group the model iterates, so the sort's tie order cannot be observed. |
| Ordering.Unique | ftq_map.py:51 | pandas `unique()`: the same values, each once. |
| Ordering.ListOf | src/subset_data.py:185 | Listing a set gives each of its members once. |

## Left out

- Real I/O: reading and writing files, pickling, argparse, `os.makedirs`, printing and timestamps. `os.path.isfile` and `os.path.isdir` are sets of existing paths.
- utilities/subset_data.py is not part of this model. It is unfinished and uses undefined names. Its working part repeats the expansion of src/subset_data.py.
- utilities/create_qc.py is not part of this model. Its logic is Python regular-expression matching.
- utilities/space_estimate.py is not part of this model. It does floating-point size arithmetic.
- Ordering.SortBy: ftq_map.py:72 sorts each group with pandas `sort_values`, whose default sort is not stable; the model's insertion sort fixes one tie order (a later equal-keyed element comes first). Within a group, equal timestamps occur only between identical identifiers, so by FtqMapSpec.GroupOrderDetermined every tie order gives the same rows in the same order.
- Ordering.Unique: `unique()` (ftq_map.py:51, 60, 68) keeps first-appearance order, and the model follows it; the code does not sort these values.
- Ordering.ListOf: Python's set iteration order is not modelled. Listing a set (the subsets before sorting, the final subset, the subject list) promises only each member once.
- SubsetData.SubsetData: the mapping keys are a sequence rather than the pickled dict, since a dict's keys are distinct and only membership matters for the selection.
- SubsetData.FindIdColumn: when no header column contains `ftq_series_id`, the loop variable keeps its last value, so the last column is used. The model does the same and does not treat it as an error.
- pandas details: DataFrames are sequences of rows, `have_df` is the aligned pair `doneFtq`/`doneYesno`, and `NaN` cells are strings that compare unequal to `'1'`.
- PrepareConversion.PrepareConversion: a QC table with no row after the column header is a failure (None); the script would raise on `drop(0)`. A zero-byte file fails earlier, in `read_csv` (utilities/prepare_conversion.py:24), and file reading is not modelled.
- FtqMapTree.ResolveTree: does not state that `fin` has no subject or session beyond those of the parsed rows; it states only that every parsed row's session is present and that each of its lists is what the checks filed. Their file lists are stated through ResolveCoherent and GroupRuns rather than again here.

## Findings

None.
