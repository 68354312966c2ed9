# Cat/dog annotation tool — verified model

This project models the core of a small cat/dog image-labelling toolkit.

- **The annotation tool** (`SimpleAnnotator`) works through a worklist of
  images one key press at a time. It appends one `filename,label,timestamp`
  row per decision to a CSV ledger and copies each labelled image into a
  `cats` or `dogs` bucket directory. An undo key steps back, drops that
  image's rows from the ledger, and removes its bucket copy.
- **The data-preparation tool** reads the same ledger. It reports label and
  date statistics, converts the rows to image/annotation records, splits the
  cat and dog rows into train/validation/test sets, and writes a summary
  report.

The ledger is a value: `None` when the file does not exist, `Some(rows)`
otherwise. A bucket is the set of filenames it holds. The operations that
work in place are methods of the class `Annotate.Annotator`, whose fields
are the worklist, the cursor, the ledger and the two buckets. Each method is
proved against a value-level definition:

- `Persist.Saved` and `Persist.Deleted` for one save or one undo;
- `Session.Next` for one pass of the key loop;
- `Session.Run` for the whole loop.

The session invariant `Session.Coherent` ties the cursor to the ledger and
the buckets:

- items at or after the cursor have no row and no copy;
- items before it have at most one row, with the matching bucket copy;
- files outside the worklist are untouched.

Every step keeps the invariant. As a consequence, labelling and then undoing
restores the ledger, both buckets and the cursor.

One edge case shows up in the round trips. Suppose the ledger file exists
but holds only its header. An undo then rewrites it with no rows, so the
file is removed. Label-then-undo therefore restores everything except that a
header-only file becomes a missing file. `Persist.DeleteUndoesSave` and
`Session.LabelThenUndo` state this exactly.

Module layout:

- `ledger.dfy`: rows and the row functions both tools use.
- `worklist.dfy`: extension matching, deduplication, ordering, filtering.
- `persist.dfy`: save and delete.
- `session.dfy`: the key loop as a state machine, its invariant, round trips
  and a worked example.
- `annotator.dfy`: the `Annotator` class.
- `counting.dfy`: `Counter` as a first-occurrence tally.
- `data_prep.dfy`: the data-preparation functions.

## Model

| member | source | states |
|---|---|---|
| Ledger.Load | src/data_prep.py:14-21 | a missing ledger file reads as no rows; an existing one as its rows |
| Ledger.NamesMembership | src/annotate.py:53 | a filename is among the ledger's names exactly when some row carries it |
| Ledger.LabelOf | src/annotate.py:89-96 | the remembered label is absent exactly when the file has no row |
| Ledger.LabelOfIsLastRow | src/annotate.py:89-96 | a remembered label is the label of a row of the file after which no row of the file follows, that is, of the file's last row |
| Ledger.Without | src/annotate.py:88-94 | the kept rows contain no row of the file and are fewer by its number of rows; every other file keeps its row count and last label; with no row of the file, nothing changes |
| Ledger.WithoutMultiplicity | src/annotate.py:88-94 | the kept rows hold every copy of every other file's row, unchanged, and no row of the file |
| Ledger.WithoutSingle | src/annotate.py:92-96 | a single row is kept exactly when it belongs to another file |
| Ledger.WithoutConcat | src/annotate.py:88-103 | the rows kept from a ledger are those kept from its first stretch followed by those kept from the rest, so with `WithoutSingle` the other files' rows keep their order |
| Ledger.WithLabel | src/data_prep.py:105-106 | a row is kept exactly when it is in the ledger and carries the label |
| Ledger.CountLabel | src/annotate.py:197-209 | the forward count of rows with a label equals the number of rows carrying it |
| Ledger.WithLabelMultiplicity | src/data_prep.py:105-106 | filtering by a label keeps every copy of a row with that label and none of any other |
| Ledger.WithLabelConcat | src/data_prep.py:130-142 | filtering by label distributes over concatenation, so a merged split's cat rows are its parts' cat rows |
| Ledger.WithLabelPermutation | src/data_prep.py:131-142 | reordering rows reorders each label's rows and keeps their number, so counting after a shuffle gives the same count |
| Worklist.Matching | src/annotate.py:39-41 | a name is matched by the `*<ext>` glob exactly when it is in the listing and ends with the extension |
| Worklist.LessIsLexicographic | src/annotate.py:44 | the order used for sorting is Python's string order: a proper prefix comes first, otherwise the first differing character decides |
| Worklist.Insert | src/annotate.py:43-44 | adding a name to a strictly ascending list keeps it strictly ascending and adds exactly that name |
| Worklist.SortedUnique | src/annotate.py:43-44 | two strictly ascending lists with the same members are equal, so the worklist does not depend on the order the globs found the files |
| Worklist.Unlabelled | src/annotate.py:53-57 | an image is kept exactly when it has no ledger row, and the kept images stay in ascending order |
| Persist.Saved | src/annotate.py:117-137 | exactly one row is appended after the unchanged existing rows (the file is created if missing), the file's count rises by one and its label becomes the new one, other files are unchanged, and the image is in the cats or dogs bucket afterwards exactly when it was before or the label is `cat` or `dog` respectively |
| Persist.Removed | src/annotate.py:109-114 | no copy is removed for a missing or empty label, the cats copy for `cat`, and the dogs copy for any other label; other files are unchanged |
| Persist.Deleted | src/annotate.py:82-114 | with no ledger file nothing changes; otherwise the rows are the old rows without the file's, the file is removed exactly when no row remains, other files keep their rows and copies, and the file leaves the bucket named by its last row's label |
| Persist.DeleteUndoesSave | src/annotate.py:82-137 | deleting right after saving a file that had no row and no copy gives back the store exactly, except that a header-only ledger becomes a missing file |
| Persist.DeleteAbsentKeepsStore | src/annotate.py:84-106 | deleting a file that has no row keeps the buckets and the rows, except that a header-only ledger becomes a missing file |
| Session.Next | src/annotate.py:158-186 | one pass of the loop never changes the worklist and leaves the cursor within it; an unreadable image advances the cursor |
| Session.CursorMoves | src/annotate.py:158-186 | `c`, `d`, `s` and an unreadable image advance the cursor by one; `a` steps back only from a positive cursor and changes nothing at 0; `q` and any other key leave the state as it was, and only `q` quits |
| Session.StartIsCoherent | src/annotate.py:156 | a session at cursor 0 over distinct items with no rows and no copies satisfies the invariant |
| Session.SaveKeepsCoherent | src/annotate.py:170-175 | labelling the current item and advancing keeps the invariant |
| Session.DeleteKeepsCoherent | src/annotate.py:179-183 | stepping back and deleting the item now under the cursor keeps the invariant |
| Session.DeleteKeepsPending | src/annotate.py:82-114 | deleting one file's rows leaves every other file with no row and no copy as it was |
| Session.PassKeepsCoherent | src/annotate.py:163-167 | advancing past the current item without writing keeps the invariant |
| Session.LabelKeyKeepsCoherent | src/annotate.py:170-175 | `c` and `d` keep the invariant |
| Session.UndoKeyKeepsCoherent | src/annotate.py:179-183 | `a` keeps the invariant, at cursor 0 as well |
| Session.NextKeepsCoherent | src/annotate.py:158-186 | every pass of the loop keeps the invariant |
| Session.LabelThenUndo | src/annotate.py:170-183 | `c` or `d` followed by `a` restores ledger, buckets and cursor, except that a header-only ledger becomes a missing file |
| Session.PassThenUndo | src/annotate.py:163-183 | `s` or an unreadable image followed by `a` writes nothing and restores the cursor, with the same header-only exception |
| Session.Run | src/annotate.py:156-186 | the loop never changes the worklist and ends with the cursor within it |
| Session.RunKeepsCoherent | src/annotate.py:156-186 | the whole loop keeps the invariant |
| Session.ScenarioSaveFirst | src/annotate.py:117-137 | saving `a` as a cat with no ledger file creates the file with that one row and puts `a` in the cats bucket |
| Session.ScenarioSaveSecond | src/annotate.py:117-137 | saving `b` after `a` appends its row and puts `b` in the bucket of its label |
| Session.ScenarioDelete | src/annotate.py:82-114 | undoing `b`'s dog row restores the ledger and buckets of the first save |
| Session.ScenarioCatDogUndoCatQuit | src/annotate.py:156-186 | on [a, b, c] with a fresh ledger, the keys c, d, a, c, q leave rows a:cat and b:cat, cats = {a, b}, dogs empty, cursor on c |
| Annotate.Annotator.constructor | src/annotate.py:16-35 | the worklist is strictly ascending and holds exactly the listed image files without a ledger row (all of them when reading the ledger fails); the session then satisfies the invariant when no worklist item has a bucket copy |
| Annotate.Annotator.LoadImages | src/annotate.py:37-45 | the new worklist is strictly ascending and holds exactly the old entries and the listed names ending in `.jpg`, `.jpeg`, `.png` or `.bmp` |
| Annotate.Annotator.LoadExistingLabels | src/annotate.py:47-60 | with a readable ledger, exactly the images without a row remain, in order; a missing ledger or a failed read leaves the worklist as it was |
| Annotate.Annotator.SaveAnnotation | src/annotate.py:117-139 | the new ledger and buckets are those of `Persist.Saved` |
| Annotate.Annotator.DeleteAnnotation | src/annotate.py:82-115 | the one-pass scan leaves the ledger and buckets of `Persist.Deleted` |
| Annotate.Annotator.Step | src/annotate.py:159-186 | the new state and the quit flag are those of `Session.Next` |
| Annotate.Annotator.StartAnnotation | src/annotate.py:141-190 | an empty worklist changes nothing and reports nothing; otherwise the final state is `Session.Run` from cursor 0, the invariant is kept, and the totals are reported exactly when the ledger file exists |
| Annotate.Annotator.ShowStats | src/annotate.py:192-215 | nothing is reported without a ledger file; otherwise the numbers of `cat` and `dog` rows |
| Counting.Occurrences | src/data_prep.py:34 | a value's count is zero exactly when it does not occur |
| Counting.Bump | src/data_prep.py:34 | counting one more value adds one to its entry, or appends it with count 1, and leaves every other entry as it was |
| Counting.BumpKeys | src/data_prep.py:34 | the values after counting one more are the old values, followed by the new one when it was not there |
| Counting.BumpDistinct | src/data_prep.py:34 | counting one more keeps one entry per value |
| Counting.BumpCounts | src/data_prep.py:34 | counting one more value turns a tally of a list into a tally of the list extended by that value |
| Counting.Tally | src/data_prep.py:33-35 | one entry per distinct value, holding exactly the values of the list, each with its number of occurrences, the counts summing to the list's length |
| Counting.TallySize | src/data_prep.py:164-170 | the number of entries is the number of distinct values |
| DataPrep.Labels | src/data_prep.py:33 | the labels list has one entry per row, the row's label |
| DataPrep.DateOf | src/data_prep.py:45 | the date part is the first ten characters, or the whole timestamp when it is shorter |
| DataPrep.LabelOccurrences | src/data_prep.py:33-34 | counting a label among the labels equals the number of rows carrying it |
| DataPrep.LabelTally | src/data_prep.py:33-42 | the label counts list exactly the labels that occur, each with its number of rows |
| DataPrep.Dates | src/data_prep.py:45 | one date per row, in row order, each the date part of the row's timestamp |
| DataPrep.DateTally | src/data_prep.py:45-51 | the date counts list exactly the dates that occur, each with its number of rows |
| DataPrep.ShowStatistics | src/data_prep.py:24-51 | nothing when there are no rows; otherwise the total is the number of rows, each label and each date appears once with its row count, and both lists sum to the total |
| DataPrep.CategoryId | src/data_prep.py:82 | the id is 0 exactly for `cat` and 1 otherwise, and for `cat` and `dog` the category table entry of the id names the label |
| DataPrep.ConvertToJson | src/data_prep.py:54-88 | one image and one annotation record per row, in row order, with id and image id equal to the index, the row's filename and timestamp, and category 0 exactly for `cat` |
| DataPrep.SplitData | src/data_prep.py:113-122 | train, val and test concatenate back to the data, with sizes clamped as Python slices clamp |
| DataPrep.GroupSplit | src/data_prep.py:105-125 | the three parts of one label's split hold only rows of that label and together reorder exactly that label's rows |
| DataPrep.MergedCounts | src/data_prep.py:128-142 | a shuffle of a cat part followed by a dog part counts as many cat rows as the cat part and dog rows as the dog part |
| DataPrep.MergeSplits | src/data_prep.py:128-144 | each of train, val and test is the shuffle of its cat part followed by its dog part, and reports those parts' sizes as its cat and dog counts |
| DataPrep.SplitTotals | src/data_prep.py:124-142 | summed over the three splits, the cat and dog counts equal the numbers of cat and dog rows, and the splits together reorder the cat and dog rows |
| DataPrep.OnlyCatsAndDogs | src/data_prep.py:105-142 | any rows that reorder exactly the cat and dog rows, as the splits together do, are ledger rows labelled `cat` or `dog` |
| DataPrep.SplitDataset | src/data_prep.py:96-146 | nothing when there are no rows; otherwise three splits built as above whose counts add up to the cat and dog totals, which together reorder all cat and dog rows |
| DataPrep.DistinctLabelCount | src/data_prep.py:164-170 | the category count is the number of distinct labels |
| DataPrep.Distribution | src/data_prep.py:175-179 | the distribution maps exactly the tallied labels, each to its count |
| DataPrep.DistributionKeys | src/data_prep.py:175-179 | a distribution built from a tally with one entry per label has as many keys as the tally has entries |
| DataPrep.ReportFacts | src/data_prep.py:164-179 | the distribution has one key per distinct label, each mapped to its number of rows |
| DataPrep.GenerateReport | src/data_prep.py:149-179 | nothing when there are no rows; otherwise the total is the number of rows, the category count is the number of distinct labels, and the distribution maps exactly the labels that occur to their row counts |

## Left out

- Image display and key capture with OpenCV are not modelled. Whether an image can be read is the input set `unreadable`, and the keys are a sequence of `Press` values. Resizing, windows and the `0xFF` key mask are not modelled.
- Session.Run: the model stops when the key presses run out, where the tool would wait for the next key.
- File-system I/O is not modelled: CSV parsing and quoting, opening, removing and creating files and directories, and the metadata that `shutil.copy2` copies. The ledger is a row sequence and each bucket a set of filenames. The globs are a listing of names, all taken to be files of the input directory.
- Annotate.Annotator.LoadExistingLabels: a failed read of the ledger is the boolean `readFails`. Rows a CSV reader would yield with missing fields are not modelled.
- Annotate.Annotator.ShowStats: the fallback to a `Label` column is not modelled, since the ledger the tool writes always has a `label` column.
- Annotate.Annotator.StartAnnotation: the invariant is promised only when the starting session satisfies it, that is, when no worklist item has a row or a bucket copy.
- Timestamps from `datetime.now()` are an input string per key press, and one per save.
- `random.shuffle` is the input `shuffle`. Its call `k` may return any reordering of its argument: calls 0 and 1 shuffle the cat and dog rows, calls 2 to 4 the merged splits.
- The cut points `int(n * ratio)` are the input `points`, which gives the training and validation sizes for a group of `n` rows. Float rounding is not modelled.
- Percentages and all printed messages are not modelled.
- DataPrep.ShowStatistics: the per-date counts come in first-occurrence order; the tool prints them sorted by date. The `'timestamp' in ann` test is taken as always true, since the ledger header names that column.
- JSON serialisation and the CSV files written for each split are not modelled; the records and split rows they would hold are.
- Filenames and extensions are compared case-sensitively, code point by code point, as globbing and path ordering behave on POSIX systems; the case-insensitive matching of Windows file systems is not modelled.
- The `argparse` command-line handling, the `main` functions and the unused `matplotlib` import are not modelled.
