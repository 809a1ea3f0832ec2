# SENG265 route manager and SVG art: a Dafny model

This project models the working core of four course assignments. Each one
reads an airline route data set and answers a question about it, or writes
SVG art into an HTML page. Each assignment is kept in its own shape:

- **a1 (C), module `RouteFilter`** (`a1_filter.dfy`). The `--KEY=VALUE`
  arguments are scanned into a record of `char[100]` buffers. Each CSV line
  is cut into fields that are copied character by character into those
  buffers. The line is kept when it matches the airline, source and
  destination filters, and the output file is written with the header
  printed once.
- **a3 (C), module `LinkedList`** (`a3_list.dfy`). A singly linked list of
  route nodes. Nodes are a `class` with `next` and `frequency` fields, and
  the list is a chain of references tied to a ghost sequence of nodes.
  `add_front`, `add_end`, the ordered insertion `add_inorder`, `copy`,
  `remove_front` and `apply` are imperative methods.
- **a3 (C), module `RouteStats`** (`a3_stats.dfy`). The YAML-like records are
  read thirteen lines at a time and their values cleaned by `strpchr`. The
  route counts for questions 1 to 3 are kept in the list, one node per key.
  The list is sorted by count with `add_inorder`, and the first `N` rows are
  written.
- **a2 (Python/pandas), modules `DataFrames`, `RouteDedup` and
  `RouteQueries`** (`a2_frames.dfy`, `a2_dedup.dfy`, `a2_queries.dfy`).
  - The in-place frame operations `df_lstrip` and `column_diff` work on a
    two-dimensional array of cells.
  - `clear_duplicates` keeps the first orientation of each undirected
    `(from, to, diff)` route, in scan order.
  - The five queries are joins, group-by counts and ranked selections. They
    are modelled on sequences, and the CSV file is the answer.
- **a4 (Python), modules `Svg`, `Html`, `FixedArt` and `RandomArt`**
  (`svg.dfy`, `html.dfy`, `a41_art.dfy`, `a43_art.dfy`).
  - The numbers, colors and element text that the shape classes print.
  - The `HtmlDocument` class: an indent counter and the lines written so far.
  - `a41`'s fixed figure of ten circles.
  - `a43`'s random shapes: the bounds of each sampled value, and the
    class-level counters kept in a `Registry` object.
- **module `Text`** (`text.dfy`) holds what the others share:
  - decimal printing and parsing of integers;
  - the `strcmp` order;
  - Python's `lstrip` and `str * n`;
  - the search for the first occurrence of a character.

Output files are modelled as sequences of lines, without the newline. Input
lines are what `fgets` returns, so each one keeps its newline: the C programs
rely on it, since `strpchr` drops it and `extract_line_data` ends the last
field at it. Command-line arguments and file contents are parameters. Random choices are
nondeterministic choices within the bounds the source guarantees. Every
operation is proved against a function that specifies it, or against the
inverse that reads its output back. For example:
- each shape element reads back as the shape;
- printed integers parse back as themselves;
- the sorted report is a permutation of the counts in rank order;
- the written list holds exactly the entries before the call plus the new
  one.

## Model

| member | source | states |
|---|---|---|
| LinkedList.Node.constructor | a3/list.c:29-49 | `new_node`: a fresh node has frequency 0, no successor and (unfilled) empty strings |
| LinkedList.Node.Copy | a3/list.c:192-210 | `copy`: the new node holds the same eleven strings and frequency as the source node and has no successor |
| LinkedList.AddFront | a3/list.c:87-91 | the new node is the head and points at the old list; the entries are the new one followed by the old ones |
| LinkedList.AddEnd | a3/list.c:104-119 | an empty list becomes the node alone, otherwise the head is kept; the old nodes keep their order, the node is last and points at NULL |
| LinkedList.StaysBeforeOrder | a3/list.c:149-162 | a node the scan walks past is in list order (frequency descending, then key ascending) before the new entry; the node it stops at is in order after it |
| LinkedList.InsertionPoint | a3/list.c:147-167 | the scan stops at the first entry that does not stay before the new one; every entry in front of that point stays before it |
| LinkedList.InsertKeepsSorted | a3/list.c:133-180 | inserting into a list sorted by frequency descending then key ascending gives a sorted list |
| LinkedList.InsertIsPermutation | a3/list.c:133-180 | the list after insertion holds exactly the old entries plus the new one |
| LinkedList.InsertBeforeEqual | a3/list.c:152-161 | on a tie in frequency and key, the new entry goes in front of the old one (the comparison is strict) |
| LinkedList.AddInOrder | a3/list.c:133-180 | a NULL node leaves the list untouched; into an empty list the node itself is returned; otherwise the node is linked in at the insertion point, no other node moves, and the entries are the sorted insertion of the node's value |
| LinkedList.InsertInto | a3/list.c:147-179 | on a non-empty list, the scan followed by the relinking yields a list whose entries are the sorted insertion |
| LinkedList.FindPlace | a3/list.c:147-167 | the loop leaves `curr` at the insertion point and `prev` at the node before it (NULL at the front) |
| LinkedList.LinkBetween | a3/list.c:169-179 | linking the node between `prev` and `curr` gives a NULL-terminated list with the node at that position; the head changes only when `prev` is NULL |
| LinkedList.LinkedIn | a3/list.c:169-179 | once `prev` points at the node and the node at `curr`, the chain from the head visits the old nodes with the node in between |
| LinkedList.RemoveFront | a3/list.c:237-247 | the new head is the old head's successor, and the entries are the old ones without the first |
| LinkedList.Apply | a3/list.c:259-267 | the callback is applied to every node from the head to the end, in order (a left fold over the entries) |
| RouteStats.Strpchr | a3/route_manager.c:124-141 | the loop copies exactly the characters `Strip` keeps: letters always, spaces and dashes only after the first letter, in order |
| RouteStats.StripChars | a3/route_manager.c:130-138 | a cleaned value holds only letters, spaces and dashes, starts with a letter, is non-empty when the input has a letter, and is no longer than the input |
| RouteStats.StripClean | a3/route_manager.c:130-138 | a value of letters, spaces and dashes that starts with a letter passes `strpchr` unchanged |
| RouteStats.StripIdempotent | a3/route_manager.c:124-141 | cleaning a cleaned value changes nothing |
| RouteStats.SetColumnSpec | a3/route_manager.c:153-190 | a stored column (0-6, 8-11) reads back the value stored and no other column changes; columns 7 and 12 leave the record as it was |
| RouteStats.StoreColumnVal | a3/route_manager.c:153-190 | the node's record becomes `SetColumn` of the old one; frequency and link are untouched |
| RouteStats.CountRecord | a3/route_manager.c:201-284 | the shared scan of the three questions: a key already in the list moves its count by +1 (-1 for question 2), otherwise the record goes in front with count +1 (-1) |
| RouteStats.BumpMatches | a3/route_manager.c:208-215 | the loop moves every node with the record's key and reports whether there was one; with none the list is unchanged |
| RouteStats.Question1 | a3/route_manager.c:201-224 | only records flying into Canada are counted, per airline name; any other record leaves the list as it was |
| RouteStats.Question2 | a3/route_manager.c:235-254 | every record is counted downwards per destination country |
| RouteStats.Question3 | a3/route_manager.c:265-284 | every record is counted per destination airport name |
| RouteStats.TallySpec | a3/route_manager.c:53-86 | after any run of records, the list has one entry per key with a counted record, keys are unique, and each count is the number of counted records with that key (negated for question 2) |
| RouteStats.TallyUnique | a3/route_manager.c:53-86 | no two entries of the tally list have the same key |
| RouteStats.StepCounts | a3/route_manager.c:77-85 | counting one more record keeps the tally list exact |
| RouteStats.BumpCounts | a3/route_manager.c:208-215 | moving the count of a key already present keeps the tally exact for one more record |
| RouteStats.BumpHasKey | a3/route_manager.c:208-215 | moving counts changes no key, so the keys present stay the same |
| RouteStats.PrependCounts | a3/route_manager.c:216-219 | putting a record with a new key in front keeps the tally exact for one more record |
| RouteStats.PrependUnique | a3/route_manager.c:216-219 | a front entry whose key the list lacks keeps the keys unique |
| RouteStats.PrependHasKey | a3/route_manager.c:216-219 | with the new front entry, the keys present are exactly those of the records counted so far |
| RouteStats.BumpTotal | a3/route_manager.c:208-215 | moving a key's count changes the sum of the counts by one step per entry with that key |
| RouteStats.UniqueKeyCount | a3/route_manager.c:208-215 | with unique keys, a key is held by exactly one entry or by none |
| RouteStats.TallyTotal | a3/route_manager.c:53-86 | the counts add up to the number of counted records (negated for question 2) |
| RouteStats.FieldsPrefix | a3/route_manager.c:57-71 | storing one more line's value extends the record by that column |
| RouteStats.RecordOfSpec | a3/route_manager.c:57-71 | every stored column of a record holds the cleaned value of its line |
| RouteStats.StoreLine | a3/route_manager.c:62-70 | the value two characters after the first `:` is cleaned by `strpchr` and stored in the line's column |
| RouteStats.ReadRecord | a3/route_manager.c:54-76 | a fresh node with count 0 receives up to thirteen lines; the record is complete exactly when thirteen lines were left, and then it holds their values |
| RouteStats.ChunksStep | a3/route_manager.c:53-86 | reading one more complete record extends the records already read |
| RouteStats.ChunksEnd | a3/route_manager.c:73-76 | fewer than thirteen lines left make no further record |
| RouteStats.TallySnoc | a3/route_manager.c:77-85 | the tally of one more record is one more counting step |
| RouteStats.CountInto | a3/route_manager.c:77-85 | the question dispatch: "1" and "2" go to their functions, anything else to `question3` |
| RouteStats.Aggregate | a3/route_manager.c:50-86 | after the header line, each complete record is counted and an incomplete trailing record is dropped; the list's value is the tally of the records |
| RouteStats.CountNext | a3/route_manager.c:54-85 | one pass of the record loop: an incomplete record leaves the list as it was, a complete one is counted |
| RouteStats.CountRecords | a3/route_manager.c:53-86 | the record loop as a whole: its list is the tally of all complete records after the header |
| RouteStats.SortAllSpec | a3/route_manager.c:90-98 | the list the sort loop builds is sorted (frequency descending, then key ascending) and holds exactly the tally's entries |
| RouteStats.InsertCopy | a3/route_manager.c:95-97 | a copy of the node is inserted in order; the sorted list gains only fresh nodes |
| RouteStats.SortByFrequency | a3/route_manager.c:90-98 | the new list's value is the in-order insertion of every tally entry, in list order; the tally list is not changed |
| RouteStats.Shown | a3/route_manager.c:306 | `write_file` prints the first `n` entries, all of them when there are fewer, none when `n <= 0` |
| RouteStats.WriteFile | a3/route_manager.c:294-326 | the output is the header followed by one row for each of the first `n` nodes |
| RouteStats.PrintRow | a3/route_manager.c:308-323 | the row of node `i` is the next line of the report |
| RouteStats.ReportStep | a3/route_manager.c:306-325 | showing one more entry adds its row at the end |
| RouteStats.ReportSame | a3/route_manager.c:306 | limits that show the same number of entries give the same output |
| RouteStats.LastFieldAfter | a3/route_manager.c:309-321 | the text after a row's last comma is the statistic that was printed there |
| RouteStats.RowStatistic | a3/route_manager.c:309-321 | read back as an integer, the last column of a row is the entry's statistic (the count, negated back for question 2) |
| RouteStats.ReportedCounts | a3/route_manager.c:39-115 | every reported entry's statistic is the positive number of counted records with its key; rows come largest first, smallest first for question 2 |
| RouteStats.ProcessFile | a3/route_manager.c:39-115 | the output is the report of the first `n` entries of the sorted tally of the file's records |
| RouteFilter.CStr | a1/route_manager.c:17-36 | the C string of a `char[100]` buffer is its prefix up to (not including) the first NUL, and holds no NUL |
| RouteFilter.SetArgSpec | a1/route_manager.c:80-106 | the member the entry names (`DATA`, `AIRLINE`, `SRC_CITY`, `SRC_COUNTRY`, `DEST_CITY`, `DEST_COUNTRY`) becomes the value, every other member and the case are kept; an unknown entry changes nothing |
| RouteFilter.ScanArgRoundTrip | a1/route_manager.c:63 | `--KEY=VALUE` with a non-empty key and value and no `=` in either scans back to exactly that key and value |
| RouteFilter.ExtractArgs | a1/route_manager.c:59-68 | the loop scans `argv[1]` to `argv[argc-1]` in order and applies each to the arguments, carrying the scan variables over from one argument to the next |
| RouteFilter.ArgsReadLast | a1/route_manager.c:59-106 | with well-formed arguments, each member holds the value of the last argument naming it, or its old value when none does |
| RouteFilter.CaseOf | a1/route_manager.c:333-343 | four, five and six arguments select cases 1, 2 and 3; any other count leaves the case as it was |
| RouteFilter.ColumnWith | a1/route_manager.c:206-244 | replacing one column's buffer changes that column and no other; a second replacement overrides the first |
| RouteFilter.SplicedCStr | a1/route_manager.c:190 | a buffer holding a text followed by its NUL reads back as exactly that text |
| RouteFilter.OverwrittenNothing | a1/route_manager.c:182 | before the first character is copied the line data is unchanged |
| RouteFilter.OverwriteStep | a1/route_manager.c:184-186 | writing one character at the next index of a column extends the text written there |
| RouteFilter.OverwriteEnd | a1/route_manager.c:190 | writing the NUL after the copied text leaves the column holding that text as a C string |
| RouteFilter.RemoveCommas | a1/route_manager.c:183-189 | the copied text holds no comma and is no longer than its range |
| RouteFilter.RemoveCommasClean | a1/route_manager.c:184 | text without commas is copied unchanged |
| RouteFilter.CopiedStep | a1/route_manager.c:183-189 | one more character of the range adds it to the copy, unless it is a comma |
| RouteFilter.CopiedGrows | a1/route_manager.c:183-189 | the copy of a longer range is at least as long |
| RouteFilter.CopyStep | a1/route_manager.c:183-189 | one turn of the copy loop: a comma is skipped, any other character goes to the next index of the column |
| RouteFilter.SpliceCopy | a1/route_manager.c:181-192 | the characters of `line[start..end)` other than commas go into the column in order, then a NUL; other columns are untouched, and columns 7 and 12 and above are not written |
| RouteFilter.Pending | a1/route_manager.c:154-163 | the field still open is no longer than the text scanned |
| RouteFilter.PendingSpec | a1/route_manager.c:154-163 | the open field is the tail of the scanned text after its last comma or newline |
| RouteFilter.ClosedClean | a1/route_manager.c:155 | no field closed by the scan holds a comma or newline |
| RouteFilter.JoinSnoc | a1/route_manager.c:154-163 | joining one more field adds a comma and the field |
| RouteFilter.JoinLast | a1/route_manager.c:154-163 | a character added to the last field is added to the end of the joined text |
| RouteFilter.FieldsJoin | a1/route_manager.c:149-166 | for a line without newlines, splitting at commas and joining the fields with commas gives the line back |
| RouteFilter.ClosedPrefix | a1/route_manager.c:154-163 | the fields closed within a prefix of the line are the first fields of the whole line |
| RouteFilter.DelimStep | a1/route_manager.c:157-161 | a comma or newline closes the open field and opens an empty one |
| RouteFilter.PlainStep | a1/route_manager.c:155-156 | any other character extends the open field |
| RouteFilter.StoreFieldsSnoc | a1/route_manager.c:158 | storing one more field stores it into the next column |
| RouteFilter.StoreFieldsSpec | a1/route_manager.c:149-166 | after the fields are stored, column `k` holds field `k` as a C string, and a column past the last field keeps its old buffer |
| RouteFilter.StoreColumn | a1/route_manager.c:181-192 | storing field `n` sets column `n` to it and leaves every other column as it was |
| RouteFilter.ExtractLineData | a1/route_manager.c:149-166 | each comma, newline or the final NUL hands the field since the previous one to the next column; the result is every field stored in its column over the old line data |
| RouteFilter.CloseField | a1/route_manager.c:157-161 | one `splice_copy` call at a delimiter stores the open field in the next column |
| RouteFilter.CopiedPending | a1/route_manager.c:158 | what `splice_copy` copies at a delimiter is exactly the open field |
| RouteFilter.FieldClosed | a1/route_manager.c:157-161 | closing the open field adds it to the fields seen, and at the NUL the fields seen are all of them |
| RouteFilter.FieldsAvoid | a1/route_manager.c:149-166 | a character missing from the line is missing from every field |
| RouteFilter.ColumnIsField | a1/route_manager.c:149-166 | after a line is read, each column it reaches prints as that field |
| RouteFilter.MatchesLine | a1/route_manager.c:258-314 | once a line with all twelve columns is read, whether it matches the case's tests depends on that line's fields alone |
| RouteFilter.WrittenSnoc | a1/route_manager.c:127-130 | one more line is one more `write_file` call on the output so far |
| RouteFilter.BodiesSnoc | a1/route_manager.c:268-310 | one more match adds its body line at the end |
| RouteFilter.ShapedStep | a1/route_manager.c:257-315 | `write_file` on a line keeps the output equal to the heading of the first match followed by one body per match |
| RouteFilter.WrittenShape | a1/route_manager.c:257-315 | the output is empty until the first match; from then on it is the heading (printed while the file is empty) followed by one body line per match, in order |
| RouteFilter.OutputShape | a1/route_manager.c:117-137 | the file has one line per match plus one, and it is the single notice `NO RESULTS FOUND.` exactly when nothing matched |
| RouteFilter.BodiesLength | a1/route_manager.c:268-310 | one body line per match |
| RouteFilter.ProcessFile | a1/route_manager.c:117-137 | every input line is split over the line data the previous line left and handed to `write_file`; an empty output gets the notice |
| RouteFilter.Run | a1/route_manager.c:327-346 | the arguments are read, the case is chosen from `argc`, and the file is processed with them |
| DataFrames.LStripCellSpec | a2/route_manager.py:183-184 | a stripped string cell starts with no whitespace, a non-string cell is left as it is, and stripping twice is stripping once |
| DataFrames.DfLStrip | a2/route_manager.py:173-185 | every string cell of the listed columns, in every row, loses its leading whitespace; every other cell is unchanged |
| DataFrames.StripRow | a2/route_manager.py:182-184 | one row of `df_lstrip`: the listed columns of that row are stripped, nothing else changes |
| DataFrames.Abs | a2/route_manager.py:169 | `abs` gives the value or its negation, never negative |
| DataFrames.AsNumberPrinted | a2/route_manager.py:169 | `float()` of a printed integer, after any leading whitespace, reads back the integer |
| DataFrames.ColumnDiff | a2/route_manager.py:157-170 | in every row the output column becomes the absolute difference of the two input columns read as numbers; every other cell is unchanged |
| RouteDedup.ClearDuplicates | a2/route_manager.py:140-154 | the loop keeps exactly the tuples `Dedup` keeps: each row whose tuple and swapped tuple are both new, in scan order |
| RouteDedup.DedupInOrder | a2/route_manager.py:148-152 | the kept tuples are rows of the input at increasing positions (a subsequence, in scan order) |
| RouteDedup.DedupDistinct | a2/route_manager.py:151 | no two kept tuples are the same route in either direction |
| RouteDedup.DedupCovers | a2/route_manager.py:148-152 | every row is kept, or it or its reverse was kept before it |
| RouteDedup.DedupFromRows | a2/route_manager.py:152 | only tuples of input rows are kept |
| RouteQueries.PairsMembers | a2/route_manager.py:34 | one left row's matches are exactly the right rows whose key equals its key, each paired with it |
| RouteQueries.MergeMembers | a2/route_manager.py:34-36 | an inner merge holds exactly the pairs of rows, one from each side, whose keys agree |
| RouteQueries.KeyIndex | a2/route_manager.py:39 | the place of the first group with the key, or the number of groups when none has it |
| RouteQueries.BumpSpec | a2/route_manager.py:39 | one more row grows its key's group in place, or appends a new group of one |
| RouteQueries.BumpCounts | a2/route_manager.py:39 | one more row keeps the groups exact: distinct keys, each sized by its number of rows, every key present |
| RouteQueries.TallyCounts | a2/route_manager.py:39 | `groupby(...).size()` has one group per distinct key, sized by its number of rows (never zero), and every key has a group |
| RouteQueries.KeyLessOrder | a2/route_manager.py:39 | the order of key tuples is a strict total order |
| RouteQueries.RankedOrder | a2/route_manager.py:39 | ranking by size (descending, or ascending for question 2) then key is a strict total order on groups |
| RouteQueries.TripOrder | a2/route_manager.py:137 | ranking routes by difference descending, then destination code, then origin code, is a strict total order |
| RouteQueries.InsertSorted | a2/route_manager.py:39 | inserting into a sorted sequence keeps it sorted and adds exactly the new element |
| RouteQueries.InsertBehind | a2/route_manager.py:39 | an element ranked after the first goes after it, and the result is sorted |
| RouteQueries.InsertAhead | a2/route_manager.py:39 | an element that the first does not rank before goes in front, and the result is sorted |
| RouteQueries.SortSpec | a2/route_manager.py:39 | `sort_values` gives the same rows in rank order |
| RouteQueries.TopSpec | a2/route_manager.py:39 | `head(n)` of the sorted groups: at most `n` groups, each a key of the rows with its true count, in strict rank order; a key is left out only when all `n` places are taken by groups ranked before it |
| RouteQueries.SortedGroups | a2/route_manager.py:39 | all groups sorted: each a key with its count, every key present, strictly ranked |
| RouteQueries.SortedMembers | a2/route_manager.py:39 | the sorted groups are the counted groups |
| RouteQueries.SortedRanked | a2/route_manager.py:39 | sorted groups with distinct keys are strictly ranked |
| RouteQueries.SortDistinct | a2/route_manager.py:39 | two places of the sorted groups hold different groups |
| RouteQueries.AtMostOnce | a2/route_manager.py:39 | groups with distinct keys occur at most once each |
| RouteQueries.FoundWidth | a2/route_manager.py:83-86 | every group key of question 3 has its four columns |
| RouteQueries.AnswerFits | a2/route_manager.py:291-304 | each question hands `process_data` an answer with the columns its rows are written from |
| RouteQueries.GroupRows | a2/route_manager.py:202-221 | one CSV row per group |
| RouteQueries.TripRows | a2/route_manager.py:225-228 | one CSV row per route |
| RouteQueries.ProcessData | a2/route_manager.py:187-228 | the file is the header, one row per group in the question's format, and for "q5" the first ten routes `clear_duplicates` leaves |
| RouteQueries.WriteRoutes | a2/route_manager.py:223-228 | the first ten distinct routes are written, or `IndexError` when fewer than ten remain |
| RouteQueries.GroupedCsv | a2/route_manager.py:15-107 | "q1" to "q4" write the header and one row per top group, never more than the question's cap (20, 30, 10, 15) |
| RouteQueries.RoutesCsv | a2/route_manager.py:109-138 | "q5" writes ten rows of distinct routes (in neither direction repeated), in rank order, or raises `IndexError` exactly when fewer than ten remain |
| RouteQueries.OtherCsv | a2/route_manager.py:223-228 | any other question is answered as question 5 but writes only the header |
| Text.DigitChar | a3/route_manager.c:309-321 | the character printed for a decimal digit is that digit |
| Text.DigitValue | a3/route_manager.c:309-321 | reading a digit character gives the digit it prints as |
| Text.NatToStringRoundTrip | a3/route_manager.c:309-321 | `%d` of a non-negative number is non-empty decimal digits with no leading zero, and reads back as the number |
| Text.IntToStringRoundTrip | a3/route_manager.c:309-321 | `%d` (and Python's `str` of an int) is a minus sign exactly for negative numbers followed by digits, and reads back as the number |
| Text.StrLessTotal | a3/list.c:153-155 | `strcmp(a, b) < 0` is never true both ways nor for equal strings, and one way holds for any two different strings |
| Text.StrLessTrans | a3/list.c:153-155 | `strcmp` order is transitive |
| Text.RepeatLength | a4/a43/a43.py:229 | `TAB * tabs` is four characters per positive tab and empty for zero or fewer |
| Text.LStripSpec | a2/route_manager.py:184 | `lstrip()` removes exactly the leading whitespace: the result is a suffix with no whitespace in front, and every removed character is whitespace |
| Text.LStripPrefix | a2/route_manager.py:184 | stripping whitespace followed by text that starts with a non-space gives that text |
| Text.IndexOf | a1/route_manager.c:63 | the `%[^=]` scan stops at the first `=`: the position returned holds the character (or is the length when there is none) and no earlier position holds it |
| Text.IndexOfAt | a1/route_manager.c:63 | a position holding the character with none before it is where the scan stops |
| Svg.PlainAvoids | a4/a43/a43.py:62-63 | a printed number holds no comma and no double quote |
| Svg.NumTextRoundTrip | a4/a43/a43.py:27-31 | `str()` of an int or a float rounded to one decimal holds only digits, a minus sign and a point, and reads back as the same number |
| Svg.IntTextRoundTrip | a4/a43/a43.py:30 | `str()` of an int reads back as that int |
| Svg.TenthsTextRoundTrip | a4/a43/a43.py:31 | `str()` of a one-decimal float reads back as that float |
| Svg.PointRoundTrip | a4/a43/a43.py:31 | a float printed from its sign, whole part and tenths digit reads back as the value they make up |
| Svg.PositivePoint | a4/a43/a43.py:31 | a non-negative one-decimal float reads back as its tenths |
| Svg.NegativePoint | a4/a43/a43.py:31 | a negative one-decimal float reads back as its tenths |
| Svg.WholeTextPlain | a4/a43/a43.py:31 | the part of a float before its point is a sign and digits |
| Svg.PointPlain | a4/a43/a43.py:31 | a sign and digits, a point and one digit hold nothing else |
| Svg.CutAtPoint | a4/a43/a43.py:31 | text with no point before its point reads as a float from its two sides |
| Svg.ReadPositivePoint | a4/a43/a43.py:31 | digits, a point and a digit read as ten times the whole plus the tenth |
| Svg.ReadNegativePoint | a4/a43/a43.py:31 | a minus sign, digits, a point and a digit read as the negated value |
| Svg.NumValue | a4/a43/a43.py:62-63 | a printed number can stand between double quotes and reads back as itself |
| Svg.SplitOn | a4/a43/a43.py:62-63 | cutting text at a character gives at least one part |
| Svg.SplitJoin | a4/a43/a43.py:62-63 | cutting at a separator undoes joining on it when no part holds it |
| Svg.JoinOnAvoids | a4/a43/a43.py:39-40 | a character in none of the parts and not the separator is not in their join |
| Svg.ColorRoundTrip | a4/a43/a43.py:39-40 | `rgb(R, G, B)` reads back as the same color and holds no double quote |
| Svg.RgbParts | a4/a43/a43.py:39-40 | `rgb(a, b, c)` cut at its commas gives back `a`, ` b` and ` c` |
| Svg.FiveValues | a4/a43/a43.py:105-107 | an element with five quoted values and no double quote in its texts or values (the circle of a41.py:30-33 and of a43.py:105-107) cuts at its quotes back into those texts and values |
| Svg.SixValues | a4/a43/a43.py:60-63 | an element with six quoted values and no double quote in its texts or values (the ellipse and the rectangle of a43.py:60-63 and 83-86) cuts at its quotes back into those texts and values |
| Svg.QuotedParts | a4/a43/a43.py:107 | an element cut at its double quotes gives back the text around and between them |
| Html.LineSpec | a4/a43/a43.py:227-230 | a line is four spaces per positive tab followed by the content; stripping the indent gives back content that does not start with a space |
| Html.Indents | a4/a43/a43.py:229-230 | zero, one and two tabs indent by nothing, four and eight spaces |
| Html.RepeatSpaces | a4/a43/a43.py:211 | the indent is spaces only |
| Html.HtmlDocument.constructor | a4/a43/a43.py:213-217 | a new document has zero tabs, is open and holds the preamble: `<html>`, `<head>`, the title one tab in, `</head>` |
| Html.HtmlDocument.IncreaseIndent | a4/a43/a43.py:219-221 | one more tab; nothing is written |
| Html.HtmlDocument.DecreaseIndent | a4/a43/a43.py:223-225 | one tab fewer, with no lower bound; nothing is written |
| Html.HtmlDocument.Append | a4/a43/a43.py:227-230 | the content is written as the next line, behind the current indent |
| Html.HtmlDocument.WriteHead | a4/a43/a43.py:232-239 | the `<html>` and `<head>` lines, the title one tab further in, then `</head>`; the tab count ends where it started |
| Html.HtmlDocument.CloseDocument | a4/a43/a43.py:241-244 | `</html>` is the last line and the file is closed |
| Html.HtmlDocument.WriteComment | a4/a43/a43.py:246-248 | the comment is written as `<!--comment-->` |
| Html.HtmlDocument.OpenBodyScope | a4/a43/a43.py:250-253 | `<body>` at the current indent, then one tab further in |
| Html.HtmlDocument.CloseBodyScope | a4/a43/a43.py:255-258 | one tab back out, then `</body>` |
| Html.HtmlDocument.OpenSvgScope | a4/a43/a43.py:260-264 | the drawing-box comment and `<svg width="W" height="H">` at the current indent, then one tab further in |
| Html.HtmlDocument.CloseSvgScope | a4/a43/a43.py:266-269 | one tab back out, then `</svg>` |
| Html.OpenDrawing | a4/a43/a43.py:288-290 | a new document with the body and a drawing box of the given size opened holds the preamble and those lines, two tabs in |
| Html.CloseDrawing | a4/a43/a43.py:297-299 | closing the drawing box, the body and the document adds `</svg>`, `</body>` and `</html>` and leaves zero tabs |
| FixedArt.SvgElementRoundTrip | a4/a41/a41.py:30-33 | a circle element cut at its quotes gives its parts (with `fill-opacity=` glued to the closing quote of `fill`) and reads back as the same circle |
| FixedArt.CircleFields | a4/a41/a41.py:30-33 | the eleven parts of a circle element read back as the circle |
| FixedArt.CircleCount.constructor | a4/a41/a41.py:15 | the circle count starts at zero |
| FixedArt.NewCircle | a4/a41/a41.py:22-28 | a new circle holds the given values and the circle count grows by one |
| FixedArt.FigureLayout | a4/a41/a41.py:102-111 | the figure is ten circles of radius 50 and opacity 1.0: five red ones at y 50 and five blue ones at y 250, at x 50 to 450 in steps of 100 |
| FixedArt.FigureFits | a4/a41/a41.py:102-111 | every circle lies inside the 500 by 300 drawing box, and no two circles overlap |
| FixedArt.IndentedTen | a4/a41/a41.py:113-122 | ten indented lines, written out one by one |
| FixedArt.AppendTen | a4/a41/a41.py:113-122 | ten appends in a row add the ten lines in order |
| FixedArt.ArtLinesRead | a4/a41/a41.py:113-122 | the ten lines `gen_art` writes, their indent stripped, read back as the ten circles of the figure in order |
| FixedArt.GenArt | a4/a41/a41.py:100-122 | ten circle lines of the figure are appended at the current indent, the indent and title are kept, and the circle count grows by ten |
| FixedArt.DrawArt | a4/a41/a41.py:124-131 | the file is the preamble, the body and the 500 by 300 drawing box, the ten circle lines two tabs in, and the closing lines; ten circles were counted |
| RandomArt.KindNamedSpec | a4/a43/a43.py:6-10 | looking a kind up by its name succeeds exactly for the three names `CIRCLE`, `RECTANGLE` and `ELLIPSE`, and gives the kind of that name |
| RandomArt.GetRandom | a4/a43/a43.py:27-31 | a value is returned exactly when the range can be sampled (int bounds in order, or any float bounds); an int range gives an int between its bounds, both included, and any other range a one-decimal float between the smaller and the larger bound |
| RandomArt.SvgElementRoundTrip | a4/a43/a43.py:60-63 | every shape's element reads back as the same shape; the `fill=` attribute has a space in front of it only in the circle element |
| RandomArt.CircleRoundTrip | a4/a43/a43.py:105-107 | a circle element cut at its quotes gives its eleven parts and reads back as the same circle |
| RandomArt.RectangleRoundTrip | a4/a43/a43.py:83-86 | a rectangle element cut at its quotes gives its thirteen parts (with `fill=` glued to the closing quote of `height`) and reads back as the same rectangle |
| RandomArt.EllipseRoundTrip | a4/a43/a43.py:60-63 | an ellipse element cut at its quotes gives its thirteen parts (with `fill=` glued to the closing quote of `ry`) and reads back as the same ellipse |
| RandomArt.CircleFields | a4/a43/a43.py:105-107 | the parts of a circle element whose values read as the circle's read back as that circle |
| RandomArt.RectangleFields | a4/a43/a43.py:83-86 | the parts of a rectangle element whose values read as the rectangle's read back as that rectangle |
| RandomArt.EllipseFields | a4/a43/a43.py:60-63 | the parts of an ellipse element whose values read as the ellipse's read back as that ellipse |
| RandomArt.AllDrawnSpec | a4/a43/a43.py:154-167 | a run of shapes was all drawn from the configuration exactly when each of its shapes was |
| RandomArt.Registry.constructor | a4/a43/a43.py:44 | the counters start with `CNT` at -1 and `ccnt`, `rcnt` and `ecnt` at zero (also a4/a43/a43.py:67, 90 and 147) |
| RandomArt.NewCircle | a4/a43/a43.py:97-103 | a new circle holds the given values; `ccnt` grows by one and no other counter changes |
| RandomArt.NewRectangle | a4/a43/a43.py:74-81 | a new rectangle holds the given values; `rcnt` grows by one and no other counter changes |
| RandomArt.NewEllipse | a4/a43/a43.py:51-58 | a new ellipse holds the given values; `ecnt` grows by one and no other counter changes |
| RandomArt.NewRandomShape | a4/a43/a43.py:154-167 | `CNT` grows by one even when construction then raises; a shape is always returned when there is a name to choose, every name is a kind and every range can be sampled; a returned shape's kind is one of the configured names and each of its values lies in its range |
| RandomArt.AsSvg | a4/a43/a43.py:191-204 | the element of the shape of the sample's kind, built from `X`, `Y` and `RAD` for a circle, `W` and `H` for a rectangle, `RX` and `RY` for an ellipse; that kind's counter grows by one and `CNT` is unchanged |
| RandomArt.SvgLinesAppend | a4/a43/a43.py:273-275 | the lines of two runs of shapes are the lines of the first run followed by those of the second |
| RandomArt.LinesExtend | a4/a43/a43.py:273-275 | appending one more shape's line to a document extends the lines of the run by that shape |
| RandomArt.SvgLinesFit | a4/a43/a43.py:273-275 | one line per shape drawn, and each line, its indent stripped, reads back as a shape of the drawn kind whose values lie in the configured ranges |
| RandomArt.LineReads | a4/a43/a43.py:227-230 | a written element line, its indent stripped, reads back as its shape |
| RandomArt.ShapeOfFits | a4/a43/a43.py:191-204 | the shape built from a drawn sample is of the sampled kind and its values lie in their ranges |
| RandomArt.ElementStart | a4/a43/a43.py:60-107 | every element starts with `<`, so stripping an indent never eats into it |
| RandomArt.CountsAddUp | a4/a43/a43.py:191-204 | every drawn shape is counted in exactly one of the three kinds |
| RandomArt.DrawOne | a4/a43/a43.py:274-275 | one loop pass: `CNT` grows by one; either a drawn shape's line is appended and its kind's counter grows by one, or construction raised because the configuration cannot be drawn from and nothing is written |
| RandomArt.GenArt | a4/a43/a43.py:271-275 | the lines of the shapes drawn are appended in order at the current indent; all `number` shapes are drawn unless the configuration cannot be drawn from, when the loop stops at the first shape whose construction raises; `CNT` counts every shape begun and each kind's counter counts the drawn shapes of that kind |
| RandomArt.DrawArt | a4/a43/a43.py:287-299 | the file is the preamble, the body and the 500 by 300 drawing box, 800 drawn shape lines two tabs in, and the closing lines; every shape is drawn from the main configuration, `CNT` ends at 799 and the three kind counters add up to 800 |

## Left out

- File I/O, `argv` and `argc` become parameters and results. Opening, closing and failing to open files is not modelled. For `a1`, a missing input file reads as an empty one.
- In `a2`, the frames of `df_lstrip` and `column_diff` are two-dimensional arrays of cells, and the frames of the queries are sequences of records. pandas itself is not part of this model, and neither is its index handling.
- The `a2` graphs are not modelled: the `GRAPH_TYPE` argument, `matplotlib` plotting and the PDF output. The `yaml` loading of the three input files is not modelled either; the model starts from the loaded records.
- Floating point: `a43`'s floats are modelled as numbers of tenths, the value `round(x, 1)` can take. Python's `repr` of floats other than `d.d` forms (`-0.0`, exponent notation) is not modelled. `a2`'s altitudes are integers printed with `.0`.
- RandomArt.GetRandom: only the bounds of `randint` and `uniform` are stated. The distribution is not modelled.
- `gen_random_table`, `as_Part2_line`, the `__str__` dumps of the configuration and of `RandomShape`, `ShapeKind.__str__` and the `get_*_count` class methods only print or read values. They are not modelled.
- `peek_front`, `delete_node` and `free` in `a3/list.c` are not modelled. Memory is never reclaimed in the model.
- `analysis`, `print_node` and `inccounter` in `a3/route_manager.c` are debugging helpers that only print; no caller reaches them, and they are not modelled.
- The 1024-character line buffer that `fgets` fills in `a1` and `a3` is not modelled. A longer line is one line in the model, where the source reads it in pieces.
- Html.HtmlDocument.Append: requires the document to be open. Writing to a closed Python file raises, and no caller does so.
- RandomArt.GenArt: an exception raised while a shape is built stops the loop. It is modelled as the `failed` result rather than as propagation to `main`.
- RouteStats.Strpchr: requires that at least one character is dropped. The buffer is `strlen(str)` characters long and has no room for the terminating NUL otherwise, which overruns it.
- RouteStats.StoreLine, RouteStats.ProcessFile, RouteStats.CountRecords, RouteStats.ReadRecord, RouteStats.Aggregate and RouteStats.Records: require every record line to have a `:` with a value after it, from which `strpchr` drops a character. Without the colon, `strchr` returns NULL and the program dereferences it.
- RouteStats.Question1: on a match `question1` frees the record with `delete_node(data)` (`a3/route_manager.c:213`) but the loop goes on, and at every later node it compares `data->airline_name` again (`a3/route_manager.c:210`). That reads the freed record, which is undefined behaviour whenever the matched node is not the last one. The model gives the intended count for that input: the matching node is bumped once and the record is dropped. Freeing is not modelled. Keys in the list are unique, so at most one node matches.
- RouteStats.Question2: on a match `question2` frees the record with `delete_node(data)` (`a3/route_manager.c:246`) but the loop goes on, and at every later node it compares `data->to_airport_country` again (`a3/route_manager.c:243`). That reads the freed record, which is undefined behaviour whenever the matched node is not the last one. The model gives the intended count for that input: the matching node is decremented once and the record is dropped. Freeing is not modelled. Keys in the list are unique, so at most one node matches.
- RouteStats.Question3: on a match `question3` frees the record with `delete_node(data)` (`a3/route_manager.c:276`) but the loop goes on, and at every later node it compares `data->to_airport_name` again (`a3/route_manager.c:273`). That reads the freed record, which is undefined behaviour whenever the matched node is not the last one. The model gives the intended count for that input: the matching node is bumped once and the record is dropped. Freeing is not modelled. Keys in the list are unique, so at most one node matches.
- RouteStats.StoreColumnVal, RouteStats.StoreLine, RouteStats.ReadRecord, RouteStats.CountRecords, RouteStats.Aggregate and RouteStats.ProcessFile: each of the node's eleven strings is a 100-byte buffer (`a3/list.c:15`, `a3/list.c:33-43`) that `store_column_val` fills with `strcpy` (`a3/route_manager.c:157-187`) from a line of up to 1024 bytes. A value of 100 characters or more overflows its buffer in the source. The model stores such values whole.
- LinkedList.RemoveFront: requires a non-empty list. The source's NULL branch passes NULL to `delete_node`, which dereferences it.
- RouteFilter.ProcessFile, RouteFilter.Run and RouteFilter.ExtractLineData: require every field that lands in a column to fit its 100-character buffer with its NUL, and no NUL inside a line. A longer field overflows the buffer in the source.
- RouteFilter.ExtractArgs, RouteFilter.ArgsRead and RouteFilter.Run: command-line keys and values are unbounded strings. The source scans them into `char entry[100]` and `char val[100]` and copies the value into a `char[100]` member, so a key or value of 100 characters or more overflows those buffers. The model gives that input a defined result instead.
- RouteFilter.SpliceCopy: requires the copied field to fit the buffer, for the same reason.
- DataFrames.ColumnDiff: requires both input columns to hold integers in every row, because the model reads only integer cells. Python's `float()` also accepts decimal and exponent forms, underscores, surrounding whitespace, `nan` and `inf`, and a missing cell gives NaN; none of these is modelled. The altitude columns hold integers.
- The `a2` question 5 with fewer than ten distinct routes raises `IndexError`. The model returns that outcome and writes no rows.
