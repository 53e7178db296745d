# Variant-file utilities: rank-score reporter, INFO filter and two-file variant diff

This project models the core of `python_utils.py`, a set of command-line helpers over
variant-call-format (VCF) files, and proves properties of the model in Dafny:

- **Rank-score reporter** (`print_rankscore` with `print_helper`). It checks the
  comparison mode and parses the optional column list. On the first record it prints a
  header. For each record it then reads the rank score, which is the text between the first
  and second `:` of the first `RankScore` INFO value. When a rank model is given it also
  reads the `|`-separated integer subscores of `RankResult`. Each record whose score stands
  in the chosen relation to the threshold is printed, and the scan stops once the printed
  count exceeds `head`.
- **INFO filter** (`filter_info`). It prints the records whose first value of an INFO
  field, after a preparser, equals the threshold (`equal`) or is numerically `>=`
  (`greater`) or `<=` (`less`) it. In debug mode it instead prints the first record's raw
  value and the number of records that lack the field.
- **Variant diff** (`make_recs_dict`, `snv_diff`). It keys each file's records by
  `chrom:pos:alt1/alt2/...`, keeping the last record per key. It then reports the keys found
  in only one file, either as two counts or as the records themselves.

Layout, one module per file:

- `wrappers.dfy`: `Option` and `Result`.
- `strings.dfy`: Python's `str.split`, `str.join` and `str(int)`, with their round trips.
- `variants.dfy`: the record as the variant-file reader hands it out, the exceptions a run
  can end with, Python indexing and the variant key.
- `rank_score.dfy`, `info_filter.dfy`, `snv_diff.dfy`: the three tools.

Each Python loop is a Dafny `method` with a `while` loop. It is proved equal to a
specification function that folds one record's step over the records read so far. Lemmas
relate that fold to declarative reference definitions: the matching records, the first
`head + 1` of them, the count of records missing a field, and the last record per key.

Python prints as it goes, and an uncaught exception ends the run after whatever was
already printed. A run is therefore modelled as the lines printed so far plus the optional
exception that ended it. Lines are kept structured: header cells, a record, a row of cells
or a score. How they are turned into text is not modelled.

Behaviour of the code worth noting, which the model reproduces:

- In the filter, `info_val[0]` raises on an empty value tuple, so an empty value list ends
  the run with `EmptyInfo`; it is not counted as missing.
- In the filter's `greater` and `less` modes only the record's value is tried inside the
  `try`. The threshold is converted afterwards, outside it, so a threshold that is not a
  number raises `NotAFloat` as soon as a numeric value reaches it.
- In the reporter, a record without `RankScore`, or without `RankResult` when a rank model
  is given, raises (indexing `None`), so the run ends with `MissingInfo`.
- The reporter reads the score before it compares, so a record with an unreadable score
  ends the run even when it would not have matched.
- `greaterorequal` and `lessorequal` pass the filter's mode assertion but have no branch,
  so they print no record (`InfoFilter.OrEqualModesPrintNoRecord`).
- The reporter tests its counter after printing, so up to `head + 1` records are printed.

## Model

| member | source | states |
|---|---|---|
| Strings.Join | python_utils.py:211 | `sep.join(xs)`: no pieces give the empty string, two or more pieces put the separator in the result, and the result starts with the first piece |
| Strings.Split | python_utils.py:60 | `str.split` with a one-character separator: at least one piece; exactly one piece iff the separator is absent; no piece holds the separator; the pieces joined back give the input |
| Strings.SplitJoin | python_utils.py:211 | splitting the `/`- or `:`-join of pieces that are free of the separator gives the pieces back |
| Strings.SplitAfterHead | python_utils.py:60 | a separator-free head followed by the separator splits into the head, then the pieces of the rest |
| Strings.NatToString | python_utils.py:211 | `str(pos)` is a nonempty run of decimal digits with no leading zero |
| Strings.DecimalValueOfNatToString | python_utils.py:211 | the digits written for a position read back as that position |
| Strings.NatToStringInjective | python_utils.py:211 | different positions print differently |
| Strings.IntToString | python_utils.py:120 | `str(score)` for a subscore starts with `-` exactly when it is negative |
| Strings.IntToStringInjective | python_utils.py:120 | different subscores print differently |
| Variants.FirstInfo | python_utils.py:59 | the first value of an INFO key is found iff the key is present with a nonempty value list, giving its first value; an absent key fails with `MissingInfo`, an empty list with `EmptyInfo` |
| Variants.PyIndex | python_utils.py:46 | Python indexing: defined iff `-len <= i < len`; a negative index counts from the end |
| Variants.Select | python_utils.py:116 | picking fields by a column list succeeds iff every column is in range; the result has one entry per column, each the indexed field; a failure names an out-of-range column from the list |
| Variants.ParseInts | python_utils.py:65 | reading a list of texts as integers succeeds iff every text parses; the result is the texts' values in order; a failure names a text of the list that does not parse |
| Variants.Key | python_utils.py:211 | the variant key: chromosome, `str(pos)` and the `/`-joined alternate alleles, separated by colons; it starts with the chromosome and a colon |
| Variants.KeyParts | python_utils.py:211 | for well-formed alleles the key splits on `:` back into chromosome, position text and joined alleles |
| Variants.KeyIdentifiesVariant | python_utils.py:211 | for well-formed alleles two records have the same key iff they have the same chromosome, position and alternate alleles |
| RankScore.ParseComparison | python_utils.py:18-25 | the mode assertion passes iff the mode is one of the five names or None, and the parsed mode is the one named |
| RankScore.ParseColumns | python_utils.py:27-29 | no column list gives None; otherwise the comma-separated pieces are parsed in order, or the run fails with `NotAnInteger` on a piece that does not parse |
| RankScore.HeaderLines | python_utils.py:41-57 | at most one line, a header: all header fields in full mode; in column mode the selected fields (failing iff a column is out of range), then "RankScore", then the categories; "RankScore" and the categories in score-only mode with a rank model; nothing otherwise |
| RankScore.RankScoreOf | python_utils.py:59-60 | a missing or empty `RankScore` propagates its failure; the read fails with `NoScoreSeparator` iff the first value has no `:`; otherwise the score is `float` of the second `:`-separated piece, or `NotAFloat` of that piece |
| RankScore.RankScoreOfEncoded | python_utils.py:59-60 | a value `prefix:text` with colon-free parts yields `float(text)`, or `NotAFloat(text)` |
| RankScore.RankScoreOfSegments | python_utils.py:59-60 | a value `prefix:text:tail` with colon-free prefix and text yields `float(text)`, or `NotAFloat(text)`, whatever the tail holds |
| RankScore.SubscoresOf | python_utils.py:64-65 | a missing or empty `RankResult` propagates its failure; otherwise the read succeeds iff every pipe-separated piece of the first value parses, the subscores are those pieces' values in order, and a failure is `NotAnInteger` of one of the pieces |
| RankScore.OptionalSubscores | python_utils.py:62-65 | subscores are read only when a rank model is given, and then fail exactly when reading them fails |
| RankScore.Holds | python_utils.py:67-96 | the relation of each mode: `==`, `>`, `<`, `<=`, `>=`, and always true for no mode |
| RankScore.Render | python_utils.py:102-127 | full mode prints the record; column mode prints the selected fields, then `str(score)`, then the subscores as text, `len(columns) + 1 + len(subscores)` cells, failing iff a column is out of range; otherwise the score list or the bare score |
| RankScore.Examine | python_utils.py:59-96 | one record's turn: a score read failure ends it with that error first, then a subscore failure; on success it yields a line iff the score satisfies the mode's relation, and that line is `print_helper`'s |
| RankScore.Advance | python_utils.py:41-99 | one running turn given its header and record results: a header failure or record failure stops the loop with that error after the lines already printed; otherwise the header and the record's line are appended, the line is counted, and the loop stops once the count exceeds `head`; the contract states that the turn only appends lines, and `RankScore.AdvanceTallied` the counting |
| RankScore.Step | python_utils.py:39-99 | one record's turn only appends to the lines already printed; a stopped loop is left unchanged and the header is built on the first turn only (`RankScore.ScanStopped`, `RankScore.FirstStep`) |
| RankScore.Scan | python_utils.py:39-99 | the loop's state after a prefix of the records; its meaning is given by `RankScore.ScanOfCleanRecords`, `RankScore.ScanCounts` and `RankScore.ScanStopped` |
| RankScore.Report | python_utils.py:9-99 | an invalid mode ends the run with `InvalidMode` before anything is printed; an unparsable column list ends it with that error before anything is printed; otherwise the loop's lines and ending exception |
| RankScore.ScanOnlyAppends | python_utils.py:39-99 | printed lines are never taken back: the output after some records is a prefix of the output after more |
| RankScore.ScanStopped | python_utils.py:98-99 | after the `break` or an exception, later records change nothing |
| RankScore.ScanCounts | python_utils.py:35-99 | for every input: a header line can only be the first line, every other line is a record's and is counted, the count never exceeds `max(head, 0) + 1`, and a running scan has printed at most `max(head, 0)` |
| RankScore.AdvanceTallied | python_utils.py:41-99 | one running turn keeps that bookkeeping, given a header of at most one line only on the first turn |
| RankScore.ExaminedLineIsRecordLine | python_utils.py:102-127 | the line printed for a record is never a header line |
| RankScore.ExamineClean | python_utils.py:59-96 | for a record that raises nothing, its turn prints its line exactly when its score satisfies the mode's relation |
| RankScore.ScanOfCleanRecords | python_utils.py:39-99 | with `head >= 0` and records that raise nothing: the header, then the first `head + 1` matching records in file order (all of them if fewer), and the loop has stopped iff more than `head` match |
| RankScore.CleanFirst | python_utils.py:41-99 | the first record's turn prints the header, then the record's line if it matches |
| RankScore.SelectedOne | python_utils.py:59-96 | a single record that raises nothing contributes exactly the line its turn prints |
| RankScore.FirstStep | python_utils.py:41-99 | the first turn, when neither the header nor the record raises, prints the header then the record's line if any, and counts it |
| RankScore.CleanStep | python_utils.py:67-99 | each later record's turn appends its line if it matches and the limit has not been passed |
| RankScore.LaterRecordsIgnored | python_utils.py:98-99 | once more than `head` records have matched, appending any records, even ones that would raise, changes nothing |
| RankScore.UnreadableScoreEndsRun | python_utils.py:59-60 | a record whose score cannot be read ends the run with that error whether or not it would match, after the lines printed before it; a colon-free value gives `NoScoreSeparator` |
| RankScore.NegativeHeadReadsOneRecord | python_utils.py:98-99 | with a negative `head` only the first record is read, and at most two lines are printed |
| RankScore.SelectedInFullMode | python_utils.py:112-113 | in full mode the printed record lines are exactly the matching records, in order |
| RankScore.ReportOfCleanRecords | python_utils.py:9-99 | the whole reporter, for a valid mode and column list, `head >= 0` and records that raise nothing: the header, then the first `head + 1` matching records, and no exception |
| RankScore.VisitRecord | python_utils.py:41-99 | one pass of the loop body computes the next loop state |
| RankScore.ScanRecords | python_utils.py:38-99 | the record loop, with its `break`, reaches exactly the state `Scan` gives for the records |
| RankScore.PrintRankscore | python_utils.py:9-99 | the method's run equals `Report`: the same lines and the same ending exception |
| InfoFilter.ParseMode | python_utils.py:138-144 | the mode assertion passes iff the mode is one of the five names, and the parsed mode is the one named |
| InfoFilter.Decide | python_utils.py:158-178 | the comparison keeps a value iff it equals the threshold (`equal`), or both sides are numbers and value `>=` threshold (`greater`) or value `<=` threshold (`less`); it raises `NotAFloat(threshold)` iff the mode is numeric, the value is a number and the threshold is not |
| InfoFilter.Satisfies | python_utils.py:158-178 | the relation a preparsed value must stand in: text equality (`equal`), numeric `>=` (`greater`), numeric `<=` (`less`), none for the or-equal modes; `InfoFilter.Decide` keeps a value exactly when it holds |
| InfoFilter.Passes | python_utils.py:150-178 | a record passes iff its field is present with a value whose preparsed first entry satisfies the relation; `InfoFilter.JudgePasses` and `InfoFilter.ScanPrintsKept` tie it to the loop |
| InfoFilter.Judge | python_utils.py:150-178 | an absent field is counted as missing; a present field raises iff its value list is empty (`EmptyInfo`) or the comparison raises |
| InfoFilter.JudgePasses | python_utils.py:156-178 | a record that raises nothing is kept iff it passes the declarative filter |
| InfoFilter.Step | python_utils.py:149-180 | one record's turn only appends to the lines already printed: the raw value in debug mode on the first record, then the record's line when it is kept outside debug mode |
| InfoFilter.Scan | python_utils.py:149-180 | the loop's state after a prefix of the records; its meaning is given by `InfoFilter.ScanCountsMissing`, `InfoFilter.ScanPrintsKept` and `InfoFilter.DebugPrintsOnlyFirstValue` |
| InfoFilter.Report | python_utils.py:130-183 | an invalid mode ends the run with `InvalidMode` before anything is printed; in debug mode a run without exception ends with the missing count |
| InfoFilter.ScanOnlyAppends | python_utils.py:149-180 | printed lines are never taken back: the output after some records is a prefix of the output after more |
| InfoFilter.ScanFailed | python_utils.py:149-180 | after an exception, later records change nothing |
| InfoFilter.ScanCountsMissing | python_utils.py:148-154 | while nothing has raised, `nbr_missing` is the number of records read that lack the field |
| InfoFilter.ScanPrintsKept | python_utils.py:156-178 | outside debug mode, when nothing raises, the printed lines are exactly the passing records in file order |
| InfoFilter.DebugPrintsOnlyFirstValue | python_utils.py:150-152 | in debug mode the loop prints only the first record's raw value, whatever the input |
| InfoFilter.OrEqualModesPrintNoRecord | python_utils.py:158-178 | `greaterorequal` and `lessorequal` print no record for any input, and can only raise `EmptyInfo` |
| InfoFilter.ScanFailures | python_utils.py:156-171 | the only exceptions are an empty value list, or a threshold that is not a number in a numeric mode |
| InfoFilter.EmptyValueEndsRun | python_utils.py:156 | a record whose field has no value ends the run with `EmptyInfo` when reached, after the lines printed before it |
| InfoFilter.ReportPrintsKept | python_utils.py:130-183 | the whole filter outside debug mode, when nothing raises: the passing records, nothing else |
| InfoFilter.ReportInDebugMode | python_utils.py:149-183 | the whole filter in debug mode, when nothing raises: the first record's raw value, then the count of records lacking the field |
| InfoFilter.VisitRecord | python_utils.py:150-180 | one pass of the loop body computes the next loop state |
| InfoFilter.FilterInfo | python_utils.py:130-183 | the method's run equals `Report`: the same lines and the same ending exception |
| SnvDiff.RecsDict | python_utils.py:207-213 | the dictionary after the records read so far: the last record read is always the one stored under its key; `SnvDiff.RecsDictKeys` and `SnvDiff.RecsDictLastWins` give the rest |
| SnvDiff.KeysOf | python_utils.py:207-213 | the set of the records' keys, holding every record's key; the reference that `SnvDiff.RecsDictKeys` and `SnvDiff.Diff` are stated against |
| SnvDiff.RecsDictKeys | python_utils.py:207-213 | the dictionary's keys are exactly the records' keys, each mapped to a record of the file with that key |
| SnvDiff.RecsDictLastWins | python_utils.py:210-212 | a record that no later record shares a key with is the one stored under its key |
| SnvDiff.MakeRecsDict | python_utils.py:207-213 | the loop builds exactly `RecsDict` of the records |
| SnvDiff.Only | python_utils.py:193-194 | the restriction of a dictionary to the keys missing from the other file |
| SnvDiff.Diff | python_utils.py:186-204 | the counts are the sizes of the two key-set differences; the listing holds, for each file, exactly its keys missing from the other file, each with the record the dictionary kept |
| SnvDiff.SnvDiff | python_utils.py:186-204 | building both dictionaries and differencing their keys gives `Diff` |
| SnvDiff.CountsDiffer | python_utils.py:193-197 | the two counts differ by the difference of the files' numbers of distinct keys |
| SnvDiff.CountsSwap | python_utils.py:193-197 | swapping the files swaps the counts |
| SnvDiff.ListingGroupsDisjoint | python_utils.py:193-204 | no key is listed under both files |
| SnvDiff.OnlyFirstMeansNoSameVariant | python_utils.py:193 | for well-formed alleles, a first-file record's key is only in the first file iff no second-file record has the same chromosome, position and alternate alleles |

## Left out

- Reading files: opening a variant file, iterating its records and extracting the header
  fields (the last header line, split on tabs) are done by the variant-file reader. The
  model takes the records as a sequence and the header fields as a parameter.
- A record's text line split on tabs is taken as the record's `fields`. A printed record
  is modelled as the record itself.
- The rank model is represented only by its ordered category names. Reading the model file
  is not modelled.
- `float(text)`, `int(text)` and `str(x)` for a float are parameters (a `Conversions`
  bundle), because Python's numeric syntax and float formatting are not modelled. Float
  rounding is not modelled: scores are exact reals.
- The reporter's threshold is declared `int` and compared with a float. It is modelled as
  a real, which covers every integer threshold.
- How lines are turned into text (`"\t".join`, the repr of a Python list, `print`'s line
  ending) is not modelled. Lines are kept as structured values.
- INFO values that are not sequences of strings are not modelled: scalar, flag and numeric
  values are outside the model, and `info` maps a key to a list of strings. A record with no
  alternate allele (`alts` is `None` in the reader) is not modelled either, because `alts`
  is a list here.
- The preparser passed to the filter is a total function. An exception it might raise is
  not modelled.
- SnvDiff.Diff: the listing of records per file is a map from key to record. The order in
  which Python iterates a set, which decides the printing order within each group, is not
  modelled.
- The `pdb` import and the commented-out breakpoint have no behaviour and are left out.
