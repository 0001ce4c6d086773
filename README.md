# CSV normaliser and partitioners for a marketing platform

A model of the core of `app.py`, a small web tool with three jobs. It
prepares a query-engine CSV export for a marketing-automation platform. It
can also split a large CSV into smaller files, either by row count or by a
byte budget.

Every job starts from an already decoded table: a header of column names
and rows of text cells, all the same width.

- **Normaliser** (`processar_csv_trino_para_marketing_cloud`, lines 33-111):
  - Finds the identifier (CPF) column: the first column whose stripped,
    lower-cased name is `cpf`, `documento`, `doc` or `cpf_cnpj`.
  - Strips every column name and renames that column to `CPF`.
  - Moves it to the front.
  - Rewrites each CPF cell: drop a trailing `.0…`, drop every non-digit,
    drop the row when 0 or more than 11 digits remain, pad to 11 with
    zeros.
  - Writes the result with `;` between fields and `\n` after each record.
- **Row-count partitioner** (`quebrar_excel_por_linhas`, lines 145-158):
  slices of `k` rows, named `<base>_1.csv`, `<base>_2.csv`, and so on.
- **Size-budget partitioner** (the loop of `quebrar_excel_por_tamanho`,
  lines 187-215):
  - Cuts chunks of the current rows-per-file estimate.
  - A chunk of more than one row whose file is over budget is cut again,
    once, with the estimate reduced to `int(est * 0.9)`.
  - The files are named `<base>_parte1.csv`, `<base>_parte2.csv`, and so
    on.

Modules, one per concern:

- `strings.dfy` (`Strings`): `str.strip`, lower-casing, character-class
  removal, `str(n)` and file names.
- `table.dfy` (`Tables`): the table, `Option`, the move-to-front
  permutation, flattening.
- `cpf_cell.dfy` (`CpfCell`): one CPF cell.
- `marketing_csv.dfy` (`MarketingCsv`): the `;`/LF dialect.
- `normalizer.dfy` (`Normalizer`): the column discovery loops, the
  pipeline, and the export.
- `row_partition.dfy` (`RowPartition`) and `size_partition.dfy`
  (`SizePartition`): the two partitioners.

The source's loops are methods proved against specification functions:

- the column search loops are `FindCpfColumn` and `RefindCpfColumn`;
- the CPF pass is `CleanCpfColumn`;
- the chunk-writing loop is `SplitByRows`;
- the size loop is `SplitBySize`.

The pure parts are functions with lemmas: the cell rewrite, the slicing
comprehension and the record formatting.

## Model

| member | source | states |
|---|---|---|
| Strings.Trim | app.py:38 | `str.strip()`: the result is a contiguous piece of the name, everything cut off is whitespace, and it neither starts nor ends with whitespace |
| Strings.TrimIdempotent | app.py:56-62 | stripping an already stripped name changes nothing, so the second search runs over the names the first one compared |
| Strings.Lower | app.py:38 | lower-casing keeps the length and lowers each character in place |
| Strings.LowerIdempotent | app.py:38 | lower-casing a lower-cased name changes nothing |
| Strings.Remove | app.py:84-86 | a character-class replace by "": no removed character is left, the result is no longer than the input, and a string without such characters is unchanged; with RemoveOne and RemoveAppend this determines the result |
| Strings.RemoveOne | app.py:84-86 | a single character is deleted when it is in the class and kept otherwise |
| Strings.RemoveAppend | app.py:84-86 | removal works piece by piece: removing from `a + b` is removing from `a` then from `b` |
| Strings.RemoveSubsumed | app.py:84-86 | removing a smaller class before a larger one makes no difference |
| Strings.NatToString | app.py:152 | `str(i)` is a non-empty digit string without a leading zero unless `i` is 0 |
| Strings.NatToStringRoundTrip | app.py:152 | the decimal value of `str(i)` is `i` |
| Strings.FileName | app.py:152 | a file name starts with the base and the infix, has at least one character after them, and ends in `.csv` |
| Strings.FileNameIndex | app.py:152 | what lies between the prefix and `.csv` is a digit string whose value is the index |
| Strings.FileNameInjective | app.py:152 | two names `<base><infix><i>.csv` built from the same base and infix are equal exactly when the indices are |
| Tables.MoveToFront | app.py:72-76 | `remove` then `insert(0, …)`: same length, the chosen element first, every other element in its original relative order |
| Tables.MoveToFrontPermutes | app.py:72-76 | the reorder is a permutation: the same multiset of elements |
| Tables.MoveToFrontFirst | app.py:71 | moving the first element to the front is the identity, so skipping the reorder when the column is already first is harmless |
| Tables.MoveColumnToFront | app.py:76 | `df[cols]` applies the header's permutation to every row |
| CpfCell.StripDecimalZeros | app.py:82 | `re.sub(r'\.0+$', '', s)`: when a dot followed only by one or more zeros ends the cell, the cell is cut at that dot; otherwise it is unchanged |
| CpfCell.CpfDigits | app.py:82-86 | after the three replaces only ASCII digits remain |
| CpfCell.SeparatorStepRedundant | app.py:84-86 | the dot/hyphen/space replace is subsumed by the non-digit replace: only its order relative to line 82 matters |
| CpfCell.ZFill | app.py:92 | `str.zfill(w)`: strings of width `w` or more are unchanged; shorter ones become exactly `w` long |
| CpfCell.ZFillDigits | app.py:92 | on a digit string zfill is left padding with zeros, and keeps the digits and their value |
| CpfCell.CleanCpf | app.py:82-92 | a cell survives exactly when 1 to 11 digits remain; a survivor is 11 ASCII digits, the remaining digits padded with zeros, with the same numeric value |
| CpfCell.DigitsSurvive | app.py:82-86 | a digit string passes all three replaces unchanged |
| CpfCell.CpfDigitsOfFloatRemnant | app.py:82-86 | digits, a dot and zeros keep only the digits before the dot; the digit filter alone would have kept the zeros |
| CpfCell.CleanCpfKeepsValid | app.py:82-92 | an 11-digit value is returned unchanged |
| CpfCell.CleanCpfIdempotent | app.py:82-92 | cleaning a cleaned value changes nothing |
| CpfCell.CleanCpfFloatExample | app.py:82-92 | `"1234567890.0"` becomes `"01234567890"` |
| CpfCell.CleanCpfShortFloatExample | app.py:82-92 | `"12.00"` becomes `"00000000012"` |
| CpfCell.RemoveFormattedSeparators | app.py:84 | in a `ddd.ddd.ddd-dd`-shaped value the separators go and the digit groups stay in order |
| CpfCell.CleanCpfPunctuationExample | app.py:82-92 | `"123.456.789-00"` becomes `"12345678900"`; its zeros follow a hyphen, so line 82 leaves them |
| CpfCell.CleanCpfDropExample | app.py:88-90 | `"99999999999999"` (14 digits) drops its row |
| MarketingCsv.DoubleQuotes | app.py:107 | a field without a quote character is unchanged by quote doubling; with DoubleQuotesOne and DoubleQuotesAppend the doubled field is fixed exactly |
| MarketingCsv.DoubleQuotesOne | app.py:107 | one character: a quote is written as two quotes, any other character as itself |
| MarketingCsv.DoubleQuotesAppend | app.py:107 | doubling works piece by piece, so every quote of a field is doubled and nothing else changes |
| MarketingCsv.UndoubleDoubleQuotes | app.py:107 | un-doubling recovers a field whose quotes were doubled |
| MarketingCsv.NeedsQuoting | app.py:108 | `csv.QUOTE_MINIMAL` quotes exactly the fields holding the delimiter `;`, the quote character, CR or LF |
| MarketingCsv.FormatField | app.py:101-111 | minimal quoting: a field without `;`, `"`, CR or LF is written verbatim; any other field is framed in quotes around its quote-doubled text (every `"` written twice) and reads back exactly |
| MarketingCsv.FormatRecord | app.py:104-106 | every record ends with the `\n` terminator |
| MarketingCsv.FormatPlainRecord | app.py:104-106 | a record of fields that need no quoting is its fields joined by `;`, then `\n` |
| MarketingCsv.SplitJoin | app.py:104 | splitting on the separator undoes joining when no field holds it |
| MarketingCsv.FormatPlainRecords | app.py:101-111 | records written verbatim make up the text line by line |
| MarketingCsv.Serialize | app.py:101-111 | the file is non-empty, ends with `\n` and starts with the header record |
| MarketingCsv.SerializePlain | app.py:101-111 | for unquoted content the file is the header and rows, each joined by `;`, joined by `\n`, with a final `\n` |
| MarketingCsv.SerializeRoundTrip | app.py:101-111 | for unquoted content the file is the header line and then one line per row, each its fields joined by `;` and ended by `\n`: reading it back by lines and by `;` gives header and rows again |
| MarketingCsv.SerializeOneRow | app.py:101-111 | a header of two plain names and one row of two plain cells are written as `a;b\n` and `c;d\n` |
| MarketingCsv.SerializeExample | app.py:101-111 | header `CPF`, `nome` and row `12345678900`, `Ana` give `CPF;nome\n12345678900;Ana\n` |
| Normalizer.FirstCpfUnique | app.py:36-40 | there is only one "first CPF name" of a header |
| Normalizer.FirstCpf | app.py:35-40 | the first column, left to right, whose name lower-cased is `cpf`, `documento`, `doc` or `cpf_cnpj`, or none when no column has such a name |
| Normalizer.IsCpfName | app.py:38 | a name is a CPF name when, lower-cased, it is `cpf`, `documento`, `doc` or `cpf_cnpj` |
| Normalizer.IsCpfNameIgnoresCase | app.py:38 | the test ignores case: a name and its lower-cased form are CPF names together |
| Normalizer.TrimAll | app.py:56 | `df.columns.str.strip()`: as many names as before, each one stripped in place |
| Normalizer.FindCpfColumn | app.py:36-40 | the loop with `break` over the raw header finds the first column whose stripped name is a CPF name, or none |
| Normalizer.RefindCpfColumn | app.py:58-62 | the loop over the stripped header finds the first CPF name, or none |
| Normalizer.FilterFirst | app.py:88-92 | the filtered table has no more rows than the input, and each row keeps a first cell |
| Normalizer.KeptBy | app.py:88-90 | the kept positions are in range, strictly increasing, and a row is among them exactly when its first cell is accepted |
| Normalizer.FilterFirstKeeps | app.py:88-92 | the output rows are exactly the accepted input rows, in their original order, with the first cell replaced by its cleaned value and every other cell unchanged |
| Normalizer.FilterFirstWidth | app.py:88-92 | filtering keeps the rows' width |
| Normalizer.FilterFirstAllAccepted | app.py:88-92 | when every first cell is accepted unchanged, the filter is the identity |
| Normalizer.CleanRowsValid | app.py:88-92 | every retained CPF is 11 ASCII digits |
| Normalizer.CleanRows | app.py:80-92 | the cleaned frame has no more rows than before, and every row still has its CPF cell |
| Normalizer.CleanCpfColumn | app.py:80-92 | the step-by-step pass (strip `.0…`, drop separators, drop non-digits, drop empty or long values, pad) equals the row filter on CleanCpf |
| Normalizer.ProcessTable | app.py:34-92 | the method that reassigns header and frame step by step computes Normalized |
| Normalizer.Normalized | app.py:34-92 | the normaliser fails only when it found a CPF column; on success the table is as wide as the input and has no more rows |
| Normalizer.NormalizedFound | app.py:63-76 | when the normaliser succeeds with a CPF column at `i` (which NormalizedFailsExactly shows is exactly the no-clash case), the result is the renamed, reordered header with the cleaned, reordered rows |
| Normalizer.NormalizedFailsExactly | app.py:63-92 | the normaliser fails exactly when it finds a CPF column and another column is already called `CPF`; otherwise it succeeds, whether the CPF column is first or must be moved |
| Normalizer.NormalizedShape | app.py:63-92 | without a CPF column only the names are stripped; with one the result is rectangular, as wide as the input, starts with `CPF`, holds only valid CPFs and has no more rows |
| Normalizer.NormalizedHeader | app.py:66-76 | the header is `CPF` followed by the other stripped names in their original order |
| Normalizer.NormalizedRows | app.py:72-92 | each output row is a kept input row: its first cell the cleaned CPF of that row, its other cells that row's other cells in the header's new order |
| Normalizer.NormalizedKeepsExactly | app.py:88-90 | an input row survives exactly when its CPF cleans |
| Normalizer.MoveToFrontDistinct | app.py:72-76 | the reorder keeps column names distinct |
| Normalizer.CanonicalIsCpfName | app.py:35 | `CPF` itself is one of the names the normaliser looks for |
| Normalizer.ReorderedHeader | app.py:66-76 | the new header is stripped and duplicate-free, and its only `CPF` is its first name |
| Normalizer.NormalizedHeaderCanonical | app.py:56-76 | the same for the normalised table's header |
| Normalizer.CleanRowsOfCanonical | app.py:80-92 | rows already starting with valid CPFs come through unchanged |
| Normalizer.NormalizedIdempotent | app.py:34-92 | normalising a normalised table changes nothing, with or without a CPF column |
| Normalizer.NormalizedIdempotentNoCpf | app.py:56-62 | without a CPF column the result is the table with stripped names, and normalising it again changes nothing |
| Normalizer.ProcessForMarketingCloud | app.py:34-111 | the export fails exactly when the normaliser does, and otherwise writes the normalised table in the marketing dialect |
| Normalizer.NormalizedFirstColumn | app.py:66-71 | when the first column already has a CPF name and no other column is called `CPF`, it is renamed in place and nothing moves |
| Normalizer.MarketingScenario | app.py:34-111 | the decoded table with header `["cpf", "nome"]` and rows `["123.456.789-00", "Ana"]` and `["99999999999999", "Beto"]` normalises to header `["CPF", "nome"]` with the single row `["12345678900", "Ana"]`, written as `CPF;nome\n12345678900;Ana\n` |
| RowPartition.Chunks | app.py:145 | there are no slices exactly when there are no rows |
| RowPartition.ChunksCount | app.py:145 | there are `ceil(n/k)` slices, the length of `range(0, n, k)` |
| RowPartition.ChunkAt | app.py:145 | slice `j` is `rows[j*k : j*k + k]` and starts inside the table |
| RowPartition.ChunkSizes | app.py:145 | every slice but the last has exactly `k` rows; the last has 1 to `k` |
| RowPartition.ChunksFlatten | app.py:145 | the slices, read in order, are the rows: none lost, repeated or moved |
| RowPartition.RowChunks | app.py:145 | a zero step is an error; a negative step gives no slices; a positive step gives `ceil(n/k)` slices that flatten to the rows |
| RowPartition.RowFiles | app.py:151-154 | file `j` is named `<base>_<j+1>.csv` and holds the header and slice `j` |
| RowPartition.RowFileNamesDistinct | app.py:151-152 | no two files of a split share a name |
| RowPartition.SplitByRows | app.py:145-158 | the loop that writes the slices fails exactly on a zero step and otherwise produces RowFiles of the slices |
| RowPartition.SplitByRowsFiles | app.py:145-154 | `ceil(n/k)` files with distinct names, each with the header and 1 to `k` rows (exactly `k` but for the last), whose rows together are the table's rows in order |
| SizePartition.NextCut | app.py:194-208 | one chunk: non-empty, at most the estimate then in force; the estimate is kept when the first cut is within budget or one row, and otherwise becomes `int(est*0.9)` (still at least 1) with the chunk cut to it |
| SizePartition.SplitBySize | app.py:165-215 | the `while` loop over the start row, the part counter and the estimate terminates and produces Plan from row 0 and part 1 |
| SizePartition.Plan | app.py:193-215 | the loop writes no file exactly when no rows are left |
| SizePartition.Estimates | app.py:193-208 | there is no estimate exactly when no rows are left, and every estimate in force lies between one and the initial estimate |
| SizePartition.PlanBounds | app.py:193-215 | every file is non-empty and lies within the rows; there are none exactly when no rows are left |
| SizePartition.PlanEnds | app.py:190-215 | the first file starts at the starting row and the last one ends at the last row |
| SizePartition.PlanNames | app.py:191-215 | file `j` is `<base>_parte<part + j>.csv` |
| SizePartition.PlanLinks | app.py:214 | each file starts at the row where the one before it ended |
| SizePartition.PlanContiguous | app.py:193-215 | the files start at row 0, end at the last row, each starts where the previous one ended, and file `j` is `<base>_parte<j+1>.csv` |
| SizePartition.EstimatesShrink | app.py:202-206 | the estimate starts at the given one, never grows, and never drops below 1 |
| SizePartition.PlanEstimates | app.py:193-215 | each file is NextCut's cut with the estimate then in force, and the estimate it leaves is the next file's estimate, so it shrinks at most once per chunk and only for an over-budget, multi-row first cut |
| SizePartition.PlanChunksShrink | app.py:194-206 | no file is longer than the initial estimate or than any earlier file |
| SizePartition.ChunkWithinEstimate | app.py:194-206 | each file has at most as many rows as the estimate it was cut with |
| SizePartition.ChunkIsNextEstimate | app.py:194-214 | a file that is not the last has exactly as many rows as the estimate it leaves |
| SizePartition.PlanCovers | app.py:193-215 | the files, read in order, hold every row exactly once and in order |
| SizePartition.SplitBySizeCovers | app.py:193-215 | for the whole table: no files exactly when there are no rows, distinct names from `_parte1`, every file non-empty, and together the rows in order |
| SizePartition.NumberedNamesDistinct | app.py:198 | files numbered one after another have pairwise different names |
| SizePartition.OneRowOverBudget | app.py:202 | a one-row chunk is written even when that row alone is over budget |
| SizePartition.RetryCanStayOverBudget | app.py:202-208 | three one-megabyte rows, a one-megabyte budget and an estimate of three give a first file of two rows, still over budget: the single retry does not guarantee the budget |

## Left out

- Web plumbing is not modelled: the Flask routes, upload saving, zip packaging, `send_file` and temporary-file clean-up (lines 11-13, 220-322). They are I/O.
- Reading the CSV is not modelled (lines 27-32, 47-52, 137-142, 168-174). This covers `pd.read_csv` and its encoding fallbacks. The model starts from a decoded table of text cells.
- pandas type inference is not modelled, and neither is the `dtype` forcing of line 44. The forcing is keyed by the stripped name, so a raw name with spaces around it would leave the CPF column to type inference. A numeric reading is only represented by the text it produces, e.g. `"1234567890.0"`.
- `dropna(how='all')` (line 54) has nothing to drop under `na_filter=False`.
- Normalizer.FilterFirstKeeps, Normalizer.NormalizedRows and Normalizer.NormalizedShape: "every other cell unchanged" holds only for columns pandas reads as text. Lines 42-52 force only the CPF column to `str`; every other column, and every column when no CPF column is found, is type-inferred. A column of `19.90` is read as a float and written `20` through `float_format='%.0f'` (line 109), and `007` is read as an integer and written `7`. That rewriting is not modelled: every cell is the text the model is given.
- Logging, the read-back of the first lines (lines 117-122) and the choice of output path are not modelled. The catch-all of lines 124-128 is the `None` of `Normalized` and `ProcessForMarketingCloud`.
- Normalizer.Normalized: requires the stripped column names to be distinct. pandas renames repeated names on reading and on `rename` behaves differently with duplicates, which is not modelled. One duplicate is modelled: an existing column already called `CPF` besides the renamed one. It makes line 82 fail, so the result is `None`.
- Strings.Lower: only ASCII letters are lowered. For the four names compared at lines 38 and 60 this agrees with `str.lower()`.
- CpfCell.StripDecimalZeros: `$` is taken as the end of the cell. Python's `$` also matches before a final newline.
- MarketingCsv.Serialize: follows the code's `quoting=0`, which is `csv.QUOTE_MINIMAL`. The comment on line 108 says no quotes are written. So fields holding `;`, `"`, CR or LF are quoted (and a record made of one empty field is written `""`). SerializeRoundTrip therefore speaks only about fields that need no quoting.
- RowPartition.SplitByRows: the content of each slice's file (a comma-separated `to_csv`) is not modelled. A file is its name and its table.
- SizePartition.SplitBySize:
  - The byte size of the file holding rows `lo` to `hi` is the parameter `size`. The initial estimate is also a parameter; in the source it is computed in floating point at lines 180-187 from a 1000-row sample.
  - `int(est * 0.9)` is taken as `est * 9 / 10`. In double arithmetic these agree whenever `est * 0.9` is below 2^50. Larger estimates can round up to the next integer, e.g. `est = 2251799813685251`.
  - It requires an estimate of at least 1 when there are rows. With 0 or less (for instance `max_mb = 0`) line 194 gives `fim <= inicio`, and the loop of lines 193-215 never ends.
- SizePartition.Part: a file is its name and its row range. Its content is not modelled.
- The evident intent of lines 201-208 is that every file stays within the byte budget. The code retries a chunk only once, so that is not guaranteed. RetryCanStayOverBudget gives such an input, and the model follows the code.
- RowPartition.RowFiles and SizePartition.Plan: a file is named by its bare name. The source joins each name onto the upload directory (lines 152 and 198); that directory is an I/O detail and is not modelled.
