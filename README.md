# Firewall-rule sheet to CSV: the conversion core

`fourth.py` reads a spreadsheet of firewall rules and writes a CSV with nine
fixed columns. It looks for four labelled anchor cells: "IP",
"Service/Port Destination", "Destination" and "Action". Under each anchor it
takes the non-empty cells of that column. It keeps only the valid IPv4
addresses among the "IP" values. It pads the four lists with `''` to a common
length. Finally it lays them out under the headers Source, Source NAT,
Destination, Destination NAT, Service, Description, User, Application and
Action, and fills the other five columns with `''`.

This project models that core, from the loaded sheet to the nine-column
record set:

- `pystrings.dfy` (module `PyStrings`): Python's `str.strip()`, with the
  `str.isspace()` white-space set, and `str.split` / `str.join` for a
  one-character separator.
- `ipv4.dfy` (module `IPv4`): the address check `est_adresse_ip_valide`. It is
  written as a predicate on text (four dot-separated groups of one to three
  ASCII digits with value at most 255, plus the one trailing newline that
  `$` tolerates). A separate predicate follows the regular expression's
  alternatives, and a lemma proves the two agree.
- `cells.dfy` (module `Cells`): a cell is text, a number (carried as the text
  `str()` gives for it) or missing (`NaN`, shown as "nan"). The sheet read
  with `header=None` is a rectangular grid indexed by position.
- `locator.dfy` (module `Locator`): the anchor search `trouver_cellule`. The
  method `FindCell` is the nested loop with its early return. It is proved
  equal to the recursive specification `FirstMatch`, which is the first
  match in row-major order.
- `sequences.dfy` (module `Sequences`): order-preserving filtering. It serves
  both for `dropna()` and for the IP comprehension.
- `extractor.dfy` (module `Extractor`): `extraire_donnees`.
- `aligner.dfy` (module `Aligner`): `ajuster_longueurs`.
- `writer.dfy` (module `Writer`): the column-building part of `ecrire_csv`.
  The method `BuildRecordSet` keeps the source's loop, which adds each
  missing header as a column of `''`. It is proved equal to the function
  `RecordSet`.
- `converter.dfy` (module `Converter`): the extraction and filtering step of
  `excel_vers_csv`, which yields the record set handed to the CSV writer.

## Model

| member | source | states |
|---|---|---|
| PyStrings.StripStartSuffix | fourth.py:24 | the left strip is the longest suffix that does not start with white space; everything dropped is white space |
| PyStrings.StripEndPrefix | fourth.py:24 | the right strip is the longest prefix that does not end with white space; everything dropped is white space |
| PyStrings.StripIsTrimmedSlice | fourth.py:24 | `strip()` returns a slice of its input with only white space outside it, and the result neither starts nor ends with white space |
| PyStrings.StripUnchanged | fourth.py:24 | text that neither starts nor ends with white space is returned unchanged |
| PyStrings.StripIdempotent | fourth.py:24 | stripping twice is stripping once |
| PyStrings.Split | fourth.py:9 | splitting always yields at least one part |
| PyStrings.JoinSplit | fourth.py:9 | joining the parts of a split restores the text, and no part contains the separator |
| PyStrings.SplitJoin | fourth.py:9 | splitting a join of separator-free parts yields those parts |
| PyStrings.SplitNoSeparator | fourth.py:9 | text without the separator splits into itself alone |
| PyStrings.SplitAfterPart | fourth.py:9 | splitting `x + sep + y`, where `x` has no separator, yields `x` followed by the parts of `y` |
| PyStrings.JoinCharacters | fourth.py:9 | a property that holds for every character of the parts and for the separator holds for every character of the join |
| IPv4.DigitValue | fourth.py:9 | a digit of the class `[0-9]` is worth less than ten |
| IPv4.ValueOfShortGroup | fourth.py:9 | the value of a group of one, two or three digits, written out positionally |
| IPv4.OctetPatternIsOctet | fourth.py:9 | the alternatives `25[0-5]`, `2[0-4][0-9]` and `[01]?[0-9][0-9]?` accept exactly the groups of one to three digits whose value is at most 255 |
| IPv4.JoinedGroups | fourth.py:8-10 | dot-free groups joined by dots form an address iff there are exactly four of them and each is an octet |
| IPv4.JoinedOctetsAccepted | fourth.py:8-10 | four octets joined by dots are accepted |
| IPv4.DottedQuadIffJoinedOctets | fourth.py:8-10 | text is an address (without a trailing newline) iff it is four octets joined by dots |
| IPv4.DottedQuadCharacters | fourth.py:9 | an address holds only digits and dots |
| IPv4.AcceptedCharacters | fourth.py:9-10 | accepted text holds only digits and dots, except that its last character may be a newline; nothing else is tolerated before, inside or after the address |
| IPv4.TrailingNewline | fourth.py:9-10 | `s + "\n"` is accepted iff `s` is an address, and a second trailing newline is never accepted |
| IPv4.DecimalText | fourth.py:9 | the decimal rendering of a number is a non-empty digit string with that value, and it has at most three digits below 256 |
| IPv4.RenderedBytesAccepted | fourth.py:8-10 | any four bytes written in decimal and joined by dots are accepted |
| IPv4.AcceptsAddress | fourth.py:8-10 | "192.168.1.1" is accepted |
| IPv4.AcceptsLeadingZeros | fourth.py:8-10 | "001.0.0.0" is accepted (leading zeros allowed) |
| IPv4.RejectsGroupAbove255 | fourth.py:8-10 | "192.168.1.256" is rejected |
| IPv4.RejectsThreeGroups | fourth.py:8-10 | "10.0.0" is rejected |
| IPv4.RejectsFiveGroups | fourth.py:8-10 | "1.2.3.4.5" is rejected |
| IPv4.RejectsFourDigitGroup | fourth.py:8-10 | "1234.0.0.0" is rejected |
| IPv4.RejectsLetters | fourth.py:8-10 | "a.b.c.d" is rejected |
| Cells.EmptyCellLabel | fourth.py:24 | a missing cell reads as "nan", so it carries the label "nan" and no other |
| Locator.FirstInRow | fourth.py:23-25 | the column found in a row carries the label and no earlier column does; nothing is found iff no column carries it |
| Locator.FirstMatch | fourth.py:21-26 | the position found is in the grid and carries the label; no cell of an earlier row, and no earlier cell of its row, carries it; nothing is found iff no cell carries it |
| Locator.FirstMatchUnique | fourth.py:21-26 | any position that is first in row-major order is the one the search returns |
| Locator.FindCell | fourth.py:21-26 | the nested loop with its early return yields exactly the first match in row-major order, or "not found" |
| Sequences.Filter | fourth.py:34 | filtering never lengthens a sequence and keeps only elements that pass the test |
| Sequences.KeptPositions | fourth.py:34 | the positions of the passing elements, each in range, strictly increasing, and missing none |
| Sequences.FilterIsSelection | fourth.py:78 | the filtered sequence is exactly the elements at the passing positions, in order |
| Sequences.FilterAppend | fourth.py:78 | filtering distributes over concatenation |
| Sequences.FilterKeepsAll | fourth.py:34 | a sequence whose elements all pass is unchanged |
| Sequences.FilterIdempotent | fourth.py:78 | filtering twice with the same test is filtering once |
| Extractor.Extract | fourth.py:29-34 | the result is empty when no cell carries the label, and it never holds a missing cell |
| Extractor.PresentCellsBelow | fourth.py:34 | `dropna()` of the column below `p` gives, in top-to-bottom order, the cells of rows strictly below `p` |
| Extractor.PresentRowsComplete | fourth.py:34 | no present cell below `p` in its column is dropped |
| Extractor.ExtractBelowAnchor | fourth.py:29-34 | when the label is first found at `p`, the result is exactly the present cells of column `p.col` strictly below row `p.row`, in order; rows at or above the anchor never contribute |
| Extractor.ExtractColumn | fourth.py:29-34 | the method that calls the anchor search returns what `Extract` specifies, including `[]` when the label is missing |
| Aligner.MaxLength | fourth.py:38 | the result bounds every list's length and is the length of one of them |
| Aligner.Align | fourth.py:37-39 | as many lists come out as go in; each has the maximum length, starts with its input unchanged (never truncated) and continues with `''` only |
| Aligner.AlignEqualLengths | fourth.py:37-39 | lists of equal length are returned unchanged |
| Aligner.AlignIdempotent | fourth.py:37-39 | aligning twice is aligning once |
| Aligner.AlignExample | fourth.py:37-39 | lists of lengths 2, 1, 0 and 3 become four lists of length 3 padded with `''` |
| Writer.RecordSet | fourth.py:44-67 | the record set's column names are the nine headers in their fixed order |
| Writer.LookupAppend | fourth.py:63-64 | adding a column under a new name leaves the existing columns unchanged and makes the new one reachable |
| Writer.FieldFrameLookup | fourth.py:51-59 | the frame built from the dictionary has the columns Source, Service, Destination and Action, each holding its aligned list |
| Writer.AddBlankColumn | fourth.py:62-64 | `df[header] = ''` for a missing header appends that name and keeps every column's contents as the converter defines them |
| Writer.SelectHeaders | fourth.py:67 | reordering by the header list, once every header is present, yields the record set |
| Writer.RecordSetShape | fourth.py:44-67 | nine headers in order; every column as long as the longest input, which one input attains; Source, Service, Destination and Action are their inputs padded with `''`; Source NAT, Destination NAT, Description, User and Application hold only `''` |
| Writer.BuildRecordSet | fourth.py:44-67 | aligning, building the frame, adding the missing headers in a loop and reordering yields exactly `RecordSet` |
| Converter.Sources | fourth.py:78 | every Source value is a present cell whose text is a valid address |
| Converter.SourcesAreValidAddressesUnderIP | fourth.py:78 | the Source list is the order-preserving subsequence of the values extracted under "IP" that pass the validator, and it misses none of them |
| Converter.ConvertSheet | fourth.py:78-81 | filtering the "IP" values and extracting the other three labels unfiltered, then building the record set, yields exactly `Convert` |
| Converter.ConvertShape | fourth.py:78-89 | the converted sheet has the nine headers in order and columns of equal length. Source holds the filtered addresses, and Service, Destination and Action hold the unfiltered extractions under their labels, each followed by `''` only. The other five columns hold only `''` |
| Converter.SourceColumnHoldsAddresses | fourth.py:78-89 | every value in the Source column is a valid address or the padding `''` |

## Left out

- Loading the workbook with `pd.read_excel` and its failure path (fourth.py:13-18, 76-77) are not modelled. The grid is an input. This is file I/O through a foreign library.
- Writing the CSV with `df.to_csv`, including its quoting (fourth.py:69), is not modelled. The model stops at the nine named columns. This is library serialisation.
- Generating the output file name from `datetime.now()`, `os.path.basename` and `os.path.splitext` (fourth.py:83-87) is not modelled. It depends on the clock and on path handling.
- The command line (`sys.argv`, `sys.exit`, fourth.py:93-102), every `print` diagnostic (fourth.py:17, 32, 70, 72) and the `try`/`except` around `ecrire_csv` (fourth.py:43, 71-72) are not modelled. Nothing in the modelled part raises.
- Cells.CellToString: the model does not reproduce pandas' value coercion or Python's rendering of floats, dates and `NaN`. A number cell carries its `str()` text as given, and a missing cell renders as "nan".
- IPv4.IsValidAddress: the model does not include a regular-expression engine. The pattern is stated as a digit-and-dot predicate, and `OctetPatternIsOctet` ties that predicate to the pattern's alternatives.
- Cells.Rectangular: every grid is assumed to have rows of equal length, as a data frame does. No ragged sheet is considered.
- Aligner.Align: calling it with no lists at all is excluded by a precondition. In Python, `max()` raises in that case, and the converter always passes four lists.
