# eval_somatic_control in Dafny

`eval_somatic_control.py` checks a somatic variant caller against a list of
known (expected) somatic variants. It works in three steps:

1. It reads the caller's VCF file into one record per call: chromosome,
   position, reference and alternate allele. The variant allele fraction
   (VAF) of each record is a percentage rounded to three decimals, computed
   from the sample's AD (allelic depths) value.
2. It reads the known variants from a tab-separated table. The table's
   header must name seven required columns (`chr`, `position`, `ref`, `alt`,
   `gene`, `hgvsp`, `vaf`), and the rows are read by position.
3. It annotates every expected record in place with `detected` and
   `found_vaf`, taken from the first call at the same site. It then writes
   the records as a tab-separated report and derives the path of a plot
   from the report's path.

The model is made of these modules:

* `Results`: the `Result`/`Option` wrappers and the Python exceptions the
  script can raise.
* `PyText`: `str.strip`, `split`, `join`, `startswith` and `replace`.
* `PyNumbers`: `int()`, `float()`, `str()` of ints and floats, and
  `round(x, 3)`. Floats are exact decimals.
* `PyPath`: `os.path.dirname`, `basename` and `join`.
* `Records`: Python dicts, as their fields in insertion order, with `d[k]`,
  `d.get(k)`, `d[k] = v`, `==` and `str`.
* `CallReader`: `read_vcf_data`. A loop method over the file's lines,
  proved against the function `CallRecords`.
* `TruthReader`: `read_known_tsv`. A loop method over the table's lines,
  proved against the function `KnownRecords`.
* `Presence`: `check_variants_presence`. The list of expected records is an
  `array<Dict>` that the method annotates in place. The report is built by a
  loop proved against the function `ReportText`.

Files are given to the readers as their sequences of lines, each line
without its line terminator (`csv.reader` drops it from the table's lines,
and the call file's lines are stripped before use). A kept `"\n"` would turn
the header cell `vaf` into `vaf\n`, which the header check compares exactly.
The report is returned as text rather than written to disk.

## Model

| member | source | states |
|---|---|---|
| Presence.CheckVariantsPresence | eval_somatic_control.py:43-86 | The outcome (report text and plot path, or the exception raised while annotating or building the report) is `PresenceOutcome` of the records as they were on entry. On success the array holds every record annotated, in its original order. |
| Presence.PresenceOutcome | eval_somatic_control.py:53-57 | An empty record list raises IndexError at `tsv_data[0]`. A successful run has annotated every record, and its plot path is `ImagePath` of the report path. |
| Presence.HeaderKeys | eval_somatic_control.py:55-57 | The report columns are the first record's keys in their original order, followed by `found_vaf` and then `detected`. |
| Presence.AnnotateInPlace | eval_somatic_control.py:59-72 | Returns the records as `AnnotateAll` annotates them, or the exception of the first record that fails. On success the array holds exactly the returned records. |
| Presence.AnnotateRecord | eval_somatic_control.py:60-70 | Record `i` is replaced by its annotation against the calls. Every other record in the array is unchanged. |
| Presence.WriteReport | eval_somatic_control.py:74-79 | The text built line by line equals `ReportText`: the header line, then one line per record in order, or the KeyError of the first record that lacks a column. |
| Presence.Compare | eval_somatic_control.py:64-67 | A single comparison can fail only with the KeyError of one of the two keys it looks up. |
| Presence.KeyMatch | eval_somatic_control.py:64-67 | The short-circuit match test can fail only with a KeyError for `chr`, `position`, `pos`, `ref` or `alt`. |
| Presence.MatchFromNone | eval_somatic_control.py:63-70 | When no call matches and no comparison fails, the record keeps `detected` False and `found_vaf` ".". |
| Presence.MatchFromFirst | eval_somatic_control.py:63-70 | When call `j` is the first match, the scan stops there. The record gets `detected` True and that call's `vaf`, or the scan raises KeyError('vaf') if the call has none. |
| Presence.MatchFromError | eval_somatic_control.py:63-67 | A comparison that raises before any call matches makes the whole scan raise that KeyError. |
| Presence.MatchFromShape | eval_somatic_control.py:61-70 | A successful scan returns the initialized record unchanged, or that record with a match's two fields set. |
| Presence.AnnotateKeepsFields | eval_somatic_control.py:60-70 | Annotation changes no field other than `detected` and `found_vaf`. It keeps the key order of the record with the two fields added, and both fields are present. |
| Presence.AnnotateAllEach | eval_somatic_control.py:59-72 | Annotation succeeds for the list exactly when it succeeds for every record. The results keep the number and the order of the records. |
| Presence.AnnotateAllPointwise | eval_somatic_control.py:59-72 | Records each annotated to the matching result are annotated, as a list, to that list of results. |
| Presence.AnnotateAllFirstFailure | eval_somatic_control.py:59-72 | The first record whose annotation fails decides the exception of the whole loop. |
| Presence.RenderCellsEach | eval_somatic_control.py:77 | A record renders exactly when it has every column. Cell `i` is then `str` of the column's value. |
| Presence.RowsPointwise | eval_somatic_control.py:75-78 | Records that each render to the matching line give the report made of the header line followed by those lines. |
| Presence.RowsFirstFailure | eval_somatic_control.py:76-78 | The first record that lacks a report column makes the report fail with that KeyError. |
| Presence.AnnotatedTruthPuts | eval_somatic_control.py:60-62 | For a record read from the table, the annotated record is that record with `detected` and then `found_vaf` assigned. |
| Presence.AnnotatedTruthKeys | eval_somatic_control.py:61-62 | An annotated table record has keys `chr` … `vaf`, then `detected`, then `found_vaf`, each once. |
| Presence.InitializedTruth | eval_somatic_control.py:61-62 | The two initial assignments append `detected` False and `found_vaf` "." to a record read from the table. |
| Presence.FoundTruth | eval_somatic_control.py:68-69 | The assignments on a match set `detected` True and `found_vaf` to the call's value, in place. |
| Presence.KeyMatchTruth | eval_somatic_control.py:64-67 | For records produced by the two readers, the match test never raises. It is true exactly when chromosome, position, ref and alt are all equal. |
| Presence.MatchTruth | eval_somatic_control.py:63-70 | Against calls from the VCF reader, the scan over an initialized table record yields that record annotated with the first matching call's VAF and `detected` set to whether any call matches. |
| Presence.AnnotateTruth | eval_somatic_control.py:59-70 | A table record is annotated with `detected` True exactly when some call is at its site, and with `found_vaf` equal to `FoundValue`. |
| Presence.FoundValueFirst | eval_somatic_control.py:63-70 | A call at the site exists exactly when there is a first one. `found_vaf` is the `vaf` of the first such call, and "." when there is none. |
| Presence.RowCellsTruth | eval_somatic_control.py:76-77 | Every report column of an annotated table record is present. Each one renders as the matching `str` cell: the seven fields, `found_vaf`, then `detected`. |
| Presence.RowLineTruth | eval_somatic_control.py:77-78 | The report line of an annotated table record is its nine cells joined by tabs, ending in a newline. |
| Presence.ReportOfTruthRecords | eval_somatic_control.py:43-84 | For a non-empty table and any calls, the report is built and the plot path derived. The report is the fixed header `chr … vaf found_vaf detected`, then one line per expected variant in order. The plot path is `ImagePath` of the report path. |
| TruthReader.ReadKnownTsv | eval_somatic_control.py:127-159 | The reading loop returns `KnownRecords` of the table's lines. |
| TruthReader.HeaderValidation | eval_somatic_control.py:140-145 | An empty table raises StopIteration, and nothing else does. The "Invalid header" error is raised exactly when a required name is missing from the first line. |
| TruthReader.ColumnOrderIgnored | eval_somatic_control.py:141-145 | The header check does not depend on the order of the header's cells. Extra columns never make it fail. |
| TruthReader.RowsReadByPosition | eval_somatic_control.py:144-157 | Any two headers that pass the check give the same records for the same rows, because the rows are read by position. |
| TruthReader.TruthRowsShape | eval_somatic_control.py:147-157 | After a valid header, reading succeeds exactly when every later line parses. Record `k` is then line `k + 1` read, in order. |
| TruthReader.TruthRowsError | eval_somatic_control.py:147-157 | A failing row fails the read with IndexError or ValueError, never with a header error. |
| TruthReader.TruthRowsFirstError | eval_somatic_control.py:147-157 | A failed read raises the exception of the first row that fails, and every earlier row parses. |
| TruthReader.ParseTruthRow | eval_somatic_control.py:148-156 | A row of fewer than two cells raises IndexError, and a bad position raises ValueError. A row yields a record exactly when it has at least seven cells and its position and VAF both convert. |
| TruthReader.ParseTruthRowOk | eval_somatic_control.py:148-156 | A row whose position and VAF convert reads as the stripped cells 0, 2, 3, 4 and 5 with those two numbers. |
| TruthReader.TruthDictKeys | eval_somatic_control.py:148-156 | Every record the reader builds has exactly the keys `chr`, `position`, `ref`, `alt`, `gene`, `hgvsp`, `vaf`, each once and in that order. |
| TruthReader.VafText | eval_somatic_control.py:155 | The text handed to `float` holds no `%`. |
| TruthReader.PercentAnywhere | eval_somatic_control.py:155 | Every `%` of the VAF cell is dropped, wherever it is, not only a trailing one. |
| TruthReader.VafCellText | eval_somatic_control.py:155 | A VAF cell written as `str(x) + "%"` is handed to `float` as `str(x)`. |
| TruthReader.TruthLineRoundTrip | eval_somatic_control.py:147-157 | A row written from a variant with clean text cells and the VAF as a percentage reads back as that variant, with the VAF equal in value. |
| TruthReader.TruthCellsParse | eval_somatic_control.py:148-156 | The cells of a written variant parse back to the variant. |
| CallReader.ReadVcfData | eval_somatic_control.py:89-125 | The reading loop returns `CallRecords` of the file's lines. |
| CallReader.DataLinesFilter | eval_somatic_control.py:101-102 | Exactly the lines that do not start with `#` are read. |
| CallReader.DataLinesAppend | eval_somatic_control.py:101-102 | The data lines of two consecutive pieces of a file are those of the first piece followed by those of the second. Together with `DataLinesOne`, each non-`#` line is kept exactly once and in file order. |
| CallReader.DataLinesOne | eval_somatic_control.py:101-102 | A single line is kept, once, exactly when it does not start with `#`. |
| CallReader.ParseCallLineOutcome | eval_somatic_control.py:103-123 | Fewer than nine tab fields raise IndexError. A failing VAF computation raises its exception before the position is converted, and a bad position raises ValueError. A line yields a record exactly when it has nine fields and its VAF and position both succeed. |
| CallReader.CallRecordsPerLine | eval_somatic_control.py:100-124 | Reading succeeds exactly when every data line parses (`AllOk`). There is then one record per data line, in file order (`MapsTo`). |
| CallReader.CallRecordsFirstError | eval_somatic_control.py:100-124 | A failed read raises the exception of the first data line that fails, and every earlier data line parses. |
| CallReader.CallDict | eval_somatic_control.py:117-123 | The stored dict has the five keys `chr`, `pos`, `ref`, `alt`, `vaf`, each once. |
| PyText.Find | eval_somatic_control.py:107 | `list.index` of a value that occurs: the first index holding it. The result is the list's length when there is none. |
| CallReader.SampleVaf | eval_somatic_control.py:106-115 | The VAF is None exactly when the FORMAT field lists no `AD`. With `AD` listed and no sample field, it raises IndexError. It can fail only with IndexError, ValueError or ZeroDivisionError. |
| CallReader.SampleVafAt | eval_somatic_control.py:106-113 | For any FORMAT codes and sample values joined by `:`, with the first `AD` at index `k` and a sample value there that unpacks into two depths: the VAF is the allele fraction of those depths, or ZeroDivisionError when they sum to zero. |
| CallReader.SampleVafOfParts | eval_somatic_control.py:106-113 | The same, stated on the split FORMAT and sample fields: `format.index("AD")` picks the sample value whose depths give the VAF. |
| CallReader.SampleVafAmongCodes | eval_somatic_control.py:106-113 | FORMAT `GT:DP:AD:GQ` over sample `0/1:100:30,70:99` gives a VAF of 70.000: the AD value is found by its position among the codes. |
| CallReader.ParseDepths | eval_somatic_control.py:112 | Unpacking succeeds exactly when the AD value has two comma-separated parts that both convert, and then gives those two integers. Otherwise it raises ValueError. |
| CallReader.DepthsText | eval_somatic_control.py:112 | An AD value written as `ref,alt` reads back as the two depths. |
| CallReader.AlleleFraction | eval_somatic_control.py:113 | Raises ZeroDivisionError exactly when the two depths sum to zero. Otherwise the result has three decimals. |
| CallReader.AlleleFractionClose | eval_somatic_control.py:113 | The VAF is within half a thousandth of `alt / (ref + alt) * 100`. |
| CallReader.AlleleFractionIsPercentage | eval_somatic_control.py:113 | With depths that are not negative and a positive total, the VAF lies between 0 and 100. |
| CallReader.SeventyPercent | eval_somatic_control.py:113 | AD `30,70` gives a VAF of 70.000. |
| CallReader.SampleVafOfAd | eval_somatic_control.py:106-113 | Under FORMAT `GT:AD`, a sample field `0/1:ref,alt` gives the allele fraction of the two depths. |
| CallReader.CallLineRoundTrip | eval_somatic_control.py:101-124 | A ten-field call line with FORMAT `GT:AD` is a data line. It reads back as its chromosome, position, alleles and the allele fraction of its depths. |
| CallReader.FieldsOfLine | eval_somatic_control.py:103 | Stripping and splitting a line that was joined from tab-free fields gives those fields back. |
| CallReader.ParseCallLineOfFields | eval_somatic_control.py:103-123 | A data line whose VAF and position both convert reads as its fields 0, 1, 3 and 4 with that VAF. |
| CallReader.ParseCallLineFails | eval_somatic_control.py:106-113 | A data line whose VAF cannot be computed raises what that computation raises. |
| CallReader.NineFieldLine | eval_somatic_control.py:106-123 | A nine-field line (no sample column) is accepted, with VAF None, exactly when its FORMAT lists no `AD`. Otherwise it raises IndexError. |
| PyPath.ImagePathKeepsDirectory | eval_somatic_control.py:81-84 | When the path has no doubled slash, the plot path is the report path with its part up to the last slash unchanged and only the base name rewritten. |
| PyPath.ImageNameOfTsv | eval_somatic_control.py:82 | A base name ending in `.tsv`, with no earlier `.tsv`, gets the extension `.png`. |
| PyPath.ImagePathWithoutTsv | eval_somatic_control.py:81-84 | A report whose base name contains no `.tsv` gets a plot path equal to its own path. |
| PyPath.BaseName | eval_somatic_control.py:82 | `basename` holds no slash. |
| PyPath.LastSlashEnd | eval_somatic_control.py:81-82 | The split point is just after the last slash. No slash follows it. |
| PyPath.StripTrailingSlashes | eval_somatic_control.py:81 | Removes exactly the trailing slashes: a prefix is kept, and it does not end in a slash. |
| PyText.Strip | eval_somatic_control.py:103 | The result has no white space at either end. |
| PyText.StripRemovesOnlyOuterSpace | eval_somatic_control.py:103 | The result is a contiguous part of the input, with only white space before and after it. |
| PyText.StripTrimmed | eval_somatic_control.py:149-155 | Stripping text with no white space at its ends leaves it as it is. |
| PyText.Split | eval_somatic_control.py:103 | The parts hold no separator, and joining them with the separator gives the input back. |
| PyText.SplitJoin | eval_somatic_control.py:103 | Splitting separator-free parts joined by the separator gives the parts back. |
| PyText.ReplaceAfterPrefix | eval_somatic_control.py:82 | A replacement leaves a prefix that holds no occurrence of the pattern unchanged. |
| PyText.ReplaceAbsent | eval_somatic_control.py:82 | Text without the pattern is left unchanged. |
| PyText.ReplaceRemovesChar | eval_somatic_control.py:155 | Replacing a character by nothing leaves no occurrence of it. |
| PyText.ReplaceCharAbsent | eval_somatic_control.py:155 | Replacing a character absent from the text leaves the text unchanged. |
| PyNumbers.ParseInt | eval_somatic_control.py:150 | `int()` fails only with ValueError. |
| PyNumbers.IntRoundTrip | eval_somatic_control.py:150 | `int(str(n)) == n` for every integer. |
| PyNumbers.IntToString | eval_somatic_control.py:77 | `str(n)` is a sign or digit, then digits, ending in a digit. |
| PyNumbers.Digits | eval_somatic_control.py:77 | The decimal digits of `n` have the value `n`. |
| PyNumbers.ParseFloat | eval_somatic_control.py:155 | `float()` fails only with ValueError. |
| PyNumbers.FloatRoundTrip | eval_somatic_control.py:155 | `float(str(x))` succeeds and equals `x` in value. |
| PyNumbers.FloatTextChars | eval_somatic_control.py:77 | `str(x)` of a float holds only a minus sign, digits and a decimal point. |
| PyNumbers.FloatToString | eval_somatic_control.py:77 | `str(x)` of a float has at least three characters, starts with a sign or digit and ends in a digit. |
| PyNumbers.ShortestValue | eval_somatic_control.py:77 | Dropping trailing zero decimals keeps the value. |
| PyNumbers.RoundHalfEven | eval_somatic_control.py:113 | Within one half of the input; ties go to the even integer. |
| PyNumbers.Round3Close | eval_somatic_control.py:113 | `round(x, 3)` is within half a thousandth of `x`. |
| PyNumbers.Round3Percentage | eval_somatic_control.py:113 | Rounding a value between 0 and 100 stays between 0 and 100. |
| Records.Keys | eval_somatic_control.py:55 | `dict.keys()` lists the field names in insertion order. |
| Records.GetKeys | eval_somatic_control.py:77 | A lookup finds a value exactly when the key is among the dict's keys. |
| Records.Subscript | eval_somatic_control.py:64-69 | `d[k]` fails only with KeyError(k). |
| Records.Put | eval_somatic_control.py:61-62 | Assigning an existing key keeps the dict's size. A new key adds one field. |
| Records.PutGet | eval_somatic_control.py:61-62 | After `d[k] = v`, `d[k]` is `v` and every other key reads as before. |
| Records.PutKeys | eval_somatic_control.py:61-62 | Assigning an existing key keeps the key order. A new key is appended, and keys stay unique. |
| Records.PutNew | eval_somatic_control.py:61-62 | Assigning a new key appends the field at the end. |
| Records.PutAt | eval_somatic_control.py:68-69 | Assigning an existing key replaces its value in place. |

## Left out

- The plot (`plot_expected_vaf_vs_found_vaf`, lines 11-40): drawing and R-squared use matplotlib, numpy, seaborn and pandas, which are not part of this model. Only the plot's path is modelled.
- Presence.PresenceOutcome: the exceptions of the plot call (line 86) are not modelled. A `found_vaf` of "." makes the plot raise at line 25, so `PresenceOutcome` is `Ok` where the program raises at line 86. Other failures of the plot call are not modelled either. The same holds for `Presence.CheckVariantsPresence` and `Presence.ReportOfTruthRecords`.
- File I/O: opening, gzip decompression and writing the report. The readers take the file's lines, and the report is returned as text.
- `main` and argument parsing (lines 162 onward): command-line handling only.
- `csv.reader` quoting: a table line's cells are its tab-separated parts. Quoted cells and fields spanning several lines are not modelled.
- Floats are exact decimals. `round(x, 3)` is round-half-even on the exact quotient, not on its IEEE-754 double. `str(float)` is the shortest positional form with at least one decimal, without exponent notation for very large or small values.
- `int()`/`float()` accept ASCII digits with an optional sign, plus `float()`'s decimal point and exponent. Underscores, non-ASCII digits, `inf` and `nan` are not modelled.
- Presence.CheckVariantsPresence: when it raises, neither the partly annotated array nor the partly written report is described.
- Presence.AnnotateInPlace: the returned list holds the same dict objects as the array in the source. The model returns their values, so aliasing between `results` and `tsv_data` is not captured.
- PyNumbers.FloatRoundTrip: states equality of value only, not of representation.
- Three behaviours of the code a reader may not expect. A nine-field line without `AD` in FORMAT is accepted, because the sample column is read only when `AD` is present (`CallReader.NineFieldLine`). Every `%` in a VAF cell is removed, not only a trailing one (`TruthReader.PercentAnywhere`). Every `.tsv` in the report's base name becomes `.png`, and a name without one gives a plot path equal to the report's own path (`PyPath.ImagePathWithoutTsv`).
