# Contract generator: a verified model

This is a Dafny model of the core of a small Flask application. The application reads a spreadsheet of customer rows and fills one PDF contract form per row. The form chosen depends on the tariff type of the batch ("Portfolio-Tarif" or "Spot-Tarif"), and on each row's commodity ("Gas oder Strom"), running time ("Laufzeit") and counter type ("Zählerart"). Every filled contract is written to the output directory as `"{company} Antrag {tarif}.pdf"`, and the list of these names is returned.

The model has five modules:

- `Wrappers` (`wrappers.dfy`): `Option` and `Result`.
- `Text` (`text.dfy`): Python's `str.strip()` and `str.lower()`, as the program applies them to cells.
  - `Strip` removes the characters Python's `str.isspace` accepts.
  - The lemmas show that the result is the unique trimmed middle slice, that stripping is idempotent and ignores extra padding, and that lowering commutes with stripping.
- `TemplateSelection` (`template_selection.dfy`): the decision table that picks a template file name, or `None`, for one row.
- `PdfForm` (`pdf_form.dfy`): a fillable PDF as pages of annotations.
  - An annotation has an optional raw name `T` and a value `V`.
  - `GetPdfFields` is `get_pdf_fields`, with its nested loops.
  - `GeneratePdf` is the annotation update loop of `generate_pdf`.
  - Each method is proved equal to a functional specification: `Extracted` for `GetPdfFields`, `Filled` for `GeneratePdf`.
  - Lemmas about those functions give the key set, the "nothing else changes" properties, and the fact that a template filled with its own extracted fields reads "None" in every named field.
- `ContractBatch` (`contract_batch.dfy`): `create_contracts_from_excel`.
  - A row is a map from column name to cell, and a cell is either `Blank` (pandas NaN) or a text `Value`.
  - The template folder and the output directory are maps from file name to document.
  - `CreateContractsFromExcel` is the row loop. It is proved equal to the recursive specification `Run` over the per-row decisions `Plan`.
  - Lemmas about `Run` and `OutputNames` give the returned list: row order, one name per kept row, skipped rows absent, and length bound. They also give the error case and what lands in the output directory.

The source reads a missing template with `PdfReader`, which raises. The model writes this as `Err(TemplateNotFound(name))`. The batch stops at the first kept row whose template is missing, and the output directory keeps the files written for the rows before it (`RunFirstFailure`).

## Model

| member | source | states |
|---|---|---|
| Text.IsSpace | flask_app.py:44-46 | the characters `str.strip()` removes: Python's `str.isspace` set |
| Text.StripStart | flask_app.py:44-46 | `str.lstrip()`: drops leading whitespace one character at a time; its contract is `StripStartSpec` |
| Text.StripEnd | flask_app.py:44-46 | `str.rstrip()`: drops trailing whitespace one character at a time; its contract is `StripEndSpec` |
| Text.Strip | flask_app.py:44-46 | `str.strip()`: both ends stripped; its contract is `StripSpec` and `StripUnique` |
| Text.StripStartSpec | flask_app.py:44-46 | left stripping returns a suffix that does not start with whitespace, and only whitespace is dropped |
| Text.StripEndSpec | flask_app.py:44-46 | right stripping returns a prefix that does not end with whitespace, and only whitespace is dropped |
| Text.StripSpec | flask_app.py:44-46 | `strip()` returns a trimmed slice of the cell, with only whitespace before and after it |
| Text.StripUnique | flask_app.py:44-46 | any trimmed slice surrounded by whitespace is exactly what `strip()` returns |
| Text.StripIdempotent | flask_app.py:44-46 | stripping a stripped cell changes nothing |
| Text.StripTrimmed | flask_app.py:44-46 | a cell without whitespace at its ends is unchanged by `strip()` |
| Text.StripIgnoresPadding | flask_app.py:44-46 | extra whitespace on either side of a cell does not change its stripped value |
| Text.UpperChar | flask_app.py:44-46 | the reference inverse of lowering: a modelled lower-case letter maps to its capital, everything else is kept |
| Text.LowerChar | flask_app.py:44-46 | a lowered character is not upper case, is whitespace exactly when the original is, a capital becomes the lower-case letter that `UpperChar` maps back to it, and non-upper characters are kept |
| Text.LowerSpec | flask_app.py:44-46 | `lower()` on the modelled capitals keeps the length, turns each capital into the lower-case letter whose capital it is (checked with `UpperChar`), and keeps every other character |
| Text.Lower | flask_app.py:44-46 | `str.lower()`, character by character; its contract is `LowerSpec` |
| Text.LowerNoUpper | flask_app.py:44-46 | text without upper-case letters is unchanged by `lower()` |
| Text.LowerIdempotent | flask_app.py:44-46 | lowering twice is lowering once |
| Text.LowerStripCommute | flask_app.py:44-46 | `s.strip().lower()` equals `s.lower().strip()` |
| Text.Normalize | flask_app.py:44-46 | `.strip().lower()` on the commodity and counter type cells |
| Text.NormalizeTrimmed | flask_app.py:44-46 | a normalised commodity or counter type has no whitespace at its ends |
| Text.NormalizeIgnoresCase | flask_app.py:44-46 | cells that differ only in letter case normalise alike |
| Text.NormalizeIgnoresPadding | flask_app.py:44-46 | cells that differ only in surrounding whitespace normalise alike |
| TemplateSelection.ContractOf | flask_app.py:44-46 | the three selection values of a row: commodity and counter type stripped and lowered, running time only stripped |
| TemplateSelection.HasRule | flask_app.py:50-60 | the branches that reach a template: portfolio with running time "12" or "24", or spot |
| TemplateSelection.SelectTemplate | flask_app.py:50-60 | a template is chosen exactly for portfolio with running time 12 or 24, or for spot; every chosen name ends in ".pdf" |
| TemplateSelection.PortfolioTemplate | flask_app.py:50-54 | portfolio with running time 12 or 24 selects `portfolio_tarif_template_{commodity}_{running time}.pdf` |
| TemplateSelection.PortfolioIgnoresCounterType | flask_app.py:50-56 | the portfolio choice does not depend on the counter type |
| TemplateSelection.SpotTemplate | flask_app.py:57-58 | spot selects `spot_tarif_template_{commodity}_{counter}.pdf` |
| TemplateSelection.SpotIgnoresRunningTime | flask_app.py:57-58 | the spot choice does not depend on the running time |
| TemplateSelection.UnknownTarifSelectsNothing | flask_app.py:59-60 | any other tariff selects nothing |
| TemplateSelection.SelectionIgnoresCase | flask_app.py:44-60 | commodity and counter type cells that differ only in case select the same template |
| TemplateSelection.SelectionIgnoresPadding | flask_app.py:44-60 | whitespace around each of the three cells, padded independently, does not change the template |
| TemplateSelection.GasPadding | flask_app.py:44 | " Gas " and "Gas" normalise alike |
| TemplateSelection.GasCase | flask_app.py:44 | "Gas" and "gas" normalise alike |
| TemplateSelection.PaddedCapitalisedGas | flask_app.py:44-60 | " Gas " and "gas" select the same template under every tariff |
| PdfForm.Named | flask_app.py:27-28 | `if field_name:`: an annotation has a raw name `T` that is present and non-empty |
| PdfForm.FieldKey | flask_app.py:29 | the key is the raw name without its first and last character; it is empty exactly when the raw name has at most two characters |
| PdfForm.FieldKeyOfLiteral | flask_app.py:29 | a name written as a PDF literal `(k)` gives the key `k` |
| PdfForm.AnnotKeys | flask_app.py:25-29 | the keys of one page's named annotations; its contract is `AnnotKeysSpec` |
| PdfForm.AnnotKeysSpec | flask_app.py:25-29 | a key is collected from a page exactly when some named annotation on it yields that key |
| PdfForm.FieldNames | flask_app.py:23-29 | the keys of all pages' named annotations; its contract is `FieldNamesSpec` |
| PdfForm.FieldNamesSpec | flask_app.py:23-29 | a key is collected exactly when some named annotation on some page yields it |
| PdfForm.FieldNamesBound | flask_app.py:23-29 | duplicate names collapse: there are never more keys than named annotations |
| PdfForm.Extracted | flask_app.py:20-30 | the extracted map has exactly the collected keys, each mapped to None |
| PdfForm.GetPdfFields | flask_app.py:20-30 | the nested loop returns exactly `Extracted(template)`: the collected keys, each mapped to None |
| PdfForm.Format | flask_app.py:87 | a present value prints as itself, and None prints as "None" |
| PdfForm.FillAnnotation | flask_app.py:83-87 | filling never changes an annotation's name or its other entries |
| PdfForm.FillPage | flask_app.py:80-89 | a filled page keeps its number of annotations and its other entries |
| PdfForm.Filled | flask_app.py:79-89 | the filled document has as many pages as the template |
| PdfForm.GeneratePdf | flask_app.py:75-89 | the loop writes exactly `Filled(fieldData, template)` |
| PdfForm.FillAt | flask_app.py:79-89 | pages and annotations stay in place; an annotation whose key is in the map gets `V` set to the text of the mapped value; every other annotation is unchanged |
| PdfForm.FillNothing | flask_app.py:79-89 | filling with the empty map returns the template unchanged |
| PdfForm.FillDeclares | flask_app.py:79-89 | a filled document declares a key exactly when its template does |
| PdfForm.FillKeepsFieldNames | flask_app.py:79-89 | a filled document has the same field names as its template |
| PdfForm.FillIdempotent | flask_app.py:79-89 | filling twice with the same map is filling once |
| PdfForm.FillFromExtracted | flask_app.py:63-69 | a template filled with its own extracted fields reads "None" in every named annotation and leaves unnamed ones unchanged |
| ContractBatch.IsEmptyRow | flask_app.py:40 | `row.isnull().all()`: every cell of the row is missing |
| ContractBatch.CellText | flask_app.py:44-46 | `row.get(col, "")`: a present cell's text, or "" when the column is absent |
| ContractBatch.CompanyName | flask_app.py:47 | `row["###company###"]` as the f-string prints it, "nan" for a missing cell |
| ContractBatch.OutputName | flask_app.py:65 | the file name `"{company} Antrag {tarif}.pdf"` |
| ContractBatch.Produce | flask_app.py:63-69 | the document written for a template: the template filled with its own extracted fields |
| ContractBatch.Run | flask_app.py:39-72 | the loop from some row on: skip, raise on a missing template, or write and append; its contract is `RunStep`, `RunOutcome`, `RunFirstFailure` and `RunLastWriter` |
| ContractBatch.Readable | flask_app.py:44-47 | the rows the loop gets through without raising: all-empty rows, and rows whose selection cells are text where present and that have a company column |
| ContractBatch.RowContract | flask_app.py:44-46 | a row's three selection values: its cells read with `row.get(col, "")`, then stripped and, for commodity and counter type, lowered |
| ContractBatch.JobOf | flask_app.py:40-65 | a row is kept exactly when it is not all-empty and its tariff and stripped running time have a rule |
| ContractBatch.Plan | flask_app.py:39 | there is one decision per row |
| ContractBatch.PlanAt | flask_app.py:39-40 | the decision at each position is the decision for the row at that position |
| ContractBatch.RunStep | flask_app.py:39-72 | from any position on, a skipped row leaves the rest of the batch unchanged, a missing template ends it with that error, and a written file is added before the rest runs |
| ContractBatch.OutputNames | flask_app.py:70 | there are never more names than rows |
| ContractBatch.OutputNamesAreKeptRows | flask_app.py:39-72 | the returned list holds the kept rows' names in row order, one per kept row, with no kept row missing |
| ContractBatch.RunOutcome | flask_app.py:39-72 | the batch completes exactly when every kept row's template exists, and then returns the kept rows' names |
| ContractBatch.RunFailure | flask_app.py:62-63 | a failed batch names a missing template that a kept row needed (`RunFirstFailure` says which row) |
| ContractBatch.WritesExactlyCons | flask_app.py:66-69 | writing one file before the rest of the batch adds its name to what the batch writes |
| ContractBatch.RunFirstFailure | flask_app.py:39-72 | the batch stops at the first kept row whose template is missing, reports that template, and leaves the output directory as the rows before it left it |
| ContractBatch.RunKeeps | flask_app.py:66-69 | a file that no row of the batch writes keeps its content |
| ContractBatch.RunLastWriter | flask_app.py:62-69 | a kept row whose template exists, and whose file no later row writes again, leaves its own selected template, filled, in the output directory, even when a later row fails |
| ContractBatch.RunOutputDir | flask_app.py:66-69 | a completed batch adds exactly the returned names to the output directory, each holding a filled template of the folder, and leaves other files alone (which template is `RunLastWriter`) |
| ContractBatch.RunWritesTemplates | flask_app.py:62-69 | whether the batch completes or stops at a missing template, every file in the output directory is either untouched or a filled template of the folder |
| ContractBatch.WrittenFieldsReadNone | flask_app.py:63-69 | every named field of every file a batch adds or changes reads "None", also when the batch later stops at a missing template |
| ContractBatch.AllSkippedProducesNothing | flask_app.py:39-72 | when every row is skipped, nothing is written and the list is empty |
| ContractBatch.UnknownTarifProducesNothing | flask_app.py:59-60 | an unknown tariff writes nothing and returns the empty list |
| ContractBatch.EmptyRowSkipped | flask_app.py:40-41 | an all-empty row at any position changes neither the rest of the run nor the list |
| ContractBatch.PortfolioOtherRunningTimeSkipped | flask_app.py:50-56 | a portfolio row at any position whose stripped running time is neither 12 nor 24 changes neither the rest of the run nor the list |
| ContractBatch.KeptRowName | flask_app.py:65 | a kept row writes `"{company} Antrag {tarif}.pdf"` from its selected template |
| ContractBatch.StepFor | flask_app.py:62-70 | the three outcomes of one loop turn: skip the row, raise on its missing template, or write its filled template under its output name |
| ContractBatch.SkippedAt | flask_app.py:39-60 | a row whose decision is a skip, at any position, changes neither the rest of the run nor the list |
| ContractBatch.ProcessRow | flask_app.py:40-70 | the loop body for row `i` does what that row's decision in `Plan` calls for: skip it, fail on its missing template, or write its filled template |
| ContractBatch.CreateContractsFromExcel | flask_app.py:33-72 | the loop's result and output directory equal `Run` over the rows' decisions; it completes exactly when the templates exist, returning `OutputNames` |
| ContractBatch.AcmeRowContract | flask_app.py:40-47 | an "Acme" gas row is not empty and normalises to commodity "gas", the stripped running time and an empty counter type |
| ContractBatch.AcmeJob | flask_app.py:50-65 | the "Acme" row whose running time strips to "12", however padded, reads `portfolio_tarif_template_gas_12.pdf` and writes `Acme Antrag Portfolio-Tarif.pdf` |
| ContractBatch.AcmePortfolioExample | flask_app.py:39-72 | that single-row batch, for any such running time, returns `["Acme Antrag Portfolio-Tarif.pdf"]` and writes that file |
| ContractBatch.ThirtySixMonthsExample | flask_app.py:50-56 | the same row with 36 months returns the empty list and writes nothing |

## Left out

- The Flask routes (`upload_file`, `index`, and the three downloads `download_pdf`, `download_zip` and `download_template`) and the templates they render are HTTP plumbing.
- Reading the spreadsheet with pandas is left out. The model takes the rows as a sequence of maps from column to cell, and the tariff type as a parameter. The application takes it from the first row's "Tarif" column.
- Crashes on unreadable rows are not modelled. `.strip()` raises on a missing (NaN) selection cell, and a row without a company column raises too. `CreateContractsFromExcel` requires `Readable` rows instead. Numeric cells are not modelled: every non-missing cell is text.
- `CompanyName` writes a missing company cell as "nan", which is how the f-string prints pandas' NaN.
- pdfrw is left out: `PdfReader`, `PdfWriter`, `PdfDict` and the byte format of PDF files. A document is the abstract page and annotation datatype, and an absent `Annots` is the empty sequence.
- Writing files is left out, and so are path joining and `create_output_directory`. The output directory is a map from file name to document that the batch updates.
- `create_zip` is zip file I/O and is left out. Its archive entries are named after the returned list.
- Concurrent uploads that share the output directory and the archive are out of scope.
- Text.LowerChar: only ASCII and Latin-1 capitals are lowered. Python lowers every Unicode capital, and for some of them (`'İ'.lower()` is two characters) it changes the length, which `Text.LowerSpec` says it keeps.
- The in-place `annotation.update` of `generate_pdf` is modelled on values: `GeneratePdf` builds the updated pages instead of mutating pdfrw objects. No aliasing between pages is modelled.
- The running time is only stripped, not lowercased. No lemma states this difference, because "12" and "24" contain no letters and so the selection cannot observe it.
- A non-empty raw name of at most two characters gives the key "" (`field_name[1:-1]`, flask_app.py:29,85). The model keeps that key.
