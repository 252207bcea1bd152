/**
 * `create_contracts_from_excel`: the loop over spreadsheet rows that drops
 * empty rows and rows without a template, fills the selected template with
 * its own fields and records one output file name per kept row.
 *
 * The spreadsheet is a sequence of rows, each a map from column name to
 * cell; the template folder and the output directory are maps from file
 * name to document.
 */
module ContractBatch {
  import opened Wrappers
  import opened Text
  import opened PdfForm
  import opened TemplateSelection

  /** A spreadsheet cell as pandas reads it: missing (NaN) or text. */
  datatype Cell = Blank | Value(text: string)

  type Row = map<string, Cell>

  const CommodityColumn: string := "Gas oder Strom"
  const RunningTimeColumn: string := "Laufzeit"
  const CounterTypeColumn: string := "Zählerart"
  const CompanyColumn: string := "###company###"

  /** `row.isnull().all()`: every cell is missing (true of a row with no columns). */
  predicate IsEmptyRow(row: Row) {
    forall col | col in row :: row[col] == Blank
  }

  /** `.strip()` can be applied to what `row.get(col, "")` returns. */
  predicate Strippable(row: Row, col: string) {
    col in row ==> row[col].Value?
  }

  /**
   * The rows the program gets through without raising: an empty row, or one
   * whose three selection cells are text where present and that has a
   * company column.
   */
  predicate Readable(row: Row) {
    || IsEmptyRow(row)
    || (&& Strippable(row, CommodityColumn)
        && Strippable(row, RunningTimeColumn)
        && Strippable(row, CounterTypeColumn)
        && CompanyColumn in row)
  }

  /** `row.get(col, "")` on a readable row. */
  function CellText(row: Row, col: string): string {
    if col in row && row[col].Value? then row[col].text else ""
  }

  /** `f"{row['###company###']}"`: a missing value prints as "nan". */
  function CompanyName(row: Row): string {
    if CompanyColumn !in row then ""
    else match row[CompanyColumn]
      case Blank => "nan"
      case Value(t) => t
  }

  function RowContract(row: Row): Contract {
    ContractOf(CellText(row, CommodityColumn), CellText(row, RunningTimeColumn), CellText(row, CounterTypeColumn))
  }

  /** The output file name `f"{company_name} Antrag {tarif_type}.pdf"`. */
  function OutputName(company: string, tarif: string): string {
    company + " Antrag " + tarif + ".pdf"
  }

  /** What one kept row does: the template it reads and the file it writes. */
  datatype Job = Job(template: string, output: string)

  /** The job for one row, or `None` when the row is skipped. */
  function JobOf(row: Row, tarif: string): (j: Option<Job>)
    ensures j.Some? <==> !IsEmptyRow(row) && HasRule(tarif, RowContract(row).runningTime)
  {
    if IsEmptyRow(row) then None
    else match SelectTemplate(tarif, RowContract(row))
      case None => None
      case Some(t) => Some(Job(t, OutputName(CompanyName(row), tarif)))
  }

  /** The document written for a row: its template filled with the template's own extracted fields. */
  function Produce(template: Document): Document {
    Filled(Extracted(template), template)
  }

  /** The decision for every row, in row order. */
  function Plan(rows: seq<Row>, tarif: string): (jobs: seq<Option<Job>>)
    ensures |jobs| == |rows|
    decreases |rows|
  {
    if rows == [] then [] else [JobOf(rows[0], tarif)] + Plan(rows[1..], tarif)
  }

  /** The decision at position `i` is the decision for row `i`. */
  lemma {:induction false} PlanAt(rows: seq<Row>, tarif: string, i: int)
    requires 0 <= i < |rows|
    ensures Plan(rows, tarif)[i] == JobOf(rows[i], tarif)
    decreases |rows|
  {
    if i > 0 {
      PlanAt(rows[1..], tarif, i - 1);
    }
  }

  /** The file names of the kept rows, in row order: the list the batch returns. */
  function OutputNames(jobs: seq<Option<Job>>): (names: seq<string>)
    ensures |names| <= |jobs|
  {
    if jobs == [] then []
    else
      var rest := OutputNames(jobs[1..]);
      match jobs[0]
      case None => rest
      case Some(job) => [job.output] + rest
  }

  /** Every kept row's template is in the template folder. */
  ghost predicate TemplatesAvailable(jobs: seq<Option<Job>>, templates: map<string, Document>) {
    forall i | 0 <= i < |jobs| && jobs[i].Some? :: jobs[i].value.template in templates
  }

  /** Reading a template that is not in the folder raises and ends the batch. */
  datatype BatchError = TemplateNotFound(template: string)

  datatype BatchResult = BatchResult(pdfFiles: Result<seq<string>, BatchError>, outputDir: map<string, Document>)

  /**
   * The loop of `create_contracts_from_excel` from some row on, given the
   * rows' decisions, the output directory and the list `pdf_files` built so far.
   */
  function Run(jobs: seq<Option<Job>>, templates: map<string, Document>,
               dir: map<string, Document>, pdfFiles: seq<string>): BatchResult
    decreases |jobs|
  {
    if jobs == [] then BatchResult(Ok(pdfFiles), dir)
    else match jobs[0]
      case None => Run(jobs[1..], templates, dir, pdfFiles)
      case Some(job) =>
        if job.template !in templates then BatchResult(Err(TemplateNotFound(job.template)), dir)
        else Run(jobs[1..], templates, dir[job.output := Produce(templates[job.template])], pdfFiles + [job.output])
  }

  /** The indices of the kept rows, shifted by `base`, in increasing order. */
  function KeptFrom(jobs: seq<Option<Job>>, base: nat): seq<nat>
  {
    if jobs == [] then []
    else (if jobs[0].Some? then [base] else []) + KeptFrom(jobs[1..], base + 1)
  }

  lemma {:induction false} KeptFromLength(jobs: seq<Option<Job>>, base: nat)
    ensures |KeptFrom(jobs, base)| == |OutputNames(jobs)|
    decreases |jobs|
  {
    if jobs != [] {
      KeptFromLength(jobs[1..], base + 1);
    }
  }

  lemma {:induction false} KeptFromBounds(jobs: seq<Option<Job>>, base: nat)
    ensures forall k :: 0 <= k < |KeptFrom(jobs, base)| ==> base <= KeptFrom(jobs, base)[k] < base + |jobs|
    decreases |jobs|
  {
    if jobs != [] {
      KeptFromBounds(jobs[1..], base + 1);
    }
  }

  lemma {:induction false} KeptFromIncreasing(jobs: seq<Option<Job>>, base: nat)
    ensures forall k, l :: 0 <= k < l < |KeptFrom(jobs, base)| ==> KeptFrom(jobs, base)[k] < KeptFrom(jobs, base)[l]
    decreases |jobs|
  {
    if jobs != [] {
      KeptFromBounds(jobs[1..], base + 1);
      KeptFromIncreasing(jobs[1..], base + 1);
    }
  }

  lemma {:induction false} KeptFromComplete(jobs: seq<Option<Job>>, base: nat)
    ensures forall i :: 0 <= i < |jobs| && jobs[i].Some? ==> base + i in KeptFrom(jobs, base)
    decreases |jobs|
  {
    if jobs != [] {
      var tail := jobs[1..];
      KeptFromComplete(tail, base + 1);
      forall i | 0 <= i < |jobs| && jobs[i].Some? ensures base + i in KeptFrom(jobs, base) {
        if i > 0 { assert tail[i - 1] == jobs[i]; }
      }
    }
  }

  lemma {:induction false} KeptFromNames(jobs: seq<Option<Job>>, base: nat, k: nat)
    requires k < |KeptFrom(jobs, base)|
    ensures base <= KeptFrom(jobs, base)[k] < base + |jobs| && k < |OutputNames(jobs)|
    ensures jobs[KeptFrom(jobs, base)[k] - base].Some?
    ensures OutputNames(jobs)[k] == jobs[KeptFrom(jobs, base)[k] - base].value.output
    decreases |jobs|
  {
    var tail := jobs[1..];
    var ks, rest := KeptFrom(jobs, base), KeptFrom(tail, base + 1);
    if jobs[0].Some? {
      if k > 0 {
        KeptFromNames(tail, base + 1, k - 1);
        assert ks[k] == rest[k - 1];
        assert jobs[ks[k] - base] == tail[rest[k - 1] - (base + 1)];
      }
    } else {
      KeptFromNames(tail, base + 1, k);
      assert ks[k] == rest[k];
      assert jobs[ks[k] - base] == tail[rest[k] - (base + 1)];
    }
  }

  /** The indices of the kept rows. */
  function KeptRows(jobs: seq<Option<Job>>): seq<nat>
  {
    KeptFrom(jobs, 0)
  }

  /**
   * The returned list is the kept rows' names in row order: entry `k` is the
   * name of the `k`-th kept row, the kept rows are taken in increasing
   * order, and no kept row is missing.
   */
  lemma OutputNamesAreKeptRows(jobs: seq<Option<Job>>)
    ensures var ks, names := KeptRows(jobs), OutputNames(jobs);
      && |ks| == |names| <= |jobs|
      && (forall k :: 0 <= k < |ks| ==> ks[k] < |jobs| && jobs[ks[k]].Some? && names[k] == jobs[ks[k]].value.output)
      && (forall k, l :: 0 <= k < l < |ks| ==> ks[k] < ks[l])
      && (forall i :: 0 <= i < |jobs| && jobs[i].Some? ==> i in ks)
  {
    KeptFromLength(jobs, 0);
    KeptFromBounds(jobs, 0);
    KeptFromIncreasing(jobs, 0);
    KeptFromComplete(jobs, 0);
    forall k | 0 <= k < |KeptRows(jobs)|
      ensures jobs[KeptRows(jobs)[k]].Some? && OutputNames(jobs)[k] == jobs[KeptRows(jobs)[k]].value.output
    {
      KeptFromNames(jobs, 0, k);
    }
  }

  /**
   * The batch completes exactly when every kept row's template exists, and
   * then it returns the kept rows' names after those recorded before.
   */
  lemma {:induction false} RunOutcome(jobs: seq<Option<Job>>, templates: map<string, Document>,
                                      dir: map<string, Document>, pdfFiles: seq<string>)
    ensures Run(jobs, templates, dir, pdfFiles).pdfFiles.Ok? <==> TemplatesAvailable(jobs, templates)
    ensures Run(jobs, templates, dir, pdfFiles).pdfFiles.Ok? ==>
            Run(jobs, templates, dir, pdfFiles).pdfFiles.value == pdfFiles + OutputNames(jobs)
    decreases |jobs|
  {
    if jobs != [] {
      var tail := jobs[1..];
      assert forall i :: 0 < i < |jobs| ==> jobs[i] == tail[i - 1];
      match jobs[0]
      case None =>
        RunOutcome(tail, templates, dir, pdfFiles);
      case Some(job) =>
        if job.template in templates {
          RunOutcome(tail, templates, dir[job.output := Produce(templates[job.template])], pdfFiles + [job.output]);
        }
    }
  }

  /**
   * When the batch stops, it names the missing template of a kept row.
   * `RunFirstFailure` says which row; this is the part that follows from
   * the error alone.
   */
  lemma {:induction false} RunFailure(jobs: seq<Option<Job>>, templates: map<string, Document>,
                                      dir: map<string, Document>, pdfFiles: seq<string>)
    requires Run(jobs, templates, dir, pdfFiles).pdfFiles.Err?
    ensures var t := Run(jobs, templates, dir, pdfFiles).pdfFiles.error.template;
      && t !in templates
      && exists i :: 0 <= i < |jobs| && jobs[i].Some? && jobs[i].value.template == t
    decreases |jobs|
  {
    var tail := jobs[1..];
    var t := Run(jobs, templates, dir, pdfFiles).pdfFiles.error.template;
    match jobs[0]
    case None =>
      RunFailure(tail, templates, dir, pdfFiles);
      var i :| 0 <= i < |tail| && tail[i].Some? && tail[i].value.template == t;
      assert jobs[i + 1] == tail[i];
    case Some(job) =>
      if job.template in templates {
        RunFailure(tail, templates, dir[job.output := Produce(templates[job.template])], pdfFiles + [job.output]);
        var i :| 0 <= i < |tail| && tail[i].Some? && tail[i].value.template == t;
        assert jobs[i + 1] == tail[i];
      }
  }

  /**
   * The batch stops at the first kept row whose template is missing: it
   * reports that template, and the output directory holds what the rows
   * before it wrote.
   */
  lemma {:induction false} RunFirstFailure(jobs: seq<Option<Job>>, i: int, templates: map<string, Document>,
                                           dir: map<string, Document>, pdfFiles: seq<string>)
    requires 0 <= i < |jobs| && jobs[i].Some? && jobs[i].value.template !in templates
    requires TemplatesAvailable(jobs[..i], templates)
    ensures Run(jobs, templates, dir, pdfFiles).pdfFiles == Err(TemplateNotFound(jobs[i].value.template))
    ensures Run(jobs, templates, dir, pdfFiles).outputDir == Run(jobs[..i], templates, dir, pdfFiles).outputDir
    decreases i
  {
    if i > 0 {
      var tail := jobs[1..];
      assert jobs[..i][0] == jobs[0] && jobs[..i][1..] == tail[..i - 1];
      var before := tail[..i - 1];
      assert TemplatesAvailable(before, templates) by {
        forall k | 0 <= k < |before| && before[k].Some? ensures before[k].value.template in templates {
          assert before[k] == jobs[..i][k + 1];
        }
      }
      assert jobs[0] == jobs[..i][0];
      match jobs[0]
      case None =>
        RunFirstFailure(tail, i - 1, templates, dir, pdfFiles);
      case Some(job) =>
        RunFirstFailure(tail, i - 1, templates, dir[job.output := Produce(templates[job.template])],
                        pdfFiles + [job.output]);
    }
  }

  /** A batch whose rows never write `n` leaves `dir[n]` as it was. */
  lemma {:induction false} RunKeeps(jobs: seq<Option<Job>>, templates: map<string, Document>,
                                    dir: map<string, Document>, pdfFiles: seq<string>, n: string)
    requires n in dir
    requires forall k | 0 <= k < |jobs| && jobs[k].Some? :: jobs[k].value.output != n
    ensures n in Run(jobs, templates, dir, pdfFiles).outputDir
    ensures Run(jobs, templates, dir, pdfFiles).outputDir[n] == dir[n]
    decreases |jobs|
  {
    if jobs != [] {
      var tail := jobs[1..];
      assert forall k | 0 <= k < |tail| && tail[k].Some? :: tail[k].value.output != n by {
        forall k | 0 <= k < |tail| && tail[k].Some? ensures tail[k].value.output != n {
          assert tail[k] == jobs[k + 1];
        }
      }
      match jobs[0]
      case None =>
        RunKeeps(tail, templates, dir, pdfFiles, n);
      case Some(job) =>
        if job.template in templates {
          RunKeeps(tail, templates, dir[job.output := Produce(templates[job.template])], pdfFiles + [job.output], n);
        }
    }
  }

  /**
   * A kept row whose template exists, and whose file no later row writes
   * again, leaves its own filled template in the output directory, whether
   * or not a later row fails.
   */
  lemma {:induction false} RunLastWriter(jobs: seq<Option<Job>>, i: int, templates: map<string, Document>,
                                         dir: map<string, Document>, pdfFiles: seq<string>)
    requires 0 <= i < |jobs| && jobs[i].Some?
    requires TemplatesAvailable(jobs[..i + 1], templates)
    requires forall k | i < k < |jobs| && jobs[k].Some? :: jobs[k].value.output != jobs[i].value.output
    ensures jobs[i].value.template in templates
    ensures jobs[i].value.output in Run(jobs, templates, dir, pdfFiles).outputDir
    ensures Run(jobs, templates, dir, pdfFiles).outputDir[jobs[i].value.output]
            == Produce(templates[jobs[i].value.template])
    decreases i
  {
    assert jobs[..i + 1][i] == jobs[i];
    var tail := jobs[1..];
    assert jobs[..i + 1][0] == jobs[0];
    match jobs[0]
    case None =>
      RunLastWriterTail(jobs, i, templates, dir, pdfFiles);
      RunLastWriter(tail, i - 1, templates, dir, pdfFiles);
    case Some(job) =>
      var dir' := dir[job.output := Produce(templates[job.template])];
      if i == 0 {
        forall k | 0 <= k < |tail| && tail[k].Some? ensures tail[k].value.output != job.output {
          assert tail[k] == jobs[k + 1];
        }
        RunKeeps(tail, templates, dir', pdfFiles + [job.output], job.output);
      } else {
        RunLastWriterTail(jobs, i, templates, dir, pdfFiles);
        RunLastWriter(tail, i - 1, templates, dir', pdfFiles + [job.output]);
      }
  }

  /** The preconditions of `RunLastWriter` carry over to the rest of the batch. */
  lemma RunLastWriterTail(jobs: seq<Option<Job>>, i: int, templates: map<string, Document>,
                          dir: map<string, Document>, pdfFiles: seq<string>)
    requires 0 < i < |jobs| && jobs[i].Some?
    requires TemplatesAvailable(jobs[..i + 1], templates)
    requires forall k | i < k < |jobs| && jobs[k].Some? :: jobs[k].value.output != jobs[i].value.output
    ensures var tail := jobs[1..];
      && tail[i - 1] == jobs[i]
      && TemplatesAvailable(tail[..i], templates)
      && forall k | i - 1 < k < |tail| && tail[k].Some? :: tail[k].value.output != tail[i - 1].value.output
  {
    var tail := jobs[1..];
    forall k | 0 <= k < i && tail[..i][k].Some? ensures tail[..i][k].value.template in templates {
      assert tail[..i][k] == jobs[..i + 1][k + 1];
    }
    forall k | i - 1 < k < |tail| && tail[k].Some? ensures tail[k].value.output != tail[i - 1].value.output {
      assert tail[k] == jobs[k + 1];
    }
  }

  /** The document is what the program writes for some template of the folder. */
  ghost predicate FromTemplate(doc: Document, templates: map<string, Document>) {
    exists t :: t in templates && doc == Produce(templates[t])
  }

  /**
   * `out` is `dir` with exactly the files `names` added or replaced, each
   * holding a filled template.
   */
  ghost predicate WritesExactly(out: map<string, Document>, dir: map<string, Document>, names: seq<string>,
                                templates: map<string, Document>) {
    && (forall n :: n in out <==> n in dir || n in names)
    && (forall n :: n in dir && n !in names ==> out[n] == dir[n])
    && (forall n :: n in names ==> FromTemplate(out[n], templates))
  }

  /** Writing one more file first extends what is written. */
  lemma WritesExactlyCons(out: map<string, Document>, dir: map<string, Document>, name: string, doc: Document,
                          rest: seq<string>, templates: map<string, Document>)
    requires WritesExactly(out, dir[name := doc], rest, templates) && FromTemplate(doc, templates)
    ensures WritesExactly(out, dir, [name] + rest, templates)
  {
    var names := [name] + rest;
    forall n ensures n in names <==> n == name || n in rest {
    }
    forall n | n in names ensures FromTemplate(out[n], templates) {
      if n !in rest {
        assert out[n] == dir[name := doc][n] == doc;
      }
    }
  }

  /**
   * A completed batch adds exactly the returned names to the output
   * directory, each holding a filled template, and leaves every other file
   * as it was.
   */
  lemma {:induction false} RunOutputDir(jobs: seq<Option<Job>>, templates: map<string, Document>,
                                        dir: map<string, Document>, pdfFiles: seq<string>)
    requires TemplatesAvailable(jobs, templates)
    ensures WritesExactly(Run(jobs, templates, dir, pdfFiles).outputDir, dir, OutputNames(jobs), templates)
    decreases |jobs|
  {
    if jobs != [] {
      var tail := jobs[1..];
      assert forall i :: 0 < i < |jobs| ==> jobs[i] == tail[i - 1];
      assert TemplatesAvailable(tail, templates);
      match jobs[0]
      case None =>
        RunOutputDir(tail, templates, dir, pdfFiles);
      case Some(job) =>
        var doc := Produce(templates[job.template]);
        RunOutputDir(tail, templates, dir[job.output := doc], pdfFiles + [job.output]);
        assert FromTemplate(doc, templates);
        WritesExactlyCons(Run(jobs, templates, dir, pdfFiles).outputDir, dir, job.output, doc,
                          OutputNames(tail), templates);
    } else {
      assert WritesExactly(dir, dir, [], templates);
    }
  }

  /** Every file in `out` is either the one `dir` held under that name or a filled template of the folder. */
  ghost predicate KeptOrFromTemplate(out: map<string, Document>, dir: map<string, Document>,
                                     templates: map<string, Document>) {
    forall n | n in out :: (n in dir && out[n] == dir[n]) || FromTemplate(out[n], templates)
  }

  /** Whether it completes or stops, a batch only ever writes filled templates. */
  lemma {:induction false} RunWritesTemplates(jobs: seq<Option<Job>>, templates: map<string, Document>,
                                              dir: map<string, Document>, pdfFiles: seq<string>)
    ensures KeptOrFromTemplate(Run(jobs, templates, dir, pdfFiles).outputDir, dir, templates)
    decreases |jobs|
  {
    if jobs != [] {
      var tail := jobs[1..];
      match jobs[0]
      case None =>
        RunWritesTemplates(tail, templates, dir, pdfFiles);
      case Some(job) =>
        if job.template in templates {
          var doc := Produce(templates[job.template]);
          var dir' := dir[job.output := doc];
          RunWritesTemplates(tail, templates, dir', pdfFiles + [job.output]);
          var out := Run(jobs, templates, dir, pdfFiles).outputDir;
          assert out == Run(tail, templates, dir', pdfFiles + [job.output]).outputDir;
          forall n | n in out ensures (n in dir && out[n] == dir[n]) || FromTemplate(out[n], templates) {
            if n in dir' && out[n] == dir'[n] {
              if n == job.output {
                assert job.template in templates && out[n] == Produce(templates[job.template]);
              } else {
                assert n in dir && dir'[n] == dir[n];
              }
            }
          }
        }
    }
  }

  /**
   * Every named field of every file a batch adds or changes reads "None",
   * also when the batch later stops at a missing template.
   */
  lemma WrittenFieldsReadNone(jobs: seq<Option<Job>>, templates: map<string, Document>,
                              dir: map<string, Document>, pdfFiles: seq<string>, n: string, p: int, j: int)
    requires var out := Run(jobs, templates, dir, pdfFiles).outputDir;
             n in out && (n !in dir || out[n] != dir[n]) && 0 <= p < |out[n]| && 0 <= j < |out[n][p].annots|
    ensures var a := Run(jobs, templates, dir, pdfFiles).outputDir[n][p].annots[j];
            Named(a) ==> a.value == Some("None")
  {
    RunWritesTemplates(jobs, templates, dir, pdfFiles);
    var out := Run(jobs, templates, dir, pdfFiles).outputDir;
    assert FromTemplate(out[n], templates);
    var t :| t in templates && out[n] == Produce(templates[t]);
    FillFromExtracted(templates[t], p, j);
  }

  /** A run over decisions that are all skips reads and writes nothing and returns what it was given. */
  lemma {:induction false} AllSkippedProducesNothing(jobs: seq<Option<Job>>, templates: map<string, Document>,
                                                     dir: map<string, Document>, pdfFiles: seq<string>)
    requires forall i | 0 <= i < |jobs| :: jobs[i] == None
    ensures Run(jobs, templates, dir, pdfFiles) == BatchResult(Ok(pdfFiles), dir)
    ensures OutputNames(jobs) == []
    decreases |jobs|
  {
    if jobs != [] {
      assert forall i :: 0 < i < |jobs| ==> jobs[1..][i - 1] == jobs[i];
      AllSkippedProducesNothing(jobs[1..], templates, dir, pdfFiles);
    }
  }

  /** With a tariff other than portfolio or spot nothing is read or written and the list is empty. */
  lemma UnknownTarifProducesNothing(rows: seq<Row>, tarif: string, templates: map<string, Document>,
                                    dir: map<string, Document>)
    requires tarif != PortfolioTarif && tarif != SpotTarif
    ensures Run(Plan(rows, tarif), templates, dir, []) == BatchResult(Ok([]), dir)
    ensures OutputNames(Plan(rows, tarif)) == []
  {
    var jobs := Plan(rows, tarif);
    forall i | 0 <= i < |jobs| ensures jobs[i] == None {
      PlanAt(rows, tarif, i);
    }
    AllSkippedProducesNothing(jobs, templates, dir, []);
  }

  /** An empty row, wherever it stands, is passed over before any template is looked up. */
  lemma EmptyRowSkipped(rows: seq<Row>, i: int, tarif: string, templates: map<string, Document>,
                        dir: map<string, Document>, pdfFiles: seq<string>)
    requires 0 <= i < |rows| && IsEmptyRow(rows[i])
    ensures var jobs := Plan(rows, tarif);
      && Run(jobs[i..], templates, dir, pdfFiles) == Run(jobs[i + 1..], templates, dir, pdfFiles)
      && OutputNames(jobs[i..]) == OutputNames(jobs[i + 1..])
  {
    SkippedAt(rows, i, tarif, templates, dir, pdfFiles);
  }

  /** A portfolio row whose running time is neither 12 nor 24, wherever it stands, is passed over. */
  lemma PortfolioOtherRunningTimeSkipped(rows: seq<Row>, i: int, templates: map<string, Document>,
                                         dir: map<string, Document>, pdfFiles: seq<string>)
    requires 0 <= i < |rows|
    requires Strip(CellText(rows[i], RunningTimeColumn)) != "12" && Strip(CellText(rows[i], RunningTimeColumn)) != "24"
    ensures var jobs := Plan(rows, PortfolioTarif);
      && Run(jobs[i..], templates, dir, pdfFiles) == Run(jobs[i + 1..], templates, dir, pdfFiles)
      && OutputNames(jobs[i..]) == OutputNames(jobs[i + 1..])
  {
    SkippedAt(rows, i, PortfolioTarif, templates, dir, pdfFiles);
  }

  /** A row whose decision is a skip changes neither the rest of the run nor the list. */
  lemma SkippedAt(rows: seq<Row>, i: int, tarif: string, templates: map<string, Document>,
                  dir: map<string, Document>, pdfFiles: seq<string>)
    requires 0 <= i < |rows| && JobOf(rows[i], tarif).None?
    ensures var jobs := Plan(rows, tarif);
      && Run(jobs[i..], templates, dir, pdfFiles) == Run(jobs[i + 1..], templates, dir, pdfFiles)
      && OutputNames(jobs[i..]) == OutputNames(jobs[i + 1..])
  {
    var jobs := Plan(rows, tarif);
    PlanAt(rows, tarif, i);
    RunStep(jobs, i, templates, dir, pdfFiles);
    assert jobs[i..][0] == jobs[i] && jobs[i..][1..] == jobs[i + 1..];
  }

  /** A kept row writes the name made of its company and the tariff. */
  lemma KeptRowName(row: Row, tarif: string)
    requires JobOf(row, tarif).Some?
    ensures JobOf(row, tarif).value.output == CompanyName(row) + " Antrag " + tarif + ".pdf"
    ensures JobOf(row, tarif).value.template == SelectTemplate(tarif, RowContract(row)).value
  {
  }

  /** What the loop body does with one row. */
  datatype RowStep = Skipped | MissingTemplate(template: string) | Wrote(output: string, doc: Document)

  /** The step a row's decision calls for. */
  function StepFor(job: Option<Job>, templates: map<string, Document>): RowStep {
    match job
    case None => Skipped
    case Some(j) => if j.template in templates then Wrote(j.output, Produce(templates[j.template])) else MissingTemplate(j.template)
  }

  /** One turn of the loop: what `Run` does with the first decision. */
  lemma RunStep(jobs: seq<Option<Job>>, i: int, templates: map<string, Document>,
                dir: map<string, Document>, pdfFiles: seq<string>)
    requires 0 <= i < |jobs|
    ensures var step := StepFor(jobs[i], templates);
      && (step.Skipped? ==> Run(jobs[i..], templates, dir, pdfFiles) == Run(jobs[i + 1..], templates, dir, pdfFiles))
      && (step.MissingTemplate? ==>
            Run(jobs[i..], templates, dir, pdfFiles) == BatchResult(Err(TemplateNotFound(step.template)), dir))
      && (step.Wrote? ==>
            Run(jobs[i..], templates, dir, pdfFiles)
            == Run(jobs[i + 1..], templates, dir[step.output := step.doc], pdfFiles + [step.output]))
  {
    assert jobs[i..][0] == jobs[i] && jobs[i..][1..] == jobs[i + 1..];
  }

  /**
   * The body of the row loop of `create_contracts_from_excel`: skip an empty
   * row, normalise its cells, select a template (or skip), read the
   * template's fields and fill it.
   */
  method ProcessRow(rows: seq<Row>, i: int, tarif: string, templates: map<string, Document>) returns (step: RowStep)
    requires 0 <= i < |rows| && Readable(rows[i])
    ensures step == StepFor(Plan(rows, tarif)[i], templates)
  {
    PlanAt(rows, tarif, i);
    var row := rows[i];
    if IsEmptyRow(row) {
      return Skipped;
    }
    var gasOrStrom := Normalize(CellText(row, CommodityColumn));
    var runningTime := Strip(CellText(row, RunningTimeColumn));
    var counterType := Normalize(CellText(row, CounterTypeColumn));
    var companyName := CompanyName(row);
    var contract := Contract(gasOrStrom, runningTime, counterType);
    assert contract == RowContract(row);
    var selected := SelectTemplate(tarif, contract);
    if selected.None? {
      assert JobOf(row, tarif) == None;
      return Skipped;
    }
    var templateName := selected.value;
    var outputPdfName := OutputName(companyName, tarif);
    assert JobOf(row, tarif) == Some(Job(templateName, outputPdfName));
    if templateName !in templates {
      return MissingTemplate(templateName);
    }
    var template := templates[templateName];
    var filledFields := GetPdfFields(template);
    var written := GeneratePdf(filledFields, template);
    return Wrote(outputPdfName, written);
  }

  /**
   * `create_contracts_from_excel` with the spreadsheet already read: rows in
   * order, the batch's tariff, the template folder and the output directory
   * as it stands before the run.
   */
  method CreateContractsFromExcel(rows: seq<Row>, tarif: string, templates: map<string, Document>,
                                  outputDir: map<string, Document>)
    returns (pdfFiles: Result<seq<string>, BatchError>, newOutputDir: map<string, Document>)
    requires forall i | 0 <= i < |rows| :: Readable(rows[i])
    ensures BatchResult(pdfFiles, newOutputDir) == Run(Plan(rows, tarif), templates, outputDir, [])
    ensures pdfFiles.Ok? <==> TemplatesAvailable(Plan(rows, tarif), templates)
    ensures pdfFiles.Ok? ==> pdfFiles.value == OutputNames(Plan(rows, tarif))
  {
    ghost var jobs := Plan(rows, tarif);
    var files: seq<string> := [];
    var dir := outputDir;
    var i := 0;
    assert jobs[i..] == jobs;
    while i < |rows|
      invariant 0 <= i <= |rows|
      invariant Run(jobs[i..], templates, dir, files) == Run(jobs, templates, outputDir, [])
    {
      var step := ProcessRow(rows, i, tarif, templates);
      RunStep(jobs, i, templates, dir, files);
      match step {
        case Skipped =>
        case MissingTemplate(templateName) =>
          pdfFiles, newOutputDir := Err(TemplateNotFound(templateName)), dir;
          RunOutcome(jobs, templates, outputDir, []);
          return;
        case Wrote(outputPdfName, written) =>
          dir := dir[outputPdfName := written];
          files := files + [outputPdfName];
      }
      i := i + 1;
    }
    pdfFiles, newOutputDir := Ok(files), dir;
    RunOutcome(jobs, templates, outputDir, []);
  }

  /** A "Portfolio-Tarif" spreadsheet row for the company "Acme" with gas as commodity and no counter type. */
  function AcmeRow(runningTime: string): Row {
    map[CommodityColumn := Value("Gas"), RunningTimeColumn := Value(runningTime),
        CompanyColumn := Value("Acme")]
  }

  /** The row is not empty, its company is "Acme" and it normalises to gas with the stripped running time. */
  lemma AcmeRowContract(runningTime: string)
    ensures !IsEmptyRow(AcmeRow(runningTime))
    ensures CompanyName(AcmeRow(runningTime)) == "Acme"
    ensures RowContract(AcmeRow(runningTime)) == Contract("gas", Strip(runningTime), "")
  {
    var row := AcmeRow(runningTime);
    assert row[CommodityColumn] != Blank;
    assert CellText(row, CommodityColumn) == "Gas";
    assert CellText(row, CounterTypeColumn) == "";
    GasCase();
    GasNormal();
    assert Normalize("") == "" by {
      StripTrimmed("");
    }
  }

  /** The "Acme" row with a 12-month running time, however padded, is kept and reads the 12-month gas template. */
  lemma AcmeJob(runningTime: string)
    requires Strip(runningTime) == "12"
    ensures JobOf(AcmeRow(runningTime), PortfolioTarif)
            == Some(Job("portfolio_tarif_template_gas_12.pdf", "Acme Antrag Portfolio-Tarif.pdf"))
  {
    AcmeRowContract(runningTime);
    var c := Contract("gas", "12", "");
    PortfolioTemplate(c);
    AcmeNames();
  }

  /** The two file names of the "Acme" example, spelled out. */
  lemma AcmeNames()
    ensures "portfolio_tarif_template_" + "gas" + "_" + "12" + ".pdf" == "portfolio_tarif_template_gas_12.pdf"
    ensures OutputName("Acme", PortfolioTarif) == "Acme Antrag Portfolio-Tarif.pdf"
  {
  }

  /** A single-row batch: "Acme", gas, 12 months. */
  lemma AcmePortfolioExample(runningTime: string, template: Document, dir: map<string, Document>)
    requires Strip(runningTime) == "12"
    ensures var templates := map["portfolio_tarif_template_gas_12.pdf" := template];
            Run(Plan([AcmeRow(runningTime)], PortfolioTarif), templates, dir, [])
            == BatchResult(Ok(["Acme Antrag Portfolio-Tarif.pdf"]),
                           dir["Acme Antrag Portfolio-Tarif.pdf" := Produce(template)])
  {
    AcmeJob(runningTime);
    var templates := map["portfolio_tarif_template_gas_12.pdf" := template];
    var job := Job("portfolio_tarif_template_gas_12.pdf", "Acme Antrag Portfolio-Tarif.pdf");
    var jobs := Plan([AcmeRow(runningTime)], PortfolioTarif);
    assert jobs == [Some(job)];
    var dir' := dir[job.output := Produce(template)];
    assert jobs[0] == Some(job) && job.template in templates;
    assert [] + [job.output] == [job.output];
    assert Run(jobs, templates, dir, []) == Run(jobs[1..], templates, dir', [job.output]);
    assert jobs[1..] == [];
  }

  /** The same row with a 36-month running time produces nothing. */
  lemma ThirtySixMonthsExample(templates: map<string, Document>, dir: map<string, Document>)
    ensures Run(Plan([AcmeRow("36")], PortfolioTarif), templates, dir, []) == BatchResult(Ok([]), dir)
  {
    AcmeRowContract("36");
    StripTrimmed("36");
    var jobs := Plan([AcmeRow("36")], PortfolioTarif);
    assert jobs[0] == None;
  }
}
