/*
 * The /api/download/csv endpoint: a report laid out as a fixed sequence of
 * rows (title, the three request fields, a blank row, the condition table,
 * a blank row, the historical table) and written through csv.writer.
 */
module CsvExport {
  import opened Wrappers
  import opened Decimal
  import opened Analysis
  import opened CsvText

  /** Indexing temperature or precipitation past its end raises IndexError. */
  datatype ExportError = IndexOutOfRange

  /** csv.writer writes None as an empty field. */
  function Cell(v: Option<string>): string
  {
    match v
    case Some(s) => s
    case None => ""
  }

  const TitleRow: seq<string> := ["Weather Analysis Report"]
  const ConditionHeader: seq<string> := ["Condition", "Probability (%)", "Details"]
  const HistoryTitleRow: seq<string> := ["Historical Data"]
  const PeriodHeader: seq<string> := ["Period", "Temperature (¬∞F)", "Precipitation (inches)"]

  /** Rows 0-5: title, location, date, time range, a blank row, the condition header. */
  function Preamble(report: Report): (rows: seq<seq<string>>)
    ensures |rows| == 6
  {
    [TitleRow,
     ["Location", Cell(report.location)],
     ["Date", Cell(report.date)],
     ["Time Range", Cell(report.timeRange)],
     [],
     ConditionHeader]
  }

  /** str() of each value: the label, the integer probability, the details. */
  function ConditionRow(c: ConditionResult): (row: seq<string>)
    ensures |row| == 3 && row[0] == c.labelText && row[2] == c.details
  {
    [c.labelText, IntToString(c.probability), c.details]
  }

  function ConditionRows(probabilities: seq<ConditionResult>): (rows: seq<seq<string>>)
    ensures |rows| == |probabilities|
  {
    seq(|probabilities|, i requires 0 <= i < |probabilities| => ConditionRow(probabilities[i]))
  }

  /** Every label has a temperature and a precipitation at its index. */
  predicate Aligned(h: HistoricalData)
  {
    |h.labels| <= |h.temperature| && |h.labels| <= |h.precipitation|
  }

  /** The period row of index i: the label, str() of the temperature and of the rounded precipitation. */
  function PeriodRow(h: HistoricalData, i: nat): (row: seq<string>)
    requires i < |h.labels| && i < |h.temperature| && i < |h.precipitation|
    ensures |row| == 3 && row[0] == h.labels[i]
  {
    [h.labels[i], IntToString(h.temperature[i]), FormatHundredths(h.precipitation[i])]
  }

  /** The first n period rows. */
  function PeriodRows(h: HistoricalData, n: nat): (rows: seq<seq<string>>)
    requires n <= |h.labels| && n <= |h.temperature| && n <= |h.precipitation|
    ensures |rows| == n
  {
    seq(n, i requires 0 <= i < n => PeriodRow(h, i))
  }

  /** The rows download_csv writes for a report whose series are aligned. */
  function CsvRows(report: Report): (rows: seq<seq<string>>)
    requires Aligned(report.historicalData)
    ensures |rows| == 9 + |report.probabilities| + |report.historicalData.labels|
  {
    var h := report.historicalData;
    Preamble(report) + ConditionRows(report.probabilities) + [[], HistoryTitleRow, PeriodHeader]
      + PeriodRows(h, |h.labels|)
  }

  /**
   * The layout: 9 + |probabilities| + |labels| rows, the request fields in
   * rows 1-3, the condition rows in stored order from row 6, then a blank
   * row, the two headers, and one row per label.
   */
  lemma CsvLayout(report: Report)
    requires Aligned(report.historicalData)
    ensures var rows, p, h := CsvRows(report), report.probabilities, report.historicalData;
      |rows| == 9 + |p| + |h.labels| &&
      rows[0] == TitleRow &&
      rows[1] == ["Location", Cell(report.location)] &&
      rows[2] == ["Date", Cell(report.date)] &&
      rows[3] == ["Time Range", Cell(report.timeRange)] &&
      rows[4] == [] && rows[5] == ConditionHeader &&
      (forall i :: 0 <= i < |p| ==> rows[6 + i] == ConditionRow(p[i])) &&
      rows[6 + |p|] == [] && rows[7 + |p|] == HistoryTitleRow && rows[8 + |p|] == PeriodHeader &&
      (forall i :: 0 <= i < |h.labels| ==> rows[9 + |p| + i] == PeriodRow(h, i))
  {
    var rows, p, h := CsvRows(report), report.probabilities, report.historicalData;
    var front := Preamble(report) + ConditionRows(p) + [[], HistoryTitleRow, PeriodHeader];
    assert rows == front + PeriodRows(h, |h.labels|);
    assert |front| == 9 + |p|;
    forall i | 0 <= i < |p|
      ensures rows[6 + i] == ConditionRow(p[i])
    {
      assert rows[6 + i] == front[6 + i];
      assert front[6 + i] == (Preamble(report) + ConditionRows(p))[6 + i];
    }
    forall i | 0 <= i < |h.labels|
      ensures rows[9 + |p| + i] == PeriodRow(h, i)
    {
      assert rows[9 + |p| + i] == PeriodRows(h, |h.labels|)[i];
    }
  }

  /** A condition row gives back the probability it was written from. */
  lemma ConditionRowReadBack(c: ConditionResult)
    ensures ReadInt(ConditionRow(c)[1]) == Some((c.probability, ""))
  {
    ReadIntRoundTrip(c.probability, "");
    assert IntToString(c.probability) + "" == IntToString(c.probability);
  }

  /** A period row gives back the temperature and the precipitation it was written from. */
  lemma PeriodRowReadBack(h: HistoricalData, i: nat)
    requires i < |h.labels| && i < |h.temperature| && i < |h.precipitation|
    ensures ReadInt(PeriodRow(h, i)[1]) == Some((h.temperature[i], ""))
    ensures ReadHundredths(PeriodRow(h, i)[2]) == Some(h.precipitation[i])
  {
    ReadIntRoundTrip(h.temperature[i], "");
    assert IntToString(h.temperature[i]) + "" == IntToString(h.temperature[i]);
    HundredthsRoundTrip(h.precipitation[i]);
  }

  /** The title, the three request fields, a blank row and the condition header. */
  method WritePreamble(writer: CsvWriter, report: Report)
    modifies writer
    ensures writer.rows == old(writer.rows) + Preamble(report)
  {
    writer.WriteRow(TitleRow);
    writer.WriteRow(["Location", Cell(report.location)]);
    writer.WriteRow(["Date", Cell(report.date)]);
    writer.WriteRow(["Time Range", Cell(report.timeRange)]);
    writer.WriteRow([]);
    writer.WriteRow(ConditionHeader);
  }

  /** The condition loop of download_csv: one row per stored condition, in order. */
  method WriteConditionRows(writer: CsvWriter, probabilities: seq<ConditionResult>)
    modifies writer
    ensures writer.rows == old(writer.rows) + ConditionRows(probabilities)
  {
    ghost var start := writer.rows;
    ghost var rows := ConditionRows(probabilities);
    var k := 0;
    while k < |probabilities|
      invariant 0 <= k <= |probabilities|
      invariant writer.rows == start + rows[..k]
    {
      writer.WriteRow(ConditionRow(probabilities[k]));
      assert rows[..k + 1] == rows[..k] + [rows[k]];
      k := k + 1;
    }
    assert rows[..k] == rows;
  }

  /**
   * The period loop of download_csv: for label i it reads temperature[i] and
   * precipitation[i], and stops with false where Python raises IndexError.
   */
  method WritePeriodRows(writer: CsvWriter, h: HistoricalData) returns (ok: bool)
    modifies writer
    ensures ok <==> Aligned(h)
    ensures ok ==> writer.rows == old(writer.rows) + PeriodRows(h, |h.labels|)
  {
    ghost var start := writer.rows;
    var i := 0;
    while i < |h.labels|
      invariant 0 <= i <= |h.labels| && i <= |h.temperature| && i <= |h.precipitation|
      invariant writer.rows == start + PeriodRows(h, i)
    {
      if i >= |h.temperature| || i >= |h.precipitation| {
        return false;
      }
      writer.WriteRow(PeriodRow(h, i));
      assert PeriodRows(h, i + 1) == PeriodRows(h, i) + [PeriodRow(h, i)];
      i := i + 1;
    }
    return true;
  }

  /**
   * download_csv: the rows written one by one into the writer's buffer; a
   * series shorter than the labels fails as Python's IndexError does.
   */
  method DownloadCsv(report: Report) returns (r: Result<string, ExportError>)
    ensures r.Success? <==> Aligned(report.historicalData)
    ensures r.Success? ==> r.value == EncodeDocument(CsvRows(report))
    ensures r.Failure? ==> r.error == IndexOutOfRange
  {
    var writer := new CsvWriter();
    WritePreamble(writer, report);
    WriteConditionRows(writer, report.probabilities);
    writer.WriteRow([]);
    writer.WriteRow(HistoryTitleRow);
    writer.WriteRow(PeriodHeader);
    ghost var front := writer.rows;
    assert front == Preamble(report) + ConditionRows(report.probabilities) + [[], HistoryTitleRow, PeriodHeader];
    var ok := WritePeriodRows(writer, report.historicalData);
    if !ok {
      return Failure(IndexOutOfRange);
    }
    return Success(writer.Text());
  }

  /** The exported text reads back as exactly the laid-out rows. */
  lemma ExportReadBack(report: Report)
    requires Aligned(report.historicalData)
    ensures ParseDocument(EncodeDocument(CsvRows(report))) == Some(CsvRows(report))
  {
    ParseDocumentRoundTrip(CsvRows(report));
  }
}
