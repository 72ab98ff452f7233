/**
 * The first pass over the data file: skip the configured header lines, then
 * walk the remaining lines, counting blank lines and data rows, remembering
 * the first and last data rows and the field count of the latest one, and
 * raising a sticky warning when two consecutive data rows disagree on their
 * field count.
 */
module Scanner {
  import opened Outcomes
  import opened Text

  /** The hand-edited switches of the script: `header`, `head_lines` and `CSV`. */
  datatype Config = Config(header: bool, headLines: int, csv: bool)

  /** What the script reports after the first pass. */
  datatype Report = Report(
    rows: nat,          // data rows found
    columns: nat,       // field count of the last data row
    blankLines: nat,    // blank lines found after the header
    headLines: int,     // the configured header count, echoed
    ragged: bool,       // the "COLUMNS do not have the same number" warning
    firstRow: string,   // stripped text of the first data row
    lastRow: string)    // stripped text of the last data row

  datatype ScanError =
    | HeaderPastEnd          // the file ends before all header lines are skipped
    | NoDataRow(blankLines: nat)  // the report reads a last row that was never set

  /** Lines consumed before the scan: `range(head_lines)` is empty for a negative count. */
  function SkipCount(cfg: Config): nat {
    if cfg.header && cfg.headLines > 0 then cfg.headLines else 0
  }

  /** The blank test on an already stripped row. */
  predicate IsBlankRow(row: string, csv: bool) {
    row == [] || (csv && StripBy(row, Comma) == [])
  }

  predicate IsBlankLine(line: string, csv: bool) {
    IsBlankRow(Strip(line), csv)
  }

  /** The fields of a data row: comma-separated in CSV mode, whitespace-separated otherwise. */
  function Fields(row: string, csv: bool): seq<string> {
    if csv then SplitOn(row, ',') else Tokens(row)
  }

  function FieldCount(row: string, csv: bool): nat {
    |Fields(row, csv)|
  }

  /** The stripped text of the non-blank lines of `s`, in file order. */
  function DataRows(s: seq<string>, csv: bool): (rows: seq<string>)
    ensures |rows| <= |s|
    decreases |s|
  {
    if s == [] then []
    else
      var row := Strip(s[|s| - 1]);
      DataRows(s[..|s| - 1], csv) + (if IsBlankRow(row, csv) then [] else [row])
  }

  /** The number of blank lines of `s`. */
  function BlankCount(s: seq<string>, csv: bool): nat
    decreases |s|
  {
    if s == [] then 0
    else BlankCount(s[..|s| - 1], csv) + (if IsBlankLine(s[|s| - 1], csv) then 1 else 0)
  }

  /** The field count of each data row, in order. */
  function Counts(rows: seq<string>, csv: bool): (c: seq<nat>)
    ensures |c| == |rows|
    decreases |rows|
  {
    if rows == [] then [] else Counts(rows[..|rows| - 1], csv) + [FieldCount(rows[|rows| - 1], csv)]
  }

  /** Some count differs from the count just before it. */
  predicate Disagree(counts: seq<nat>) {
    exists j :: 0 < j < |counts| && counts[j] != counts[j - 1]
  }

  function Last<T>(s: seq<T>): T
    requires s != []
  {
    s[|s| - 1]
  }

  /**
   * The scan's running state: the data-row counter `lines`, `blank_lines`, the
   * `first` flag, the sticky `warning`, `num_last`, `first_row` and `last_row`.
   * Before the first data row the last three hold placeholders the script never reads.
   */
  datatype Tally = Tally(rows: nat, blankLines: nat, first: bool, warning: bool,
                         numLast: nat, firstRow: string, lastRow: string)

  const Start := Tally(0, 0, true, false, 0, [], [])

  /**
   * One pass of the scan loop: a blank line only bumps the blank count; a data
   * row bumps the row count, clears `first`, raises the warning when its field
   * count differs from the previous data row's, and becomes the last row (and
   * the first, if none was seen).
   */
  function Step(t: Tally, line: string, csv: bool): Tally {
    var row := Strip(line);
    if IsBlankRow(row, csv) then t.(blankLines := t.blankLines + 1)
    else
      var n := FieldCount(row, csv);
      Tally(t.rows + 1, t.blankLines, false, t.warning || (!t.first && n != t.numLast),
            n, if t.first then row else t.firstRow, row)
  }

  /** The scan state after the lines `s`. */
  function Summary(s: seq<string>, csv: bool): Tally
    decreases |s|
  {
    if s == [] then Start else Step(Summary(s[..|s| - 1], csv), s[|s| - 1], csv)
  }

  /** The same state stated from the whole of `s` at once, through its data rows. */
  function Survey(s: seq<string>, csv: bool): Tally {
    var rows := DataRows(s, csv);
    var counts := Counts(rows, csv);
    if rows == [] then Tally(0, BlankCount(s, csv), true, false, 0, [], [])
    else Tally(|rows|, BlankCount(s, csv), false, Disagree(counts), Last(counts), rows[0], Last(rows))
  }

  /** The outcome of the first pass together with the report that follows it. */
  function ScanSpec(lines: seq<string>, cfg: Config): Result<Report, ScanError> {
    var skip := SkipCount(cfg);
    if |lines| < skip then Err(HeaderPastEnd)
    else
      var t := Summary(lines[skip..], cfg.csv);
      if t.first then Err(NoDataRow(t.blankLines))
      else Ok(Report(t.rows, t.numLast, t.blankLines, cfg.headLines, t.warning, t.firstRow, t.lastRow))
  }

  lemma DataRowsSnoc(s: seq<string>, line: string, csv: bool)
    ensures DataRows(s + [line], csv)
            == DataRows(s, csv) + (if IsBlankLine(line, csv) then [] else [Strip(line)])
    ensures BlankCount(s + [line], csv) == BlankCount(s, csv) + (if IsBlankLine(line, csv) then 1 else 0)
  {
    var t := s + [line];
    assert t[..|t| - 1] == s;
    assert t[|t| - 1] == line;
  }

  lemma CountsSnoc(rows: seq<string>, row: string, csv: bool)
    ensures Counts(rows + [row], csv) == Counts(rows, csv) + [FieldCount(row, csv)]
  {
    assert (rows + [row])[..|rows|] == rows;
  }

  lemma DisagreeSnoc(counts: seq<nat>, n: nat)
    ensures Disagree(counts + [n]) <==> Disagree(counts) || (counts != [] && n != Last(counts))
  {
    var ext := counts + [n];
    if Disagree(ext) {
      var j :| 0 < j < |ext| && ext[j] != ext[j - 1];
      if j < |counts| {
        assert counts[j] == ext[j] && counts[j - 1] == ext[j - 1];
      }
    }
    if Disagree(counts) {
      var j :| 0 < j < |counts| && counts[j] != counts[j - 1];
      assert ext[j] == counts[j] && ext[j - 1] == counts[j - 1];
    }
    if counts != [] && n != Last(counts) {
      assert ext[|counts|] != ext[|counts| - 1];
    }
  }

  lemma StepBlank(t: Tally, line: string, csv: bool)
    requires IsBlankLine(line, csv)
    ensures Step(t, line, csv) == t.(blankLines := t.blankLines + 1)
  {
  }

  lemma SurveySameRows(s: seq<string>, s': seq<string>, csv: bool)
    requires DataRows(s', csv) == DataRows(s, csv)
    ensures Survey(s', csv) == Survey(s, csv).(blankLines := BlankCount(s', csv))
  {
  }

  /** A blank line leaves the data rows alone and adds one to the blank count. */
  lemma SurveyBlank(s: seq<string>, line: string, csv: bool)
    requires IsBlankLine(line, csv)
    ensures Survey(s + [line], csv) == Step(Survey(s, csv), line, csv)
  {
    DataRowsSnoc(s, line, csv);
    SurveySameRows(s, s + [line], csv);
    StepBlank(Survey(s, csv), line, csv);
  }

  /** A data row extends the rows and the counts by one. */
  lemma SurveyData(s: seq<string>, line: string, csv: bool)
    requires !IsBlankLine(line, csv)
    ensures Survey(s + [line], csv) == Step(Survey(s, csv), line, csv)
  {
    DataRowsSnoc(s, line, csv);
    var rows := DataRows(s, csv);
    var row := Strip(line);
    var n := FieldCount(row, csv);
    var rows' := rows + [row];
    assert DataRows(s + [line], csv) == rows';
    CountsSnoc(rows, row, csv);
    var counts := Counts(rows, csv);
    assert Counts(rows', csv) == counts + [n];
    DisagreeSnoc(counts, n);
    assert rows'[0] == if rows == [] then row else rows[0];
    assert Last(rows') == row;
    assert Last(counts + [n]) == n;
    if rows == [] {
      assert !Disagree(counts + [n]);
    }
  }

  /**
   * The running state of the scan is exactly what the data rows of the lines
   * seen so far determine: their number, the first and the last of them, the
   * last field count, whether two neighbours disagree, and the blank count.
   */
  lemma {:induction false} SummaryIsSurvey(s: seq<string>, csv: bool)
    ensures Summary(s, csv) == Survey(s, csv)
    decreases |s|
  {
    if s != [] {
      var init := s[..|s| - 1];
      var line := s[|s| - 1];
      assert s == init + [line];
      SummaryIsSurvey(init, csv);
      if IsBlankLine(line, csv) {
        SurveyBlank(init, line, csv);
      } else {
        SurveyData(init, line, csv);
      }
    }
  }

  /** The fold takes one more line as one more step. */
  lemma SummarySnoc(s: seq<string>, line: string, csv: bool)
    ensures Summary(s + [line], csv) == Step(Summary(s, csv), line, csv)
  {
    var t := s + [line];
    assert t[..|t| - 1] == s;
  }

  lemma SliceSnoc<T>(s: seq<T>, i: nat, j: nat)
    requires i <= j <= |s|
    ensures j < |s| ==> s[i..j + 1] == s[i..j] + [s[j]]
    ensures j == |s| ==> s[i..j] == s[i..]
  {
  }

  /**
   * The header loop: one `next` call per header line, failing when the file
   * runs out first. Gives the position of the first line after the header.
   */
  method SkipHeader(lines: seq<string>, cfg: Config) returns (res: Result<nat, ScanError>)
    ensures res == if |lines| < SkipCount(cfg) then Err(HeaderPastEnd) else Ok(SkipCount(cfg))
  {
    var pos := 0;
    if cfg.header {
      var i := 0;
      while i < cfg.headLines
        invariant 0 <= pos <= |lines|
        invariant pos == if i <= 0 then 0 else i
        invariant pos <= SkipCount(cfg)
      {
        if pos == |lines| {
          return Err(HeaderPastEnd);
        }
        pos := pos + 1;
        i := i + 1;
      }
    }
    return Ok(pos);
  }

  /**
   * The first pass as the script runs it: the header loop, then one step per
   * remaining line updating the counters and flags in place, then the report,
   * which fails when no data row was seen.
   */
  method Scan(lines: seq<string>, cfg: Config) returns (res: Result<Report, ScanError>)
    ensures res == ScanSpec(lines, cfg)
  {
    var skipped := SkipHeader(lines, cfg);
    if skipped.Err? {
      return Err(skipped.error);
    }
    var pos := skipped.value;
    ghost var skip := pos;

    var rows, blankLines := 0, 0;
    var first, warning := true, false;
    var numLast: nat := 0;
    var firstRow, lastRow := "", "";
    ghost var done: seq<string> := [];
    while pos < |lines|
      invariant skip <= pos <= |lines|
      invariant done == lines[skip..pos]
      invariant Tally(rows, blankLines, first, warning, numLast, firstRow, lastRow) == Summary(done, cfg.csv)
    {
      SummarySnoc(done, lines[pos], cfg.csv);
      SliceSnoc(lines, skip, pos);
      done := done + [lines[pos]];
      var row := Strip(lines[pos]);
      pos := pos + 1;
      if row == [] {
        blankLines := blankLines + 1;
        continue;
      } else if cfg.csv && StripBy(row, Comma) == [] {
        blankLines := blankLines + 1;
        continue;
      }
      rows := rows + 1;
      var data := if cfg.csv then SplitOn(row, ',') else Tokens(row);
      var numValues: nat := |data|;
      if first {
        first := false;
        firstRow := row;
      } else if numValues != numLast {
        warning := true;
      }
      numLast := numValues;
      lastRow := row;
    }
    SliceSnoc(lines, skip, pos);
    if first {
      return Err(NoDataRow(blankLines));
    }
    return Ok(Report(rows, numLast, blankLines, cfg.headLines, warning, firstRow, lastRow));
  }
}
