/**
 * What the first pass promises, stated about the whole file: every line after
 * the header is either blank or a data row, blank lines neither compare nor
 * reset anything, the warning is exactly "two neighbouring data rows disagree
 * on their field count" and never clears, and the header's contents do not
 * matter, only its length.
 */
module ScanProperties {
  import opened Outcomes
  import opened Text
  import opened Scanner

  /** Every line is counted exactly once: as a blank line or as a data row. */
  lemma {:induction false} LinesPartition(s: seq<string>, csv: bool)
    ensures BlankCount(s, csv) + |DataRows(s, csv)| == |s|
    decreases |s|
  {
    if s != [] {
      LinesPartition(s[..|s| - 1], csv);
    }
  }

  /** There are no data rows exactly when every line is blank. */
  lemma {:induction false} NoRowsIffAllBlank(s: seq<string>, csv: bool)
    ensures DataRows(s, csv) == [] <==> forall k :: 0 <= k < |s| ==> IsBlankLine(s[k], csv)
    decreases |s|
  {
    if s != [] {
      var init := s[..|s| - 1];
      NoRowsIffAllBlank(init, csv);
      if forall k :: 0 <= k < |init| ==> IsBlankLine(init[k], csv) {
        if IsBlankLine(s[|s| - 1], csv) {
          forall k | 0 <= k < |s|
            ensures IsBlankLine(s[k], csv)
          {
            if k < |init| {
              assert s[k] == init[k];
            }
          }
        }
      } else {
        var k :| 0 <= k < |init| && !IsBlankLine(init[k], csv);
        assert s[k] == init[k];
      }
    }
  }

  /**
   * A line is blank exactly when it is whitespace only or, in CSV mode, a run
   * of commas with nothing but whitespace around it. A comma-only line with
   * whitespace between its commas is a data row.
   */
  lemma BlankLineIff(line: string, csv: bool)
    ensures IsBlankLine(line, csv) <==>
              AllIn(line, Whitespace) ||
              (csv && exists i, j :: 0 <= i <= j <= |line| && AllIn(line[..i], Whitespace) &&
                                     AllIn(line[i..j], Comma) && AllIn(line[j..], Whitespace))
  {
    var a, b := StripFacts(line, Whitespace);
    var row := line[a..b];
    var c, d := StripFacts(row, Comma);
    if IsBlankLine(line, csv) && row != [] {
      assert AllIn(line[..a], Whitespace) && AllIn(line[a..b], Comma) && AllIn(line[b..], Whitespace);
    }
    if csv && row != [] {
      if i, j :| 0 <= i <= j <= |line| && AllIn(line[..i], Whitespace) &&
                AllIn(line[i..j], Comma) && AllIn(line[j..], Whitespace) {
        assert forall k :: 0 <= k < i ==> line[k] == line[..i][k];
        assert forall k :: j <= k < |line| ==> line[k] == line[j..][k - j];
        assert i <= a && b <= j;
        forall k | 0 <= k < |row|
          ensures row[k] == ','
        {
          assert row[k] == line[a + k] == line[i..j][a + k - i];
        }
      }
    }
  }

  /** Each data row is a stripped, non-blank line: it starts and ends with a non-whitespace character. */
  lemma {:induction false} DataRowsShape(s: seq<string>, csv: bool)
    ensures forall k :: 0 <= k < |DataRows(s, csv)| ==>
              var row := DataRows(s, csv)[k];
              row != [] && !IsSpace(row[0]) && !IsSpace(row[|row| - 1]) && !IsBlankRow(row, csv)
    decreases |s|
  {
    if s != [] {
      DataRowsShape(s[..|s| - 1], csv);
      var i, j := StripFacts(s[|s| - 1], Whitespace);
    }
  }

  /** The first data row is the stripped text of the first non-blank line. */
  lemma {:induction false} FirstDataRow(s: seq<string>, csv: bool, i: nat)
    requires i < |s| && !IsBlankLine(s[i], csv)
    requires forall k :: 0 <= k < i ==> IsBlankLine(s[k], csv)
    ensures DataRows(s, csv) != [] && DataRows(s, csv)[0] == Strip(s[i])
    decreases |s|
  {
    var init := s[..|s| - 1];
    assert forall k :: 0 <= k < |init| ==> init[k] == s[k];
    if i == |s| - 1 {
      NoRowsIffAllBlank(init, csv);
      assert DataRows(init, csv) == [];
    } else {
      FirstDataRow(init, csv, i);
      assert DataRows(init, csv)[0] == DataRows(s, csv)[0];
    }
  }

  /** The last data row is the stripped text of the last non-blank line. */
  lemma {:induction false} LastDataRow(s: seq<string>, csv: bool, i: nat)
    requires i < |s| && !IsBlankLine(s[i], csv)
    requires forall k :: i < k < |s| ==> IsBlankLine(s[k], csv)
    ensures DataRows(s, csv) != [] && Last(DataRows(s, csv)) == Strip(s[i])
    decreases |s|
  {
    if i < |s| - 1 {
      var init := s[..|s| - 1];
      assert forall k :: 0 <= k < |init| ==> init[k] == s[k];
      LastDataRow(init, csv, i);
    }
  }

  /** The recorded field counts are those of the data rows. */
  lemma {:induction false} CountsAt(rows: seq<string>, csv: bool)
    ensures forall k :: 0 <= k < |rows| ==> Counts(rows, csv)[k] == FieldCount(rows[k], csv)
    decreases |rows|
  {
    if rows != [] {
      var init := rows[..|rows| - 1];
      assert rows == init + [rows[|rows| - 1]];
      CountsAt(init, csv);
      CountsSnoc(init, rows[|rows| - 1], csv);
      forall k | 0 <= k < |init|
        ensures Counts(rows, csv)[k] == FieldCount(rows[k], csv)
      {
        assert rows[k] == init[k];
      }
    }
  }

  /** Two neighbouring data rows have different field counts. */
  predicate Ragged(rows: seq<string>, csv: bool) {
    exists j :: 0 < j < |rows| && FieldCount(rows[j], csv) != FieldCount(rows[j - 1], csv)
  }

  /** Field counts of a row: one more than its commas in CSV mode, its whitespace-separated runs otherwise. */
  lemma FieldCountIs(row: string, csv: bool)
    ensures FieldCount(row, csv) == if csv then Occurrences(row, ',') + 1 else RunCount(row)
  {
    if !csv {
      TokensCountRuns(row);
    }
  }

  /**
   * The warning is raised exactly when some data row's field count differs
   * from the data row just before it; blank lines in between do not separate them.
   */
  lemma WarningIffRagged(s: seq<string>, csv: bool)
    ensures Summary(s, csv).warning <==> Ragged(DataRows(s, csv), csv)
  {
    SummaryIsSurvey(s, csv);
    var rows := DataRows(s, csv);
    var counts := Counts(rows, csv);
    CountsAt(rows, csv);
    if Disagree(counts) {
      var j :| 0 < j < |counts| && counts[j] != counts[j - 1];
      assert FieldCount(rows[j], csv) != FieldCount(rows[j - 1], csv);
    }
    if Ragged(rows, csv) {
      var j :| 0 < j < |rows| && FieldCount(rows[j], csv) != FieldCount(rows[j - 1], csv);
      assert counts[j] != counts[j - 1];
    }
  }

  lemma StepKeepsWarning(t: Tally, line: string, csv: bool)
    ensures t.warning ==> Step(t, line, csv).warning
    ensures !t.first ==> !Step(t, line, csv).first && Step(t, line, csv).firstRow == t.firstRow
  {
  }

  /** Once raised, the warning stays raised, and once set, the first row stays put. */
  lemma {:induction false} WarningSticky(s: seq<string>, more: seq<string>, csv: bool)
    ensures Summary(s, csv).warning ==> Summary(s + more, csv).warning
    ensures !Summary(s, csv).first ==>
              !Summary(s + more, csv).first && Summary(s + more, csv).firstRow == Summary(s, csv).firstRow
    decreases |more|
  {
    if more == [] {
      assert s + more == s;
    } else {
      var front := more[..|more| - 1];
      var line := more[|more| - 1];
      WarningSticky(s, front, csv);
      assert s + more == (s + front) + [line];
      SummarySnoc(s + front, line, csv);
      StepKeepsWarning(Summary(s + front, csv), line, csv);
    }
  }

  /** A step never reads the blank count: bumping it before or after the step is the same. */
  lemma StepIgnoresBlankCount(t: Tally, line: string, csv: bool)
    ensures Step(t.(blankLines := t.blankLines + 1), line, csv)
            == Step(t, line, csv).(blankLines := Step(t, line, csv).blankLines + 1)
  {
  }

  /**
   * A blank line inserted anywhere changes nothing but the blank count: it
   * does not reset the comparison between the data rows around it.
   */
  lemma {:induction false} BlankLineInserted(s: seq<string>, line: string, more: seq<string>, csv: bool)
    requires IsBlankLine(line, csv)
    ensures Summary(s + [line] + more, csv)
            == Summary(s + more, csv).(blankLines := Summary(s + more, csv).blankLines + 1)
    decreases |more|
  {
    if more == [] {
      assert s + [line] + more == s + [line];
      assert s + more == s;
      SummarySnoc(s, line, csv);
      StepBlank(Summary(s, csv), line, csv);
    } else {
      var front := more[..|more| - 1];
      var last := more[|more| - 1];
      assert more == front + [last];
      AppendSnoc(s + [line], front, last);
      AppendSnoc(s, front, last);
      BlankLineInserted(s, line, front, csv);
      SummarySnoc(s + [line] + front, last, csv);
      SummarySnoc(s + front, last, csv);
      StepIgnoresBlankCount(Summary(s + front, csv), last, csv);
    }
  }

  lemma AppendSnoc<T>(a: seq<T>, front: seq<T>, x: T)
    ensures a + (front + [x]) == (a + front) + [x]
  {
  }

  /** The header's contents are never looked at: only how many lines it has. */
  lemma HeaderContentIgnored(h1: seq<string>, h2: seq<string>, body: seq<string>, cfg: Config)
    requires |h1| == |h2| == SkipCount(cfg)
    ensures ScanSpec(h1 + body, cfg) == ScanSpec(h2 + body, cfg)
  {
    assert (h1 + body)[SkipCount(cfg)..] == body;
    assert (h2 + body)[SkipCount(cfg)..] == body;
  }

  /** The file is too short for the header exactly when it has fewer lines than are skipped. */
  lemma ScanHeaderPastEnd(lines: seq<string>, cfg: Config)
    ensures ScanSpec(lines, cfg) == Err(HeaderPastEnd) <==> |lines| < SkipCount(cfg)
  {
  }

  /**
   * The report fails for want of a data row exactly when every line after the
   * header is blank, and then every one of them was counted as blank.
   */
  lemma ScanNoDataRow(lines: seq<string>, cfg: Config)
    ensures (ScanSpec(lines, cfg).Err? && ScanSpec(lines, cfg).error.NoDataRow?) <==>
              SkipCount(cfg) <= |lines| &&
              forall line :: line in lines[SkipCount(cfg)..] ==> IsBlankLine(line, cfg.csv)
    ensures ScanSpec(lines, cfg).Err? && ScanSpec(lines, cfg).error.NoDataRow? ==>
              ScanSpec(lines, cfg).error.blankLines == |lines| - SkipCount(cfg)
  {
    var skip := SkipCount(cfg);
    if skip <= |lines| {
      var body := lines[skip..];
      SummaryIsSurvey(body, cfg.csv);
      LinesPartition(body, cfg.csv);
      NoRowsIffAllBlank(body, cfg.csv);
      assert (forall line :: line in body ==> IsBlankLine(line, cfg.csv))
             <==> (forall k :: 0 <= k < |body| ==> IsBlankLine(body[k], cfg.csv));
    }
  }

  /**
   * A successful report accounts for every line after the header, starts and
   * ends with the first and last data rows, gives the last data row's field
   * count, and warns exactly when two neighbouring data rows disagree.
   */
  lemma ScanReport(lines: seq<string>, cfg: Config)
    requires ScanSpec(lines, cfg).Ok?
    ensures var r := ScanSpec(lines, cfg).value;
            var rows := DataRows(lines[SkipCount(cfg)..], cfg.csv);
            r.rows == |rows| >= 1 &&
            r.rows + r.blankLines == |lines| - SkipCount(cfg) &&
            r.firstRow == rows[0] && r.lastRow == Last(rows) &&
            r.columns == FieldCount(r.lastRow, cfg.csv) &&
            (r.ragged <==> Ragged(rows, cfg.csv)) &&
            r.headLines == cfg.headLines
  {
    var body := lines[SkipCount(cfg)..];
    SummaryIsSurvey(body, cfg.csv);
    WarningIffRagged(body, cfg.csv);
    LinesPartition(body, cfg.csv);
    CountsAt(DataRows(body, cfg.csv), cfg.csv);
  }
}
