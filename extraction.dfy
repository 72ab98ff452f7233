/**
 * The second pass: count every line of the file, allocate that many zeroed
 * time slots, then store for each line its first whitespace-separated token,
 * read as nanoseconds and converted to microseconds, until a line yields no
 * time. Reading a number is a parameter of the model.
 */
module Extraction {
  import opened Outcomes
  import opened Text
  import opened Scanner
  import opened ScanProperties

  /** Why a line yields no time: it has no token, or its first token is not a number. */
  datatype Fault = NoToken | NotANumber

  /** The line-counting loop: one count per line of the file. */
  method CountLines(lines: seq<string>) returns (count: nat)
    ensures count == |lines|
  {
    count := 0;
    for i := 0 to |lines|
      invariant count == i
    {
      count := count + 1;
    }
  }

  /** A time in microseconds from a first field read as nanoseconds. */
  function ToMicros(field: string, parse: string -> Option<real>): (r: Result<real, Fault>)
    ensures r.Ok? <==> parse(field).Some?
    ensures r.Ok? ==> r.value * 1000.0 == parse(field).value
    ensures r.Err? ==> r.error == NotANumber
  {
    match parse(field)
    case None => Err(NotANumber)
    case Some(ns) => Ok(ns / 1000.0)
  }

  /**
   * What the second pass stores for one line of the file: the first token of
   * the stripped line. It has none exactly when the line is whitespace only;
   * otherwise it is the run of non-whitespace starting at the line's first
   * non-whitespace character.
   */
  function LineTime(line: string, parse: string -> Option<real>): (r: Result<real, Fault>)
    ensures r == Err(NoToken) <==> AllIn(line, Whitespace)
    ensures !AllIn(line, Whitespace) ==>
              var a := FirstNonSpace(line);
              r == ToMicros(line[a..RunEnd(line, a)], parse)
  {
    TokensOfStrip(line);
    TokensFirstRun(line);
    var data := Tokens(Strip(line));
    if data == [] then Err(NoToken) else ToMicros(data[0], parse)
  }

  /**
   * What a corrected second pass stores for one data row found by the first
   * pass: its first field. In CSV mode that is the row up to its first comma,
   * and it always exists; otherwise it is the first run of non-whitespace,
   * which is missing only from a whitespace-only row.
   */
  function RowTime(row: string, csv: bool, parse: string -> Option<real>): (r: Result<real, Fault>)
    ensures csv ==> r == ToMicros(row[..SepIndex(row, ',')], parse)
    ensures !csv && !AllIn(row, Whitespace) ==>
              var a := FirstNonSpace(row);
              r == ToMicros(row[a..RunEnd(row, a)], parse)
    ensures r == Err(NoToken) <==> !csv && AllIn(row, Whitespace)
  {
    SplitFirstField(row, ',');
    TokensFirstRun(row);
    var data := Fields(row, csv);
    if data == [] then Err(NoToken) else ToMicros(data[0], parse)
  }

  /** How many lines the second pass stores before it stops: the index of the first line that yields no time, or the line count. */
  function FirstFault(lines: seq<string>, parse: string -> Option<real>): (f: nat)
    ensures f <= |lines|
    ensures forall k :: 0 <= k < f ==> LineTime(lines[k], parse).Ok?
    ensures f < |lines| ==> LineTime(lines[f], parse).Err?
  {
    if lines == [] || LineTime(lines[0], parse).Err? then 0
    else
      var rest := lines[1..];
      assert forall k :: 0 < k < |lines| ==> lines[k] == rest[k - 1];
      1 + FirstFault(rest, parse)
  }

  /**
   * The storing loop: slot `i` gets the time read from item `i`, in order,
   * until an item yields none; the slots not reached keep their zero. The
   * reading of one item is `read`: `LineTime` for the second pass as it
   * stands, `RowTime` for one that reads the first pass's data rows.
   */
  method StoreTimes(items: seq<string>, read: string -> Result<real, Fault>)
    returns (times: array<real>, stored: nat, fault: Option<Fault>)
    ensures fresh(times) && times.Length == |items|
    ensures stored <= |items|
    ensures forall k :: 0 <= k < stored ==> read(items[k]) == Ok(times[k])
    ensures forall k :: stored <= k < times.Length ==> times[k] == 0.0
    ensures fault.None? <==> stored == |items|
    ensures fault.Some? ==> read(items[stored]) == Err(fault.value)
  {
    var count := CountLines(items);
    times := new real[count](_ => 0.0);
    stored := 0;
    while stored < count
      invariant stored <= count == times.Length == |items|
      invariant forall k :: 0 <= k < stored ==> read(items[k]) == Ok(times[k])
      invariant forall k :: stored <= k < times.Length ==> times[k] == 0.0
    {
      match read(items[stored])
      case Err(e) =>
        return times, stored, Some(e);
      case Ok(t) =>
        times[stored] := t;
        stored := stored + 1;
    }
    fault := None;
  }

  /**
   * The second pass as the script runs it: the storing loop over every line
   * of the file, reading each with `LineTime`. It stores the lines before the
   * first one that yields no time, and stops there with that line's fault.
   */
  method SecondPass(lines: seq<string>, parse: string -> Option<real>)
    returns (times: array<real>, stored: nat, fault: Option<Fault>)
    ensures fresh(times) && times.Length == |lines|
    ensures stored == FirstFault(lines, parse)
    ensures forall k :: 0 <= k < stored ==> LineTime(lines[k], parse) == Ok(times[k])
    ensures forall k :: stored <= k < times.Length ==> times[k] == 0.0
    ensures fault.None? <==> stored == |lines|
    ensures fault.Some? ==> LineTime(lines[stored], parse) == Err(fault.value)
  {
    times, stored, fault := StoreTimes(lines, l => LineTime(l, parse));
  }

  /**
   * A file the first pass reports on successfully, whose second line is
   * blank: the first pass finds one data row, and the second pass stores the
   * first line's time and stops at the blank line for want of a token.
   */
  lemma BlankLineStopsSecondPass(parse: string -> Option<real>)
    requires parse("1200").Some?
    ensures ScanSpec(["1200\n", "\n"], Config(false, 0, false)).Ok?
    ensures ScanSpec(["1200\n", "\n"], Config(false, 0, false)).value.rows == 1
    ensures FirstFault(["1200\n", "\n"], parse) == 1
    ensures LineTime("\n", parse) == Err(NoToken)
  {
    FirstPassOfRowThenBlank();
    FirstTokenOfNumberLine(parse);
    NewlineHasNoToken(parse);
    var lines := ["1200\n", "\n"];
    assert lines[0] == "1200\n" && lines[1..] == ["\n"];
  }

  lemma FirstPassOfRowThenBlank()
    ensures ScanSpec(["1200\n", "\n"], Config(false, 0, false)).Ok?
    ensures ScanSpec(["1200\n", "\n"], Config(false, 0, false)).value.rows == 1
  {
    var lines := ["1200\n", "\n"];
    assert lines[SkipCount(Config(false, 0, false))..] == lines;
    assert lines[..1] == ["1200\n"] && [] + ["1200\n"] == ["1200\n"];
    StripNumberLine();
    var t := Step(Start, "1200\n", false);
    assert t.rows == 1 && !t.first;
    SummarySnoc([], "1200\n", false);
    SummarySnoc(["1200\n"], "\n", false);
    NewlineIsSpace();
    var i, j := StripFacts("\n", Whitespace);
    StepBlank(t, "\n", false);
  }

  lemma NewlineHasNoToken(parse: string -> Option<real>)
    ensures LineTime("\n", parse) == Err(NoToken)
  {
    NewlineIsSpace();
    assert AllIn("\n", Whitespace);
  }

  /**
   * A file with one header line that the first pass skips as configured: the
   * first pass finds one data row, but the second pass reads the header line
   * as a time. A header word that does not read as a number stops it at once.
   */
  lemma HeaderReadAsTime(parse: string -> Option<real>)
    requires parse("time").None?
    ensures ScanSpec(["time\n", "1200\n"], Config(true, 1, false)).Ok?
    ensures ScanSpec(["time\n", "1200\n"], Config(true, 1, false)).value.rows == 1
    ensures LineTime("time\n", parse) == Err(NotANumber)
    ensures FirstFault(["time\n", "1200\n"], parse) == 0
  {
    FirstPassAfterHeader();
    HeaderWordNotANumber(parse);
  }

  lemma FirstPassAfterHeader()
    ensures ScanSpec(["time\n", "1200\n"], Config(true, 1, false)).Ok?
    ensures ScanSpec(["time\n", "1200\n"], Config(true, 1, false)).value.rows == 1
  {
    var lines := ["time\n", "1200\n"];
    assert lines[SkipCount(Config(true, 1, false))..] == ["1200\n"];
    assert [] + ["1200\n"] == ["1200\n"];
    StripNumberLine();
    SummarySnoc([], "1200\n", false);
  }

  lemma HeaderWordNotANumber(parse: string -> Option<real>)
    requires parse("time").None?
    ensures LineTime("time\n", parse) == Err(NotANumber)
  {
    NotSpaceLetters();
    NewlineIsSpace();
    var w := "time\n";
    assert !IsSpace(w[0]);
    assert FirstNonSpace(w) == 0;
    assert RunEnd(w, 0) == 4;
    assert w[0..4] == "time";
  }

  /** The first token of the line `1200` with its line end. */
  lemma FirstTokenOfNumberLine(parse: string -> Option<real>)
    requires parse("1200").Some?
    ensures LineTime("1200\n", parse).Ok?
  {
    var w := "1200\n";
    NotSpaceDigits();
    NewlineIsSpace();
    assert !IsSpace(w[0]);
    assert FirstNonSpace(w) == 0;
    assert RunEnd(w, 0) == 4;
    assert w[0..4] == "1200";
  }

  lemma StripNumberLine()
    ensures Strip("1200\n") == "1200"
  {
    var s := "1200\n";
    NotSpaceDigits();
    NewlineIsSpace();
    var i, j := StripFacts(s, Whitespace);
    assert !InSet(s[0], Whitespace) && !InSet(s[3], Whitespace) && InSet(s[4], Whitespace);
  }

  lemma NotSpaceDigits()
    ensures !IsSpace('1') && !IsSpace('2') && !IsSpace('0')
  {
  }

  lemma NotSpaceLetters()
    ensures !IsSpace('t') && !IsSpace('i') && !IsSpace('m') && !IsSpace('e')
  {
  }

  lemma NewlineIsSpace()
    ensures IsSpace('\n')
  {
    assert SpaceRanges[0].0 <= '\n' <= SpaceRanges[0].1;
  }

  /**
   * Reading the first field of the first pass's data rows never runs out of
   * tokens: every data row has a first field, in either mode.
   */
  lemma DataRowsHaveFirstField(s: seq<string>, csv: bool, parse: string -> Option<real>)
    ensures forall k :: 0 <= k < |DataRows(s, csv)| ==> RowTime(DataRows(s, csv)[k], csv, parse) != Err(NoToken)
  {
    DataRowsShape(s, csv);
    forall k | 0 <= k < |DataRows(s, csv)|
      ensures RowTime(DataRows(s, csv)[k], csv, parse) != Err(NoToken)
    {
      var row := DataRows(s, csv)[k];
      if !csv {
        TokensNonEmpty(row, 0);
      }
    }
  }
}
