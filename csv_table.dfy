/**
 * csvApp.MainController.loadCSV: the record list is emptied, the header is
 * skipped, and every data line of exactly five tokens becomes a record whose
 * four scores come from Double.parseDouble. A line that does not parse raises
 * NumberFormatException, which loadCSV does not catch: the load stops there and
 * the records already added stay. An IOException is caught (and printed), also
 * keeping them.
 *
 * Double.parseDouble is the parameter `parse`: None is a NumberFormatException.
 */
module CsvTable {
  import opened JavaText
  import opened CsvIngest
  import opened StudentRecords

  const Columns: nat := 5

  /** How loadCSV ends. */
  datatype LoadOutcome = Completed | IoExceptionCaught | NumberFormatExceptionThrown

  /** The record values appended so far, and whether a number failed to parse. */
  datatype Trace = Trace(rows: seq<StudentValue>, failed: bool)

  /** A record from five tokens: the name verbatim and the four scores parsed in column order. */
  function RecordOf(tokens: seq<string>, parse: string -> Option<Double>): Option<StudentValue>
    requires |tokens| == Columns
  {
    var math, science, english, history := parse(tokens[1]), parse(tokens[2]), parse(tokens[3]), parse(tokens[4]);
    if math.Some? && science.Some? && english.Some? && history.Some? then
      Some(StudentValue(tokens[0], math.value, science.value, english.value, history.value))
    else None
  }

  /** One pass of the loop body: nothing after a failure, nothing for a line of the wrong arity. */
  function Step(before: Trace, line: string, parse: string -> Option<Double>): Trace
  {
    if before.failed then before
    else
      var tokens := Split(line);
      if |tokens| != Columns then before
      else
        var record := RecordOf(tokens, parse);
        if record.Some? then Trace(before.rows + [record.value], false)
        else Trace(before.rows, true)
  }

  /** The loop of loadCSV over the data lines it reads, from the first to the last. */
  function StudentsOf(lines: seq<string>, parse: string -> Option<Double>): (t: Trace)
    ensures |t.rows| <= |lines|
  {
    if lines == [] then Trace([], false)
    else Step(StudentsOf(lines[..|lines| - 1], parse), lines[|lines| - 1], parse)
  }

  /** How a load of `f` ends, in the order the exceptions can arise. */
  function OutcomeOf(f: TextFile, parse: string -> Option<Double>): LoadOutcome
  {
    if StudentsOf(LinesRead(f), parse).failed then NumberFormatExceptionThrown
    else if ReadFails(f) then IoExceptionCaught
    else Completed
  }

  /** One more data line. */
  lemma StudentsOfSnoc(lines: seq<string>, line: string, parse: string -> Option<Double>)
    ensures StudentsOf(lines + [line], parse) == Step(StudentsOf(lines, parse), line, parse)
  {
    assert (lines + [line])[..|lines|] == lines;
  }

  /** After a parse failure nothing more is added: later lines are never looked at. */
  lemma {:induction false} FailureIsFinal(a: seq<string>, b: seq<string>, parse: string -> Option<Double>)
    requires StudentsOf(a, parse).failed
    ensures StudentsOf(a + b, parse) == StudentsOf(a, parse)
    decreases |b|
  {
    if b == [] {
      assert a + b == a;
    } else {
      var b' := b[..|b| - 1];
      FailureIsFinal(a, b', parse);
      assert a + b == (a + b') + [b[|b| - 1]];
      StudentsOfSnoc(a + b', b[|b| - 1], parse);
    }
  }

  /**
   * A five-token line whose numbers do not parse ends the load: the records of
   * the lines before it are kept, and nothing after it is read.
   */
  lemma BadNumberKeepsEarlierRows(a: seq<string>, bad: string, b: seq<string>, parse: string -> Option<Double>)
    requires !StudentsOf(a, parse).failed
    requires |Split(bad)| == Columns && RecordOf(Split(bad), parse).None?
    ensures StudentsOf(a + [bad] + b, parse) == Trace(StudentsOf(a, parse).rows, true)
  {
    StudentsOfSnoc(a, bad, parse);
    FailureIsFinal(a + [bad], b, parse);
  }

  /**
   * When the numbers of every five-token line of the file parse, the load never
   * fails and yields one record per five-token line, in file order, with the
   * name verbatim and the scores parsed from tokens 1 to 4.
   */
  lemma {:induction false} AllNumbersParse(lines: seq<string>, parse: string -> Option<Double>)
    requires forall k :: 0 <= k < |lines| && |Split(lines[k])| == Columns ==>
               RecordOf(Split(lines[k]), parse).Some?
    ensures !StudentsOf(lines, parse).failed
    ensures |StudentsOf(lines, parse).rows| == |AcceptedRows(lines, Columns)|
    ensures forall k :: 0 <= k < |AcceptedRows(lines, Columns)| ==>
              var tokens := AcceptedRows(lines, Columns)[k];
              && RecordOf(tokens, parse) == Some(StudentsOf(lines, parse).rows[k])
              && StudentsOf(lines, parse).rows[k]
                 == StudentValue(tokens[0], parse(tokens[1]).value, parse(tokens[2]).value,
                                 parse(tokens[3]).value, parse(tokens[4]).value)
    decreases |lines|
  {
    if lines != [] {
      AllNumbersParse(lines[..|lines| - 1], parse);
    }
  }

  /**
   * Two data lines: a good record, then a five-token line whose math score does
   * not parse. The first record is kept and the load fails on the second.
   */
  lemma GoodThenBad(good: string, bad: string, parse: string -> Option<Double>)
    requires |Split(good)| == Columns && RecordOf(Split(good), parse).Some?
    requires |Split(bad)| == Columns && RecordOf(Split(bad), parse).None?
    ensures StudentsOf([good, bad], parse) == Trace([RecordOf(Split(good), parse).value], true)
  {
    assert [good] == [] + [good];
    StudentsOfSnoc([], good, parse);
    assert [good, bad] == [good] + [bad];
    StudentsOfSnoc([good], bad, parse);
  }

  /** The example of two data lines, the second with an empty math score. */
  lemma AliceAndBob(parse: string -> Option<Double>)
    requires parse("90").Some? && parse("85").Some? && parse("88").Some? && parse("92").Some?
    requires parse("").None?
    ensures StudentsOf(["Alice,90,85,88,92", "Bob,,70,80,75"], parse)
         == Trace([StudentValue("Alice", parse("90").value, parse("85").value,
                                parse("88").value, parse("92").value)], true)
  {
    AliceParses(parse);
    BobDoesNotParse(parse);
    GoodThenBad("Alice,90,85,88,92", "Bob,,70,80,75", parse);
  }

  lemma AliceParses(parse: string -> Option<Double>)
    requires parse("90").Some? && parse("85").Some? && parse("88").Some? && parse("92").Some?
    ensures |Split("Alice,90,85,88,92")| == Columns
    ensures RecordOf(Split("Alice,90,85,88,92"), parse)
         == Some(StudentValue("Alice", parse("90").value, parse("85").value,
                              parse("88").value, parse("92").value))
  {
    assert Join(["Alice", "90", "85", "88", "92"]) == "Alice,90,85,88,92";
    SplitJoin(["Alice", "90", "85", "88", "92"]);
  }

  lemma BobDoesNotParse(parse: string -> Option<Double>)
    requires parse("").None?
    ensures |Split("Bob,,70,80,75")| == Columns && RecordOf(Split("Bob,,70,80,75"), parse).None?
  {
    SplitInnerEmpty();
  }

  class MainController {
    var studentData: seq<StudentRecord>

    constructor ()
      ensures studentData == []
    {
      studentData := [];
    }

    /**
     * loadCSV. Afterwards the list holds newly allocated records, one per five-token
     * data line read before the first unparsable number or failing read, in
     * file order.
     */
    method LoadCsv(file: TextFile, parse: string -> Option<Double>) returns (outcome: LoadOutcome)
      modifies this
      ensures |studentData| == |StudentsOf(LinesRead(file), parse).rows|
      ensures forall k :: 0 <= k < |studentData| ==>
                studentData[k].Value() == StudentsOf(LinesRead(file), parse).rows[k]
      ensures outcome == OutcomeOf(file, parse)
      ensures forall k :: 0 <= k < |studentData| ==> fresh(studentData[k])
    {
      studentData := [];
      var records;
      records, outcome := ReadStudents(file, parse);
      studentData := records;
    }
  }

  /**
   * The try block of loadCSV: skip the header, then add a record for every
   * data line of five tokens whose numbers parse, in file order, until the end
   * of the stream, a failing read or a number that does not parse. The records
   * made before an exception are kept.
   */
  method ReadStudents(file: TextFile, parse: string -> Option<Double>)
    returns (records: seq<StudentRecord>, outcome: LoadOutcome)
    ensures |records| == |StudentsOf(LinesRead(file), parse).rows|
    ensures forall k :: 0 <= k < |records| ==>
              records[k].Value() == StudentsOf(LinesRead(file), parse).rows[k]
    ensures outcome == OutcomeOf(file, parse)
    ensures forall k :: 0 <= k < |records| ==> fresh(records[k])
  {
    records := [];
    ghost var data := DataLines(file);
    var header := ReadLine(file, 0);
    if header.IoError? {
      HeaderReadFails(file);
      return records, IoExceptionCaught;
    }
    var c := 1;
    var line := ReadLine(file, c);
    ghost var rows: seq<StudentValue> := [];
    while line.Line?
      invariant 1 <= c <= |data| + 1
      invariant line == ReadLine(file, c)
      invariant file.failingRead.Some? ==> file.failingRead.value >= c
      invariant StudentsOf(data[..c - 1], parse) == Trace(rows, false)
      invariant |records| == |rows|
      invariant forall k :: 0 <= k < |records| ==> records[k].Value() == rows[k]
      invariant forall k :: 0 <= k < |records| ==> fresh(records[k])
      decreases |data| + 1 - c
    {
      ReadAdvances(file, c);
      var tokens := Split(line.text);
      StudentsOfSnoc(data[..c - 1], line.text, parse);
      if |tokens| == Columns {
        var parsed := RecordOf(tokens, parse);
        if parsed.None? {
          NumberFailureBeforeEnd(file, c, parse);
          return records, NumberFormatExceptionThrown;
        }
        var v := parsed.value;
        var record := new StudentRecord(v.name, v.math, v.science, v.english, v.history);
        records := records + [record];
        rows := rows + [v];
      }
      c := c + 1;
      line := ReadLine(file, c);
    }
    StopReading(file, c);
    assert data[..c - 1] == LinesRead(file);
    if line.IoError? {
      return records, IoExceptionCaught;
    }
    return records, Completed;
  }

  /**
   * When the data line at read `c` has an unparsable number, the lines read
   * include it, so the load's outcome is the NumberFormatException.
   */
  lemma NumberFailureBeforeEnd(f: TextFile, c: nat, parse: string -> Option<Double>)
    requires 1 <= c <= |DataLines(f)|
    requires f.failingRead.Some? ==> f.failingRead.value > c
    requires StudentsOf(DataLines(f)[..c], parse).failed
    ensures StudentsOf(LinesRead(f), parse) == StudentsOf(DataLines(f)[..c], parse)
  {
    var data := DataLines(f);
    var r := LinesRead(f);
    assert c <= |r|;
    assert r[..c] == data[..c];
    assert r == data[..c] + r[c..];
    FailureIsFinal(data[..c], r[c..], parse);
  }
}
