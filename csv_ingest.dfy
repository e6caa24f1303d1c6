/**
 * What the two CSV loaders share: a file read line by line through a
 * BufferedReader, the first line thrown away as a header, every other line cut
 * with String.split(",") and kept only when it has exactly the expected number
 * of tokens.
 *
 * A file is its lines plus, optionally, the number of the readLine call (counting
 * from 0, the header read) that throws an IOException. Opening a file that
 * cannot be opened is the same as a failure of call 0: nothing is read.
 */
module CsvIngest {
  import opened JavaText

  datatype Option<T> = None | Some(value: T)

  datatype TextFile = TextFile(lines: seq<string>, failingRead: Option<nat>)

  /** What one readLine call gives back. */
  datatype ReadResult = Line(text: string) | EndOfStream | IoError

  /** The lines after the header; an empty file has none. */
  function DataLines(f: TextFile): seq<string>
  {
    if |f.lines| == 0 then [] else f.lines[1..]
  }

  /** The result of readLine call number `c`. */
  function ReadLine(f: TextFile, c: nat): (r: ReadResult)
    ensures r.Line? ==> 1 <= c <= |DataLines(f)| ==> r.text == DataLines(f)[c - 1]
    ensures c >= 1 && r.Line? ==> c <= |DataLines(f)|
  {
    if f.failingRead == Some(c) then IoError
    else if c < |f.lines| then Line(f.lines[c])
    else EndOfStream
  }

  /**
   * Whether a read fails before the loader is done. The loader calls readLine
   * once for the header, once per data line and once more to see the end of
   * the stream: calls 0 to |DataLines(f)| + 1.
   */
  predicate ReadFails(f: TextFile)
  {
    f.failingRead.Some? && f.failingRead.value <= |DataLines(f)| + 1
  }

  /** The data lines the loop body gets to see: all of them, or those before the failing read. */
  function LinesRead(f: TextFile): (r: seq<string>)
    ensures |r| <= |DataLines(f)| && r == DataLines(f)[..|r|]
    ensures !ReadFails(f) ==> r == DataLines(f)
  {
    if ReadFails(f) then
      var k := f.failingRead.value;
      if k <= 1 then [] else DataLines(f)[..k - 1]
    else DataLines(f)
  }

  /** A failing header read: nothing is read at all. */
  lemma HeaderReadFails(f: TextFile)
    requires ReadLine(f, 0).IoError?
    ensures ReadFails(f) && LinesRead(f) == []
  {
  }

  /** A read that gives a line is not the failing one, so the next read has not failed yet either. */
  lemma ReadAdvances(f: TextFile, c: nat)
    requires 1 <= c
    requires f.failingRead.Some? ==> f.failingRead.value >= c
    requires ReadLine(f, c).Line?
    ensures c <= |DataLines(f)| && ReadLine(f, c).text == DataLines(f)[c - 1]
    ensures f.failingRead.Some? ==> f.failingRead.value >= c + 1
    ensures DataLines(f)[..c] == DataLines(f)[..c - 1] + [ReadLine(f, c).text]
  {
    var data := DataLines(f);
    assert data[..c] == data[..c - 1] + [data[c - 1]];
  }

  /**
   * The loader stops at read `c` (the first that gives no line) having seen the
   * data lines before it; it stopped on an IOException exactly when a read fails.
   */
  lemma StopReading(f: TextFile, c: nat)
    requires 1 <= c <= |DataLines(f)| + 1
    requires f.failingRead.Some? ==> f.failingRead.value >= c
    requires !ReadLine(f, c).Line?
    ensures ReadFails(f) <==> ReadLine(f, c).IoError?
    ensures LinesRead(f) == DataLines(f)[..c - 1]
  {
  }

  /** The token lists of the lines that split into exactly `arity` tokens, in file order. */
  function AcceptedRows(lines: seq<string>, arity: nat): (r: seq<seq<string>>)
    ensures |r| <= |lines|
    ensures forall k :: 0 <= k < |r| ==> |r[k]| == arity
  {
    if lines == [] then []
    else
      var tokens := Split(lines[|lines| - 1]);
      AcceptedRows(lines[..|lines| - 1], arity) + (if |tokens| == arity then [tokens] else [])
  }

  /** Accepting rows commutes with concatenating files of data lines. */
  lemma {:induction false} AcceptedRowsAppend(a: seq<string>, b: seq<string>, arity: nat)
    ensures AcceptedRows(a + b, arity) == AcceptedRows(a, arity) + AcceptedRows(b, arity)
    decreases |b|
  {
    if b == [] {
      assert a + b == a;
    } else {
      var b' := b[..|b| - 1];
      assert (a + b)[..|a + b| - 1] == a + b';
      assert (a + b)[|a + b| - 1] == b[|b| - 1];
      AcceptedRowsAppend(a, b', arity);
    }
  }

  lemma AcceptedRowsSingle(line: string, arity: nat)
    ensures AcceptedRows([line], arity) == if |Split(line)| == arity then [Split(line)] else []
  {
    assert [line][..0] == [];
  }

  /** A line of the wrong arity contributes nothing and does not disturb the lines after it. */
  lemma MalformedLineSkipped(a: seq<string>, bad: string, b: seq<string>, arity: nat)
    requires |Split(bad)| != arity
    ensures AcceptedRows(a + [bad] + b, arity) == AcceptedRows(a, arity) + AcceptedRows(b, arity)
  {
    AcceptedRowsAppend(a + [bad], b, arity);
    AcceptedRowsAppend(a, [bad], arity);
    AcceptedRowsSingle(bad, arity);
  }

  /** A single line of the right arity gives exactly its tokens. */
  lemma WellFormedLineKept(a: seq<string>, good: string, b: seq<string>, arity: nat)
    requires |Split(good)| == arity
    ensures AcceptedRows(a + [good] + b, arity)
         == AcceptedRows(a, arity) + [Split(good)] + AcceptedRows(b, arity)
  {
    AcceptedRowsAppend(a + [good], b, arity);
    AcceptedRowsAppend(a, [good], arity);
    AcceptedRowsSingle(good, arity);
  }

  /** When every data line has the expected arity there is one row per line, in order. */
  lemma {:induction false} AllWellFormed(lines: seq<string>, arity: nat)
    requires forall k :: 0 <= k < |lines| ==> |Split(lines[k])| == arity
    ensures |AcceptedRows(lines, arity)| == |lines|
    ensures forall k :: 0 <= k < |lines| ==> AcceptedRows(lines, arity)[k] == Split(lines[k])
    decreases |lines|
  {
    if lines != [] {
      AllWellFormed(lines[..|lines| - 1], arity);
    }
  }

  /** Every accepted row is the split of some data line. */
  lemma {:induction false} AcceptedRowsComeFromLines(lines: seq<string>, arity: nat)
    ensures forall row :: row in AcceptedRows(lines, arity) ==>
              exists line :: line in lines && row == Split(line)
    decreases |lines|
  {
    if lines != [] {
      var init, last := lines[..|lines| - 1], lines[|lines| - 1];
      AcceptedRowsComeFromLines(init, arity);
      assert lines == init + [last];
      forall row | row in AcceptedRows(lines, arity)
        ensures exists line :: line in lines && row == Split(line)
      {
        if row in AcceptedRows(init, arity) {
          var line :| line in init && row == Split(line);
          assert line in lines;
        } else {
          assert row == Split(last);
          assert last in lines;
        }
      }
    }
  }
}
