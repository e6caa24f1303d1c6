/**
 * quizApp.Question: six final strings set by the constructor and read by six
 * getters. Nothing is checked, nothing can change, so it is a datatype value
 * whose destructors are the getters.
 */
module QuizQuestion {
  import opened JavaText
  import opened CsvIngest

  const Columns: nat := 6

  datatype Question = Question(
    questionText: string,
    optionA: string,
    optionB: string,
    optionC: string,
    optionD: string,
    correctAnswer: string)

  /** The texts of the four answer buttons, A to D. */
  function Options(q: Question): (r: seq<string>)
    ensures |r| == 4
    ensures r[0] == q.optionA && r[1] == q.optionB && r[2] == q.optionC && r[3] == q.optionD
  {
    [q.optionA, q.optionB, q.optionC, q.optionD]
  }

  /** A question built from the six tokens of a CSV line, field i from token i. */
  function QuestionOf(tokens: seq<string>): Question
    requires |tokens| == Columns
  {
    Question(tokens[0], tokens[1], tokens[2], tokens[3], tokens[4], tokens[5])
  }

  /** The six fields in CSV column order. */
  function Tokens(q: Question): (r: seq<string>)
    ensures |r| == Columns
  {
    [q.questionText, q.optionA, q.optionB, q.optionC, q.optionD, q.correctAnswer]
  }

  /** The CSV line that describes `q`. */
  function CsvLine(q: Question): string
  {
    Join(Tokens(q))
  }

  /**
   * The constructor checks nothing: any six strings, empty, repeated, or with an
   * answer that is none of the options, make a question whose getters give
   * them back in the same positions.
   */
  lemma ConstructorKeepsArguments(text: string, a: string, b: string, c: string, d: string, answer: string)
    ensures var q := Question(text, a, b, c, d, answer);
            q.questionText == text && q.optionA == a && q.optionB == b
            && q.optionC == c && q.optionD == d && q.correctAnswer == answer
    ensures Tokens(QuestionOf([text, a, b, c, d, answer])) == [text, a, b, c, d, answer]
  {
  }

  /** Building from tokens and listing the tokens are inverse. */
  lemma QuestionTokensRoundTrip(q: Question, tokens: seq<string>)
    requires |tokens| == Columns
    ensures QuestionOf(Tokens(q)) == q
    ensures Tokens(QuestionOf(tokens)) == tokens
  {
  }

  /** The questions a load yields from data lines, one per line of six tokens, in order. */
  function QuestionsOf(lines: seq<string>): (r: seq<Question>)
    ensures |r| <= |lines|
  {
    if lines == [] then []
    else
      var tokens := Split(lines[|lines| - 1]);
      QuestionsOf(lines[..|lines| - 1]) + (if |tokens| == Columns then [QuestionOf(tokens)] else [])
  }

  /** One more data line adds its question, if it has six tokens, at the end. */
  lemma QuestionsOfSnoc(lines: seq<string>, line: string)
    ensures QuestionsOf(lines + [line])
         == QuestionsOf(lines) + (if |Split(line)| == Columns then [QuestionOf(Split(line))] else [])
  {
    assert (lines + [line])[..|lines|] == lines;
  }

  /** QuestionsOf is the generic six-column row filter followed by the constructor. */
  lemma {:induction false} QuestionsOfAcceptedRows(lines: seq<string>)
    ensures |QuestionsOf(lines)| == |AcceptedRows(lines, Columns)|
    ensures forall k :: 0 <= k < |QuestionsOf(lines)| ==>
              QuestionsOf(lines)[k] == QuestionOf(AcceptedRows(lines, Columns)[k])
    decreases |lines|
  {
    if lines != [] {
      QuestionsOfAcceptedRows(lines[..|lines| - 1]);
    }
  }

  /** Field i of every loaded question is token i of some data line of six tokens. */
  lemma QuestionsComeFromLines(lines: seq<string>)
    ensures forall q :: q in QuestionsOf(lines) ==>
              exists line :: line in lines && Split(line) == Tokens(q)
  {
    QuestionsOfAcceptedRows(lines);
    AcceptedRowsComeFromLines(lines, Columns);
    forall q | q in QuestionsOf(lines)
      ensures exists line :: line in lines && Split(line) == Tokens(q)
    {
      var k :| 0 <= k < |QuestionsOf(lines)| && QuestionsOf(lines)[k] == q;
      var row := AcceptedRows(lines, Columns)[k];
      assert row in AcceptedRows(lines, Columns);
      assert q == QuestionOf(row);
      QuestionTokensRoundTrip(q, row);
      var line :| line in lines && row == Split(line);
    }
  }

  /**
   * Writing a question as a CSV line and loading that line gives the question
   * back, provided no field holds a comma and the answer column is not empty
   * (split would drop an empty last token).
   */
  lemma CsvLineRoundTrip(q: Question)
    requires forall k :: 0 <= k < Columns ==> NoComma(Tokens(q)[k])
    requires q.correctAnswer != ""
    ensures QuestionsOf([CsvLine(q)]) == [q]
  {
    SplitJoin(Tokens(q));
    assert [CsvLine(q)][..0] == [];
  }
}
