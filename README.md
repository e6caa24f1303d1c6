# Quiz and student-table controllers, modelled in Dafny

This project models the logic of two small JavaFX demo applications. The widgets are left out. What is modelled:

- **quizApp.QuizController** is a multiple-choice quiz. It loads questions from a
  CSV file, then runs a 60-second timed session: start, answer, next, a timer tick
  every second, and the end of the quiz.
- **quizApp.Question** is the immutable six-string question value.
- **csvApp.MainController.loadCSV** reads a CSV file of students into a list of
  records.
- **csvApp.StudentRecord** is a record holding a name and four scores, with a
  getter and a setter for each.

The modules follow the program's structure:

| file | module | what it holds |
|---|---|---|
| `java_text.dfy` | `JavaText` | The JDK behaviour the controllers depend on: `String.split(",")` with its default limit, `equalsIgnoreCase` (as an ASCII fold), `String.format("%02d")`, and Java's truncating `int` `/` and `%`. |
| `csv_ingest.dfy` | `CsvIngest` | What the two CSV loaders share. A file is its lines plus an optional index of the `readLine` call that throws `IOException`. Call 0 reads the header, calls 1 to n read the data lines, and call n+1 returns `null`. Also the arity filter shared by both loaders. |
| `quiz_question.dfy` | `QuizQuestion` | `Question` as a datatype, and `QuestionsOf`, the list a load yields. |
| `quiz_controller.dfy` | `QuizControl` | `formatTime`, and the class `QuizController`. The class holds: the fields the handlers update; the enabled state of the start, next and answer buttons; the style mark of each answer button; the button texts; the question label; the timer label. |
| `student_record.dfy` | `StudentRecords` | The class `StudentRecord`, whose five fields are the property cells. |
| `csv_table.dfy` | `CsvTable` | `StudentsOf`, the records a load yields, and the class `MainController` with `LoadCsv`. |

How the controller is modelled:

- The JavaFX `Timeline` is a `running` flag. Each one-second key frame is a call of `Tick`.
- A ghost counter `ticks` counts the key frames since the last start.
- `disableAnswerButtons` always sets the four answer buttons alike, so one flag stands for all four.
- The handlers check no button flag, and the model checks none either. A handler of a disabled button is therefore still modelled for every call, except the calls listed under "## Left out".

The model follows the code in these ways:

- **Empty loads leave start alone.** When a quiz file yields no valid question, `loadQuestionsFromCSV` shows the "no valid questions" message and leaves the start button as it was (quizApp/QuizController.java:99-104). A start button enabled by an earlier load stays enabled.
- **A pending `IndexOutOfBoundsException` can be reached.** The following calls reach it:
  1. load a good file;
  2. load a header-only file, which leaves start enabled;
  3. press start. `showQuestion` ends the quiz at once, and the handler then re-enables the answer buttons.
  4. answer. `questions.get` throws.

  `HandleAnswerSelected` reports this case as `thrown`, with nothing changed.
- **A bad number escapes `loadCSV`.** `Double.parseDouble` is the parameter `parse`, where `None` means the text does not parse. A `NumberFormatException` is not caught by `loadCSV`, so it leaves the method. The records added before it stay in the list. `LoadCsv` reports this case as the outcome `NumberFormatExceptionThrown`.

## Model

| member | source | states |
|---|---|---|
| JavaText.Split | src/main/java/csvApp/MainController.java:87 | `line.split(",")`: the whole line when it has no comma, otherwise its fields without the trailing empty ones; pinned down by SplitDropsOnlyTrailingEmpties, SplitHasNoComma, SplitJoin and JoinSplit |
| JavaText.Fields | src/main/java/csvApp/MainController.java:87 | splitting on a literal comma yields at least one field |
| JavaText.StripTrailingEmpty | src/main/java/csvApp/MainController.java:87 | removing trailing empty tokens never lengthens the list; StripTrailingEmptyDropsEmpties and StrippedPlusEmpties say what is kept and what is dropped |
| JavaText.StripTrailingEmptyDropsEmpties | src/main/java/csvApp/MainController.java:87 | dropping trailing empty tokens keeps a prefix that does not end in an empty token, and everything dropped is empty |
| JavaText.HasCommaIsMembership | src/main/java/quizApp/QuizController.java:86 | the scan that decides whether split returns the line whole succeeds exactly when the line contains a comma |
| JavaText.FieldsHaveNoComma | src/main/java/quizApp/QuizController.java:86 | no field contains the separator |
| JavaText.FieldsCount | src/main/java/quizApp/QuizController.java:86 | there is exactly one more field than there are commas |
| JavaText.JoinFields | src/main/java/quizApp/QuizController.java:86 | gluing the fields back with commas gives the line back |
| JavaText.FieldsJoin | src/main/java/quizApp/QuizController.java:86 | fielding a comma-join of comma-free tokens gives the tokens back |
| JavaText.FieldsOfCommaFree | src/main/java/quizApp/QuizController.java:86 | a line without a comma is a single field |
| JavaText.FieldsAfterToken | src/main/java/quizApp/QuizController.java:86 | a comma-free token before a comma is one field, and fielding continues after the comma |
| JavaText.SplitDropsOnlyTrailingEmpties | src/main/java/csvApp/MainController.java:87 | for every line, split gives the fields minus a run of empty fields at the end; with no comma the line is one field and nothing is removed |
| JavaText.StrippedPlusEmpties | src/main/java/csvApp/MainController.java:87 | a token list is its stripped prefix followed by empty tokens |
| JavaText.SplitHasNoComma | src/main/java/csvApp/MainController.java:87 | no token of a split line contains a comma |
| JavaText.JoinSplit | src/main/java/csvApp/MainController.java:87 | a line that does not end in a comma is the comma-join of its tokens |
| JavaText.LastFieldOfNonCommaEnd | src/main/java/csvApp/MainController.java:87 | a line that does not end in a comma has a non-empty last field |
| JavaText.SplitJoin | src/main/java/csvApp/MainController.java:87 | comma-free tokens whose last one is non-empty (or a single token) split back exactly from their comma-join |
| JavaText.JoinHasComma | src/main/java/csvApp/MainController.java:87 | joining two or more tokens puts a comma in the line |
| JavaText.TrailingCommaKeepsTokens | src/main/java/csvApp/MainController.java:87-90 | a trailing comma after comma-free tokens whose last one is non-empty adds no token |
| JavaText.TrailingCommaFiveValues | src/main/java/csvApp/MainController.java:87-90 | "A,1,2,3,4," still has five tokens |
| JavaText.TrailingCommaFourValues | src/main/java/csvApp/MainController.java:87-90 | "A,1,2,3," still has four tokens, so the line is skipped |
| JavaText.JoinEndsOutsideComma | src/main/java/csvApp/MainController.java:87 | such a comma-join does not end in a comma |
| JavaText.TrailingCommaSplit | src/main/java/csvApp/MainController.java:87 | one trailing comma after a line containing a comma, but not ending in one, changes nothing |
| JavaText.FieldsAppendComma | src/main/java/csvApp/MainController.java:87 | a trailing comma adds one empty field |
| JavaText.SplitInnerEmpty | src/main/java/csvApp/MainController.java:87-90 | "Bob,,70,80,75" has five tokens, the second empty |
| JavaText.SplitDegenerate | src/main/java/csvApp/MainController.java:87 | an empty line is one empty token, and a line of commas has no tokens |
| JavaText.CharsEqualIgnoreCase | src/main/java/quizApp/QuizController.java:158 | Java's character rule: equal, equal upper-cased, or equal lower-cased; CharFold reduces it to equal lower-case forms |
| JavaText.EqualsIgnoreCase | src/main/java/quizApp/QuizController.java:158 | same length and every character pair equal ignoring case; EqualsIgnoreCaseIsFoldedEquality and EqualsIgnoreCaseEquivalence pin it down |
| JavaText.FoldCase | src/main/java/quizApp/QuizController.java:158 | folding keeps the length and lower-cases each character |
| JavaText.CharFold | src/main/java/quizApp/QuizController.java:158 | two characters are equal ignoring case exactly when their lower-case forms are equal |
| JavaText.EqualsIgnoreCaseIsFoldedEquality | src/main/java/quizApp/QuizController.java:158 | equalsIgnoreCase holds exactly when the folded strings are equal |
| JavaText.EqualsIgnoreCaseEquivalence | src/main/java/quizApp/QuizController.java:224 | equalsIgnoreCase is reflexive, symmetric and transitive |
| JavaText.JavaDiv | src/main/java/quizApp/QuizController.java:237 | Java's int `/`, truncating toward zero; JavaDivision pins it down with JavaRem |
| JavaText.JavaRem | src/main/java/quizApp/QuizController.java:238 | Java's int `%`, taking the dividend's sign; JavaDivision pins it down with JavaDiv |
| JavaText.JavaDivision | src/main/java/quizApp/QuizController.java:237-238 | for every non-zero divisor, int division and remainder satisfy (a/b)*b + a%b == a; the remainder is smaller than the divisor and is zero or has the dividend's sign |
| JavaText.SignedDivision | src/main/java/quizApp/QuizController.java:237-238 | the sign cases of that identity |
| JavaText.Digits | src/main/java/quizApp/QuizController.java:239 | every decimal rendering is non-empty and made of digits |
| JavaText.Pad2 | src/main/java/quizApp/QuizController.java:239 | `%02d`: a number zero-padded to two characters; Pad2TwoDigits states the result for 0 to 99 |
| JavaText.DigitsRoundTrip | src/main/java/quizApp/QuizController.java:239 | reading the digits back gives the number; one digit below 10, two from 10 to 99 |
| CsvIngest.DataLines | src/main/java/csvApp/MainController.java:83-86 | the lines after the header, the ones the loop reads; ReadLine and LinesRead are stated over them |
| CsvIngest.ReadFails | src/main/java/csvApp/MainController.java:83-86 | some read before the end of the stream throws IOException; StopReading says the loop ends on an exception exactly then |
| CsvIngest.ReadLine | src/main/java/csvApp/MainController.java:83-86 | the read at call c gives data line c and never goes past the last data line |
| CsvIngest.LinesRead | src/main/java/csvApp/MainController.java:82-104 | the loop sees a prefix of the data lines, and all of them unless a read throws |
| CsvIngest.HeaderReadFails | src/main/java/quizApp/QuizController.java:83-84 | an exception reading the header means no data line is seen |
| CsvIngest.ReadAdvances | src/main/java/quizApp/QuizController.java:85 | a read that yields a line is not the failing read, and gives the next data line |
| CsvIngest.StopReading | src/main/java/quizApp/QuizController.java:85 | the loop stops having seen the lines before the stopping read, and it stopped on an exception exactly when a read fails |
| CsvIngest.AcceptedRows | src/main/java/quizApp/QuizController.java:86-87 | the rows kept are no more than the lines and each has exactly the arity |
| CsvIngest.AcceptedRowsAppend | src/main/java/csvApp/MainController.java:86-90 | the filter works line by line, so the rows of two runs of lines are concatenated |
| CsvIngest.AcceptedRowsSingle | src/main/java/csvApp/MainController.java:90 | a single line is kept exactly when its token count matches |
| CsvIngest.MalformedLineSkipped | src/main/java/csvApp/MainController.java:90 | a line of the wrong arity adds nothing, and the lines after it are still processed |
| CsvIngest.WellFormedLineKept | src/main/java/csvApp/MainController.java:90-91 | a line of the right arity adds its tokens in place |
| CsvIngest.AllWellFormed | src/main/java/csvApp/MainController.java:86-91 | when every line has the arity, one row per line is kept, in order, each the split of its line |
| CsvIngest.AcceptedRowsComeFromLines | src/main/java/csvApp/MainController.java:86-91 | every row kept is the split of some data line |
| QuizQuestion.Options | src/main/java/quizApp/Question.java:32-35 | the four button texts are options A to D, in order |
| QuizQuestion.QuestionOf | src/main/java/quizApp/QuizController.java:88-95 | `new Question(tokens[0], ..., tokens[5])`; QuestionTokensRoundTrip makes it the inverse of Tokens |
| QuizQuestion.Tokens | src/main/java/quizApp/Question.java:20-28 | a question has six fields |
| QuizQuestion.ConstructorKeepsArguments | src/main/java/quizApp/Question.java:20-36 | every getter returns the matching constructor argument, with nothing checked |
| QuizQuestion.QuestionTokensRoundTrip | src/main/java/quizApp/QuizController.java:88-95 | building a question from six tokens and listing its fields are inverse |
| QuizQuestion.QuestionsOf | src/main/java/quizApp/QuizController.java:85-97 | a load yields no more questions than data lines |
| QuizQuestion.QuestionsOfSnoc | src/main/java/quizApp/QuizController.java:86-96 | one more data line appends its question at the end when it has six tokens, and nothing otherwise |
| QuizQuestion.QuestionsOfAcceptedRows | src/main/java/quizApp/QuizController.java:86-96 | the questions are the six-token rows, in order, with field i taken from token i |
| QuizQuestion.QuestionsComeFromLines | src/main/java/quizApp/QuizController.java:86-96 | every loaded question is the split of some data line |
| QuizQuestion.CsvLineRoundTrip | src/main/java/quizApp/QuizController.java:86-96 | writing a question as a CSV line and loading it gives the question back, when no field has a comma and the answer is non-empty |
| QuizControl.FormatTime | src/main/java/quizApp/QuizController.java:236-240 | minutes and seconds by Java's `/` and `%`, each through `%02d`, joined by a colon; FormatTimeIsClock and the three sample lemmas pin it down |
| QuizControl.MinutesAndSeconds | src/main/java/quizApp/QuizController.java:236-238 | for s >= 0: mins = s/60, secs = s%60, mins*60 + secs == s and 0 <= secs < 60 |
| QuizControl.Pad2TwoDigits | src/main/java/quizApp/QuizController.java:239 | %02d of 0 to 99 is two digits that read back as the number |
| QuizControl.FormatTimeIsClock | src/main/java/quizApp/QuizController.java:236-240 | below 100 minutes the label is "MM:SS", zero padded, reading back as the seconds given, with seconds below 60 |
| QuizControl.FormatTimeFullMinute | src/main/java/quizApp/QuizController.java:236-240 | 60 seconds shows "01:00" |
| QuizControl.FormatTimeLastSecondOfMinute | src/main/java/quizApp/QuizController.java:236-240 | 59 seconds shows "00:59" |
| QuizControl.FormatTimeZero | src/main/java/quizApp/QuizController.java:236-240 | 0 seconds shows "00:00" |
| QuizControl.FormatMinutesSeconds | src/main/java/quizApp/QuizController.java:236-240 | a label is the padded minutes, a colon and the padded seconds |
| QuizControl.ReadQuestions | src/main/java/quizApp/QuizController.java:83-97 | the reading loop yields the questions of the lines it read, and reports an exception exactly when a read fails |
| QuizControl.QuizController.Valid | src/main/java/quizApp/QuizController.java:42-48 | four button texts and marks, the score at most the questions answered, and ticks plus time left equal to 60, with the timer playing only while start is disabled; every handler keeps it |
| QuizControl.QuizController.constructor | src/main/java/quizApp/QuizController.java:42-60 | fields at their initial values; answer, next and start disabled; timer label "00:00" |
| QuizControl.QuizController.LoadQuestionsFromCsv | src/main/java/quizApp/QuizController.java:81-110 | the list is replaced by the questions of the lines read; start is enabled only by a complete load that found a question; the label says which case happened; nothing else changes |
| QuizControl.QuizController.HandleStartQuiz | src/main/java/quizApp/QuizController.java:116-127 | score, index and clock reset and the timer started; question 1 and its options shown, or the quiz over at once when there are none; answers enabled, start and next disabled either way |
| QuizControl.QuizController.ShowQuestion | src/main/java/quizApp/QuizController.java:132-145 | shows the current question and its options and resets answered, or runs endQuiz when the index is past the end |
| QuizControl.QuizController.HandleAnswerSelected | src/main/java/quizApp/QuizController.java:151-171 | a second answer changes nothing; otherwise the score rises by one exactly on a case-insensitive match, the chosen button is marked blue or red, every matching button turns blue, answers lock, next unlocks; an index past the end throws before any change |
| QuizControl.QuizController.HighlightCorrectAnswer | src/main/java/quizApp/QuizController.java:222-228 | exactly the buttons whose text matches the answer (ignoring case) turn blue; the others keep their mark |
| QuizControl.QuizController.ResetButtonStyles | src/main/java/quizApp/QuizController.java:230-234 | every button loses its mark |
| QuizControl.QuizController.HandleNextQuestion | src/main/java/quizApp/QuizController.java:177-182 | marks cleared, index up by exactly one, answers enabled; the next question shown, or the quiz ended |
| QuizControl.QuizController.Tick | src/main/java/quizApp/QuizController.java:188-196 | one second less, shown as MM:SS; the timer stops and the quiz ends exactly when time reaches zero; at most 60 ticks after a start |
| QuizControl.QuizController.EndQuiz | src/main/java/quizApp/QuizController.java:204-211 | answers and next disabled, start enabled, timer stopped, score shown out of the total |
| QuizControl.QuizController.StartTimer | src/main/java/quizApp/QuizController.java:187-199 | a new timer plays with no key frame run yet |
| QuizControl.QuizController.DisableAnswerButtons | src/main/java/quizApp/QuizController.java:215-220 | the four answer buttons get the given disabled state |
| StudentRecords.StudentRecord.constructor | src/main/java/csvApp/StudentRecord.java:21-27 | each cell holds the matching argument, unchecked |
| StudentRecords.StudentRecord.GetName | src/main/java/csvApp/StudentRecord.java:31-33 | returns the name cell |
| StudentRecords.StudentRecord.GetMath | src/main/java/csvApp/StudentRecord.java:39-41 | returns the math cell |
| StudentRecords.StudentRecord.GetScience | src/main/java/csvApp/StudentRecord.java:47-49 | returns the science cell |
| StudentRecords.StudentRecord.GetEnglish | src/main/java/csvApp/StudentRecord.java:55-57 | returns the English cell |
| StudentRecords.StudentRecord.GetHistory | src/main/java/csvApp/StudentRecord.java:63-65 | returns the history cell |
| StudentRecords.StudentRecord.SetName | src/main/java/csvApp/StudentRecord.java:35-37 | overwrites the name cell and no other |
| StudentRecords.StudentRecord.SetMath | src/main/java/csvApp/StudentRecord.java:43-45 | overwrites the math cell and no other |
| StudentRecords.StudentRecord.SetScience | src/main/java/csvApp/StudentRecord.java:51-53 | overwrites the science cell and no other |
| StudentRecords.StudentRecord.SetEnglish | src/main/java/csvApp/StudentRecord.java:59-61 | overwrites the English cell and no other |
| StudentRecords.StudentRecord.SetHistory | src/main/java/csvApp/StudentRecord.java:67-69 | overwrites the history cell and no other |
| StudentRecords.SetThenGet | src/main/java/csvApp/StudentRecord.java:21-69 | a getter after its setter returns the value set, and the other cells keep the constructor's values |
| CsvTable.RecordOf | src/main/java/csvApp/MainController.java:91-97 | a record from five tokens, the name verbatim and the four numbers parsed, or the failure when one does not parse; AllNumbersParse and BobDoesNotParse pin it down |
| CsvTable.Step | src/main/java/csvApp/MainController.java:86-98 | one pass of the loop body: nothing after a failure, nothing for a line that is not five tokens, otherwise a record or the failure; StudentsOfSnoc ties it to StudentsOf |
| CsvTable.OutcomeOf | src/main/java/csvApp/MainController.java:82-104 | how loadCSV ends: the NumberFormatException when a read line fails to parse, else the caught IOException when a read fails, else normally; LoadCsv returns it |
| CsvTable.StudentsOf | src/main/java/csvApp/MainController.java:86-99 | a load yields no more records than data lines |
| CsvTable.StudentsOfSnoc | src/main/java/csvApp/MainController.java:86-98 | one more line is one more pass of the loop body |
| CsvTable.FailureIsFinal | src/main/java/csvApp/MainController.java:91-97 | after a number fails to parse, later lines add nothing |
| CsvTable.BadNumberKeepsEarlierRows | src/main/java/csvApp/MainController.java:91-97 | a five-token line with a bad number ends the load, keeping the records of the lines before it |
| CsvTable.AllNumbersParse | src/main/java/csvApp/MainController.java:86-98 | when the numbers of every five-token line of the file parse, the load does not fail and gives one record per five-token line, in file order, each the RecordOf its tokens: the name verbatim and the scores from tokens 1 to 4 |
| CsvTable.GoodThenBad | src/main/java/csvApp/MainController.java:86-98 | a good line then a bad one: the first record kept, the load failed |
| CsvTable.AliceParses | src/main/java/csvApp/MainController.java:87-97 | "Alice,90,85,88,92" becomes Alice's record |
| CsvTable.BobDoesNotParse | src/main/java/csvApp/MainController.java:87-97 | "Bob,,70,80,75" has five tokens and an empty math score that does not parse |
| CsvTable.AliceAndBob | src/main/java/csvApp/MainController.java:79-105 | loading those two lines keeps Alice's record, then the NumberFormatException escapes |
| CsvTable.NumberFailureBeforeEnd | src/main/java/csvApp/MainController.java:91-97 | a failing number on a line that was read decides the load's result |
| CsvTable.ReadStudents | src/main/java/csvApp/MainController.java:82-104 | the reading loop makes one new record per five-token line read before the first failure, holding that line's values, and ends in the exception that decides the outcome |
| CsvTable.MainController.constructor | src/main/java/csvApp/MainController.java:32 | the record list starts empty |
| CsvTable.MainController.LoadCsv | src/main/java/csvApp/MainController.java:79-105 | the list is cleared and then holds new records with exactly the values StudentsOf gives for the lines read; the outcome says whether the load completed, caught an IOException or let a NumberFormatException escape |

## Left out

- The JavaFX widgets, FXML injection, `FileChooser` dialogs and `handleLoadCSV` (quiz) and `handleLoad` (student table): GUI plumbing. Labels are the datatype `Prompt` rather than their exact strings.
- The score label (`scoreLabel.setText`): display only; `score` itself is modelled.
- The colours and CSS strings: the four colours are the enum `Mark`.
- `StudentRecord`'s `...Property()` accessors (lines 72-76): JavaFX bindings only.
- `quizApp.MainApp`: application launch only.
- Real time: the Timeline's one-second schedule is the caller invoking `Tick`.
- `QuizControl.QuizController.HandleStartQuiz` requires `!running`: the code would start a second Timeline beside a playing one, which the single `running` flag cannot represent.
- `QuizControl.QuizController.LoadQuestionsFromCsv` requires `!running`: a load while a quiz is playing is not modelled.
- `QuizControl.QuizController.HandleAnswerSelected`: the clicked button (`event.getSource()`) is an index 0 to 3.
- Unicode case mapping in `equalsIgnoreCase`: an ASCII fold stands for it.
- Floating point: `Double.parseDouble` is the parameter `parse`, and a score is an opaque 64-bit pattern.
- I/O: a file is its lines plus the index of the failing read. An exception when opening the file is the same as one on the header read. An exception from `close()` and `printStackTrace` are not modelled.
- 32-bit `int` wrap-around of `score` and `currentQuestionIndex`: they would need 2^31 answers or clicks. `int` is unbounded here.
- `CsvTable.ReadStudents` and `QuizControl.ReadQuestions`: the reading loop runs in its own method on a local list. The controller then stores that list in its field. Nothing else can observe the list while the loop runs, so this matches the code appending to the field directly.
