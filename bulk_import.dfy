/** The two bulk tools of the admin page: the question importer (a CSV file is turned into
    JSON text; JSON text is turned into question rows for one mock test) and the paper
    uploader (a queue of PDF files stored one by one under the chosen university, course
    and subject). */
module BulkImport {
  import opened Wrappers
  import opened Seqs
  import opened Text

  // ================================================================ CSV

  /** `.replace(/^"|"$/g, '')`: one double quote removed at the start and one at the end. */
  function StripQuotes(s: string): (r: string)
    ensures r == s || (|s| >= 1 && (r == s[1..] || r == s[..|s| - 1])) || (|s| >= 2 && r == s[1..|s| - 1])
    ensures (s == [] || (s[0] != '"' && s[|s| - 1] != '"')) ==> r == s
    ensures s != [] && s[0] == '"' && (|s| == 1 || s[|s| - 1] != '"') ==> r == s[1..]
    ensures s != [] && s[0] != '"' && s[|s| - 1] == '"' ==> r == s[..|s| - 1]
    ensures |s| >= 2 && s[0] == '"' && s[|s| - 1] == '"' ==> r == s[1..|s| - 1]
  {
    var t := if s != [] && s[0] == '"' then s[1..] else s;
    if t != [] && t[|t| - 1] == '"' then t[..|t| - 1] else t
  }

  /** A field wrapped in quotes loses exactly the wrapping pair, whatever it holds. */
  lemma StripQuotesWrapped(t: string)
    ensures StripQuotes("\"" + t + "\"") == t
  {
    var s := "\"" + t + "\"";
    assert s[1..] == t + "\"";
    assert (t + "\"")[..|t|] == t;
  }

  /** One cleaned field: trimmed, then unquoted. */
  function CleanField(c: string): string
  {
    StripQuotes(Trim(c))
  }

  /** `line.split(',').map(clean)`: every comma separates, quotes do not protect one. */
  function Columns(line: string): (cols: seq<string>)
    ensures |cols| == |Split(line, ',')| >= 1
    ensures forall i :: 0 <= i < |cols| ==> cols[i] == CleanField(Split(line, ',')[i])
  {
    var raw := Split(line, ',');
    seq(|raw|, i requires 0 <= i < |raw| => CleanField(raw[i]))
  }

  /** `cols[i]`, where a missing column behaves as the empty one for every use below
      (`filter(Boolean)` drops both, `parseInt` reads neither, `|| ''` maps both to ''). */
  function Field(cols: seq<string>, i: nat): string
  {
    if i < |cols| then cols[i] else ""
  }

  /** A question read from one CSV line. */
  datatype CsvQuestion = CsvQuestion(questionText: string, options: seq<string>, correctAnswer: int, explanation: string)

  /** `parseInt(c) || 0`: the leading integer, or 0 when there is none. */
  function LeadingIntOrZero(c: string): int
  {
    match ParseIntJs(c)
    case Some(v) => v
    case None => 0
  }

  /** The columns question_text, option_a..option_d, correct_answer, explanation. */
  function ParseCsvRow(line: string): CsvQuestion
  {
    QuestionOfColumns(Columns(line))
  }

  /** The question the cleaned columns of one line describe. */
  function QuestionOfColumns(cols: seq<string>): CsvQuestion
    requires |cols| >= 1
  {
    CsvQuestion(
      cols[0],
      KeepNonEmpty([Field(cols, 1), Field(cols, 2), Field(cols, 3), Field(cols, 4)]),
      LeadingIntOrZero(Field(cols, 5)),
      Field(cols, 6))
  }

  /** What the columns become: the text is the first column, the options the non-empty
      ones among the next four in order, the answer the leading integer of the sixth (or
      0) and the explanation the seventh (or ''). */
  lemma QuestionOfColumnsFields(cols: seq<string>)
    requires |cols| >= 1
    ensures var q := QuestionOfColumns(cols);
      && q.questionText == cols[0]
      && |q.options| <= 4 && IsSubsequence(q.options, [Field(cols, 1), Field(cols, 2), Field(cols, 3), Field(cols, 4)])
      && (forall i :: 0 <= i < |q.options| ==> q.options[i] != "")
      && (forall i :: 1 <= i <= 4 && Field(cols, i) != "" ==> Field(cols, i) in q.options)
      && (forall o :: multiset(q.options)[o] ==
            if o != "" then multiset([Field(cols, 1), Field(cols, 2), Field(cols, 3), Field(cols, 4)])[o] else 0)
      && q.correctAnswer == LeadingIntOrZero(Field(cols, 5))
      && q.explanation == Field(cols, 6)
  {
    var boxes := [Field(cols, 1), Field(cols, 2), Field(cols, 3), Field(cols, 4)];
    forall i | 1 <= i <= 4 && Field(cols, i) != "" ensures Field(cols, i) in KeepNonEmpty(boxes) {
      assert Field(cols, i) == boxes[i - 1];
    }
  }

  /** One CSV line, column by column. */
  lemma ParseCsvRowFields(line: string)
    ensures var q := ParseCsvRow(line); var cols := Columns(line);
      && q.questionText == cols[0]
      && |q.options| <= 4 && IsSubsequence(q.options, [Field(cols, 1), Field(cols, 2), Field(cols, 3), Field(cols, 4)])
      && (forall i :: 0 <= i < |q.options| ==> q.options[i] != "")
      && (forall i :: 1 <= i <= 4 && Field(cols, i) != "" ==> Field(cols, i) in q.options)
      && (forall o :: multiset(q.options)[o] ==
            if o != "" then multiset([Field(cols, 1), Field(cols, 2), Field(cols, 3), Field(cols, 4)])[o] else 0)
      && q.correctAnswer == LeadingIntOrZero(Field(cols, 5))
      && q.explanation == Field(cols, 6)
  {
    QuestionOfColumnsFields(Columns(line));
  }

  /** `text.split('\n').filter(Boolean)`. */
  function CsvLines(text: string): seq<string>
  {
    KeepNonEmpty(Split(text, '\n'))
  }

  datatype CsvError = NeedHeaderAndOneQuestion

  /** `handleCSVFile`: fewer than two non-empty lines is refused; otherwise every line after
      the header becomes one question, in order. */
  function ParseCsv(text: string): (r: Result<seq<CsvQuestion>, CsvError>)
    ensures r.Err? <==> |CsvLines(text)| < 2
    ensures r.Ok? ==> (|r.value| == |CsvLines(text)| - 1
      && forall i :: 0 <= i < |r.value| ==> r.value[i] == ParseCsvRow(CsvLines(text)[i + 1]))
  {
    var lines := CsvLines(text);
    if |lines| < 2 then Err(NeedHeaderAndOneQuestion)
    else Ok(ParseRows(lines[1..]))
  }

  /** `lines.map(parseRow)`. */
  function ParseRows(lines: seq<string>): (qs: seq<CsvQuestion>)
    ensures |qs| == |lines| && forall i :: 0 <= i < |lines| ==> qs[i] == ParseCsvRow(lines[i])
  {
    if lines == [] then [] else [ParseCsvRow(lines[0])] + ParseRows(lines[1..])
  }

  /** A field that the cleaning leaves alone: no comma, no outer whitespace, no outer quote. */
  predicate PlainField(f: string)
  {
    ',' !in f && (f == [] || (!IsJsWhitespace(f[0]) && !IsJsWhitespace(f[|f| - 1]) && f[0] != '"' && f[|f| - 1] != '"'))
  }

  lemma CleanPlainField(f: string)
    requires PlainField(f)
    ensures CleanField(f) == f
  {
    TrimNoOuterSpace(f);
    assert Trim(f) == f;
    assert StripQuotes(f) == f;
  }

  /** Plain fields joined by commas come back as the columns. */
  lemma ColumnsOfPlainFields(parts: seq<string>)
    requires |parts| >= 1 && forall i :: 0 <= i < |parts| ==> PlainField(parts[i])
    ensures Columns(Join(parts, ',')) == parts
  {
    SplitJoin(parts, ',');
    var cols := Columns(Join(parts, ','));
    forall i | 0 <= i < |parts| ensures cols[i] == parts[i] {
      CleanPlainField(parts[i]);
    }
  }

  /** A printed number is a plain field. */
  lemma NatToStringPlain(k: nat)
    ensures PlainField(NatToString(k))
  {
    var n := NatToString(k);
    assert forall i :: 0 <= i < |n| ==> IsDigit(n[i]);
    assert !IsJsWhitespace(n[0]) && !IsJsWhitespace(n[|n| - 1]);
  }

  /** A printed number reads back through `parseInt(c) || 0`. */
  lemma LeadingIntOfPrinted(k: nat)
    ensures LeadingIntOrZero(NatToString(k)) == k
  {
    assert NatToString(k) + "" == NatToString(k);
    ParseIntLeadingNumber(k, "");
  }

  /** A line written from plain fields and a non-negative answer index reads back as that
      question, with the empty options dropped. */
  lemma CsvRowRoundTrip(text: string, a: string, b: string, c: string, d: string, k: nat, e: string)
    requires PlainField(text) && PlainField(a) && PlainField(b) && PlainField(c) && PlainField(d) && PlainField(e)
    ensures var line := Join([text, a, b, c, d, NatToString(k), e], ',');
      ParseCsvRow(line) == CsvQuestion(text, KeepNonEmpty([a, b, c, d]), k, e)
  {
    var parts := [text, a, b, c, d, NatToString(k), e];
    NatToStringPlain(k);
    SevenPlainColumns(parts);
    ParseSevenColumns(Join(parts, ','), parts);
    LeadingIntOfPrinted(k);
  }

  /** Seven plain fields joined by commas come back as the seven columns. */
  lemma SevenPlainColumns(parts: seq<string>)
    requires |parts| == 7
    requires PlainField(parts[0]) && PlainField(parts[1]) && PlainField(parts[2]) && PlainField(parts[3])
    requires PlainField(parts[4]) && PlainField(parts[5]) && PlainField(parts[6])
    ensures Columns(Join(parts, ',')) == parts
  {
    assert forall i :: 0 <= i < |parts| ==> PlainField(parts[i]);
    ColumnsOfPlainFields(parts);
  }

  /** A line with seven columns, read column by column. */
  lemma ParseSevenColumns(line: string, cols: seq<string>)
    requires Columns(line) == cols && |cols| == 7
    ensures ParseCsvRow(line) == CsvQuestion(cols[0], KeepNonEmpty([cols[1], cols[2], cols[3], cols[4]]), LeadingIntOrZero(cols[5]), cols[6])
  {
  }

  // ================================================================ JSON

  /** A parsed JSON value. */
  datatype Json =
    | JNull
    | JBool(b: bool)
    | JNum(n: real)
    | JStr(s: string)
    | JArr(items: seq<Json>)
    | JObj(fields: map<string, Json>)

  /** `q[key]` for a value that is not `null`: an object's member, `undefined` (None)
      otherwise. */
  function Get(q: Json, key: string): Option<Json>
  {
    if q.JObj? && key in q.fields then Some(q.fields[key]) else None
  }

  /** JavaScript truthiness; `undefined` is None. */
  predicate Truthy(v: Option<Json>)
  {
    match v
    case None => false
    case Some(j) =>
      match j
      case JNull => false
      case JBool(b) => b
      case JNum(n) => n != 0.0
      case JStr(s) => s != ""
      case JArr(_) => true
      case JObj(_) => true
  }

  /** `a || b`. */
  function Or(a: Option<Json>, b: Option<Json>): (r: Option<Json>)
    ensures Truthy(a) ==> r == a
    ensures !Truthy(a) ==> r == b
  {
    if Truthy(a) then a else b
  }

  /** `a ?? b`. */
  function Coalesce(a: Option<Json>, b: Json): (r: Json)
    ensures a.Some? && a.value != JNull ==> r == a.value
    ensures a.None? || a == Some(JNull) ==> r == b
  {
    if a.Some? && a.value != JNull then a.value else b
  }

  /** A row for the questions table; `None` is a member left `undefined`. */
  datatype QuestionRecord = QuestionRecord(
    mockTestId: string, questionText: Option<Json>, options: Option<Json>,
    correctAnswer: Json, explanation: Json, orderIndex: nat)

  /** The row built from item `i`. */
  function RecordOf(q: Json, testId: string, i: nat): (r: QuestionRecord)
    ensures r.mockTestId == testId && r.orderIndex == i
    ensures r.options == Get(q, "options")
    ensures Truthy(Get(q, "question_text")) ==> r.questionText == Get(q, "question_text")
    ensures !Truthy(Get(q, "question_text")) ==> r.questionText == Get(q, "question")
    ensures Get(q, "correct_answer") !in {None, Some(JNull)} ==> Some(r.correctAnswer) == Get(q, "correct_answer")
    ensures Get(q, "correct_answer") in {None, Some(JNull)} ==> r.correctAnswer == JNum(0.0)
    ensures Truthy(Get(q, "explanation")) ==> Some(r.explanation) == Get(q, "explanation")
    ensures !Truthy(Get(q, "explanation")) ==> r.explanation == JNull
  {
    QuestionRecord(
      testId,
      Or(Get(q, "question_text"), Get(q, "question")),
      Get(q, "options"),
      Coalesce(Get(q, "correct_answer"), JNum(0.0)),
      Or(Get(q, "explanation"), Some(JNull)).GetOr(JNull),
      i)
  }

  /** `0` and `false` are kept as the correct answer: only a missing or null one becomes 0. */
  lemma FalsyAnswerKept(q: Json, testId: string, i: nat)
    requires Get(q, "correct_answer") == Some(JNum(0.0)) || Get(q, "correct_answer") == Some(JBool(false))
    ensures RecordOf(q, testId, i).correctAnswer == Get(q, "correct_answer").value
  {
  }

  datatype ImportError =
    | InvalidJson        // JSON.parse threw: "Invalid JSON format"
    | NotAQuestionList   // not an array, or an empty one
    | Crashed            // a `null` item: reading its members throws past the handler

  /** The records `handleImport` sends, from the value `JSON.parse` produced (None when it
      threw). */
  function PrepareImport(parsed: Option<Json>, testId: string): (r: Result<seq<QuestionRecord>, ImportError>)
    ensures parsed.None? <==> r == Err(InvalidJson)
    ensures r == Err(NotAQuestionList) <==> parsed.Some? && (!parsed.value.JArr? || parsed.value.items == [])
    ensures r.Ok? <==> parsed.Some? && parsed.value.JArr? && parsed.value.items != [] && JNull !in parsed.value.items
    ensures r.Ok? ==> (|r.value| == |parsed.value.items|
      && forall i :: 0 <= i < |r.value| ==> r.value[i] == RecordOf(parsed.value.items[i], testId, i))
  {
    match parsed
    case None => Err(InvalidJson)
    case Some(v) =>
      if !v.JArr? || v.items == [] then Err(NotAQuestionList)
      else if JNull in v.items then Err(Crashed)
      else Ok(seq(|v.items|, i requires 0 <= i < |v.items| => RecordOf(v.items[i], testId, i)))
  }

  /** What the importer reports. */
  datatype ImportOutcome =
    | Refused(error: ImportError)
    | InsertFailed(message: string)
    | Imported(count: nat)

  /** `handleImport` with the insert's answer as a parameter (`None` when it succeeded). */
  function HandleImport(parsed: Option<Json>, testId: string, insertError: Option<string>): (r: ImportOutcome)
    ensures PrepareImport(parsed, testId).Err? ==> r == Refused(PrepareImport(parsed, testId).error)
    ensures PrepareImport(parsed, testId).Ok? && insertError.Some? ==> r == InsertFailed(insertError.value)
    ensures PrepareImport(parsed, testId).Ok? && insertError.None? ==> r == Imported(|parsed.value.items|)
    ensures r.Imported? ==> insertError.None? && r.count == |parsed.value.items| > 0
  {
    match PrepareImport(parsed, testId)
    case Err(e) => Refused(e)
    case Ok(records) => if insertError.Some? then InsertFailed(insertError.value) else Imported(|records|)
  }

  /** `!(importing || !jsonInput.trim())`: the Import button is enabled exactly when no
      import is running and the text holds a character that is not whitespace. */
  predicate CanImport(jsonInput: string, importing: bool): (enabled: bool)
    ensures enabled <==> !importing && exists k :: 0 <= k < |jsonInput| && !IsJsWhitespace(jsonInput[k])
  {
    TrimBlank(jsonInput);
    !importing && Trim(jsonInput) != ""
  }

  /** `j` is a JSON array holding the strings `xs`, in order. */
  predicate IsStringArray(j: Option<Json>, xs: seq<string>)
  {
    j.Some? && j.value.JArr? && |j.value.items| == |xs|
    && forall k :: 0 <= k < |xs| ==> j.value.items[k] == JStr(xs[k])
  }

  /** `JSON.stringify` of a CSV question, as read back by `JSON.parse`. */
  function CsvQuestionJson(q: CsvQuestion): Json
  {
    JObj(map[
      "question_text" := JStr(q.questionText),
      "options" := JArr(seq(|q.options|, i requires 0 <= i < |q.options| => JStr(q.options[i]))),
      "correct_answer" := JNum(q.correctAnswer as real),
      "explanation" := JStr(q.explanation)])
  }

  /** One CSV question read back as a row: its text (or the absent `question` member when
      the text is empty), its answer, and its explanation or null. */
  lemma CsvQuestionRecord(q: CsvQuestion, testId: string, i: nat)
    ensures var r := RecordOf(CsvQuestionJson(q), testId, i);
      && r.orderIndex == i
      && r.questionText == (if q.questionText != "" then Some(JStr(q.questionText)) else None)
      && IsStringArray(r.options, q.options)
      && r.correctAnswer == JNum(q.correctAnswer as real)
      && r.explanation == (if q.explanation != "" then JStr(q.explanation) else JNull)
  {
    assert Get(CsvQuestionJson(q), "question") == None;
  }

  /** CSV questions that go through the text box and the importer keep their order, text,
      options and answer; an empty explanation is stored as null and an empty question
      text falls back to the (absent) `question` member. */
  lemma CsvThroughImport(qs: seq<CsvQuestion>, testId: string)
    requires qs != []
    ensures var items := seq(|qs|, i requires 0 <= i < |qs| => CsvQuestionJson(qs[i]));
      var r := PrepareImport(Some(JArr(items)), testId);
      && r.Ok? && |r.value| == |qs|
      && forall i :: 0 <= i < |qs| ==>
        && r.value[i].orderIndex == i
        && r.value[i].questionText == (if qs[i].questionText != "" then Some(JStr(qs[i].questionText)) else None)
        && IsStringArray(r.value[i].options, qs[i].options)
        && r.value[i].correctAnswer == JNum(qs[i].correctAnswer as real)
        && r.value[i].explanation == (if qs[i].explanation != "" then JStr(qs[i].explanation) else JNull)
  {
    var items := seq(|qs|, i requires 0 <= i < |qs| => CsvQuestionJson(qs[i]));
    assert JNull !in items by {
      forall i | 0 <= i < |items| ensures items[i] != JNull {
        assert items[i].JObj?;
      }
    }
    forall i | 0 <= i < |qs|
      ensures var r := RecordOf(items[i], testId, i);
        && r.questionText == (if qs[i].questionText != "" then Some(JStr(qs[i].questionText)) else None)
        && IsStringArray(r.options, qs[i].options)
        && r.correctAnswer == JNum(qs[i].correctAnswer as real)
        && r.explanation == (if qs[i].explanation != "" then JStr(qs[i].explanation) else JNull)
    {
      CsvQuestionRecord(qs[i], testId, i);
    }
  }

  // ================================================================ paper upload

  datatype File = File(name: string, mimeType: string, size: nat)

  predicate IsPdf(f: File) { f.mimeType == "application/pdf" }

  /** `files.filter(f => f.type === 'application/pdf')`. */
  function PdfsOf(fs: seq<File>): (r: seq<File>)
    ensures IsSubsequence(r, fs)
    ensures forall i :: 0 <= i < |r| ==> IsPdf(r[i]) && r[i] in fs
    ensures forall i :: 0 <= i < |fs| && IsPdf(fs[i]) ==> fs[i] in r
    ensures forall f :: multiset(r)[f] == if IsPdf(f) then multiset(fs)[f] else 0
  {
    FilterIsSubsequence(IsPdf, fs);
    FilterMultiset(IsPdf, fs);
    Filter(IsPdf, fs)
  }

  /** `prev.filter((_, i) => i !== index)`: entry `index` goes, the rest keep their order;
      an index outside the list removes nothing. */
  function RemoveAt<T>(xs: seq<T>, index: int): (r: seq<T>)
    ensures 0 <= index < |xs| ==> (|r| == |xs| - 1
      && (forall i :: 0 <= i < index ==> r[i] == xs[i])
      && (forall i :: index <= i < |r| ==> r[i] == xs[i + 1]))
    ensures !(0 <= index < |xs|) ==> r == xs
  {
    if 0 <= index < |xs| then xs[..index] + xs[index + 1..] else xs
  }

  /** The metadata chosen above the drop zone. */
  datatype PaperForm = PaperForm(universityId: string, course: string, subject: string, semester: string, year: int)

  /** `university_id/course/subject/<Date.now()>_<file name>`. */
  function StoragePath(form: PaperForm, now: int, fileName: string): string
  {
    form.universityId + "/" + form.course + "/" + form.subject + "/" + IntToString(now) + "_" + fileName
  }

  /** The path is its four parts joined by slashes. */
  lemma StoragePathJoined(form: PaperForm, now: int, fileName: string)
    ensures Join([form.universityId, form.course, form.subject, IntToString(now) + "_" + fileName], '/') == StoragePath(form, now, fileName)
  {
    var n := IntToString(now);
    Join4(form.universityId, form.course, form.subject, n + "_" + fileName, '/');
    Assoc3(form.universityId + "/" + form.course + "/" + form.subject + "/", n, "_", fileName);
  }

  /** The path splits back into its four parts when none of the first three holds a slash
      and neither does the file name. */
  lemma StoragePathParts(form: PaperForm, now: int, fileName: string)
    requires '/' !in form.universityId && '/' !in form.course && '/' !in form.subject && '/' !in fileName
    ensures Split(StoragePath(form, now, fileName), '/') == [form.universityId, form.course, form.subject, IntToString(now) + "_" + fileName]
  {
    var stamp := IntToString(now) + "_" + fileName;
    IntToStringChars(now, '/');
    assert '/' !in stamp;
    StoragePathJoined(form, now, fileName);
    SplitJoin([form.universityId, form.course, form.subject, stamp], '/');
  }

  /** What the backend answers for one file. */
  datatype FileReply = StorageError | InsertError | Stored

  /** Number of files that were stored and recorded. */
  function StoredCount(replies: seq<FileReply>): (n: nat)
    ensures n <= |replies|
  {
    if replies == [] then 0
    else StoredCount(replies[..|replies| - 1]) + (if replies[|replies| - 1] == Stored then 1 else 0)
  }

  /** Counting one more reply. */
  lemma StoredCountStep(replies: seq<FileReply>, i: nat)
    requires i < |replies|
    ensures StoredCount(replies[..i + 1]) == StoredCount(replies[..i]) + (if replies[i] == Stored then 1 else 0)
  {
    assert replies[..i + 1][..i] == replies[..i];
  }

  /** The toast after an upload: the successes, and the failures when there are any. */
  function UploadMessage(success: nat, failed: nat): string
  {
    NatToString(success) + " papers uploaded" + (if failed > 0 then ", " + NatToString(failed) + " failed" else "")
  }

  /** The toast reads back: its leading number is the success count, and a comma followed
      by the failure count appears exactly when some file failed. */
  lemma UploadMessageReadsBack(success: nat, failed: nat)
    ensures var msg := UploadMessage(success, failed); var n := |NatToString(success)|;
      && ParseIntJs(msg) == Some(success)
      && (failed == 0 <==> ',' !in msg)
      && (failed > 0 ==> |msg| > n + 18 && ParseIntJs(msg[n + 18..]) == Some(failed))
  {
    UploadMessageCount(success, failed);
    UploadMessageComma(success, failed);
    if failed > 0 {
      UploadMessageFailures(success, failed);
    }
  }

  /** The leading number of the toast is the success count. */
  lemma UploadMessageCount(success: nat, failed: nat)
    ensures ParseIntJs(UploadMessage(success, failed)) == Some(success)
  {
    var tail := if failed > 0 then ", " + NatToString(failed) + " failed" else "";
    assert UploadMessage(success, failed) == NatToString(success) + (" papers uploaded" + tail);
    ParseIntLeadingNumber(success, " papers uploaded" + tail);
  }

  /** A comma appears in the toast exactly when some file failed. */
  lemma UploadMessageComma(success: nat, failed: nat)
    ensures failed == 0 <==> ',' !in UploadMessage(success, failed)
  {
    var s := NatToString(success);
    DigitsLackChar(s, ',');
    var words := " papers uploaded";
    assert ',' !in words;
    if failed > 0 {
      var rest := ", " + NatToString(failed) + " failed";
      assert UploadMessage(success, failed) == (s + words) + rest;
      assert rest[0] == ',';
    } else {
      assert UploadMessage(success, failed) == s + words;
    }
  }

  /** After `<n> papers uploaded, ` comes the failure count. */
  lemma UploadMessageFailures(success: nat, failed: nat)
    requires failed > 0
    ensures var msg := UploadMessage(success, failed); var n := |NatToString(success)|;
      |msg| > n + 18 && ParseIntJs(msg[n + 18..]) == Some(failed)
  {
    var s, words, comma := NatToString(success), " papers uploaded", ", ";
    var f := NatToString(failed);
    Regroup(s, words, comma, f, " failed");
    DropPrefix(s + words + comma, f + " failed");
    ParseIntLeadingNumber(failed, " failed");
  }

  /** Moving the break between two concatenated strings. */
  lemma Regroup(a: string, b: string, c: string, d: string, e: string)
    ensures a + b + (c + d + e) == (a + b + c) + (d + e)
  {
  }

  /** What follows a prefix. */
  lemma DropPrefix(p: string, q: string)
    ensures (p + q)[|p|..] == q
  {
  }

  /** The upload form is refused unless university, course and subject are chosen and at
      least one file is queued. */
  predicate UploadAllowed(form: PaperForm, files: seq<File>)
  {
    form.universityId != "" && form.course != "" && form.subject != "" && files != []
  }

  /** The `for` loop of `handleUpload`: file `i` goes to its storage path, and the backend's
      answer `replies[i]` adds one to the successes or to the failures. */
  method UploadEach(form: PaperForm, queue: seq<File>, replies: seq<FileReply>, clock: seq<int>)
    returns (success: nat, failed: nat, paths: seq<string>)
    requires |replies| == |queue| && |clock| == |queue|
    ensures success == StoredCount(replies) && success + failed == |queue|
    ensures |paths| == |queue| && forall k :: 0 <= k < |paths| ==> paths[k] == StoragePath(form, clock[k], queue[k].name)
  {
    success, failed, paths := 0, 0, [];
    var i := 0;
    while i < |queue|
      invariant 0 <= i <= |queue|
      invariant success == StoredCount(replies[..i]) && success + failed == i
      invariant |paths| == i && forall k :: 0 <= k < i ==> paths[k] == StoragePath(form, clock[k], queue[k].name)
    {
      paths := paths + [StoragePath(form, clock[i], queue[i].name)];
      StoredCountStep(replies, i);
      if replies[i] == Stored {
        success := success + 1;
      } else {
        failed := failed + 1;
      }
      i := i + 1;
    }
    assert replies[..i] == replies;
  }

  class PaperUpload {
    var files: seq<File>
    var form: PaperForm
    var uploading: bool

    /** Only PDFs are ever queued, and outside `handleUpload` no upload is running. */
    ghost predicate Valid()
      reads this
    {
      !uploading && forall i :: 0 <= i < |files| ==> IsPdf(files[i])
    }

    constructor (year: int)
      ensures Valid() && files == [] && !uploading
      ensures form == PaperForm("", "", "", "", year)
    {
      files := [];
      form := PaperForm("", "", "", "", year);
      uploading := false;
    }

    /** `handleDrop`: the dropped PDFs are queued after the files already there. */
    method Drop(dropped: seq<File>)
      requires Valid()
      modifies this`files
      ensures Valid() && files == old(files) + PdfsOf(dropped)
    {
      files := files + PdfsOf(dropped);
    }

    /** `handleFileSelect`: the same, when the input has a file list at all. */
    method Select(selected: Option<seq<File>>)
      requires Valid()
      modifies this`files
      ensures Valid()
      ensures files == if selected.Some? then old(files) + PdfsOf(selected.value) else old(files)
    {
      if selected.Some? {
        files := files + PdfsOf(selected.value);
      }
    }

    method RemoveFile(index: int)
      requires Valid()
      modifies this`files
      ensures Valid() && files == RemoveAt(old(files), index)
    {
      files := RemoveAt(files, index);
    }

    /** `handleUpload`. The backend's answer for each file, and the clock reading when its
        path is made, are parameters. A refused form changes nothing; otherwise each file
        is counted once, as a success or a failure, and the queue is emptied. */
    method Upload(replies: seq<FileReply>, clock: seq<int>)
      returns (refused: bool, success: nat, failed: nat, paths: seq<string>, message: string)
      requires Valid() && |replies| == |files| && |clock| == |files|
      modifies this`files, this`uploading
      ensures Valid() && !uploading
      ensures refused <==> !UploadAllowed(form, old(files))
      ensures refused ==> files == old(files) && success == 0 && failed == 0 && paths == [] && message == ""
      ensures !refused ==> (files == [] && success == StoredCount(replies) && success + failed == |old(files)|
        && |paths| == |old(files)|
        && (forall i :: 0 <= i < |paths| ==> paths[i] == StoragePath(form, clock[i], old(files)[i].name))
        && message == UploadMessage(success, failed))
    {
      if !UploadAllowed(form, files) {
        return true, 0, 0, [], "";
      }
      refused := false;
      uploading := true;
      success, failed, paths := UploadEach(form, files, replies, clock);
      uploading := false;
      files := [];
      message := UploadMessage(success, failed);
    }
  }
}
