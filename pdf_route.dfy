/** The `/upload-or-generate` handler of backend/routes/pdf.route.js: it takes the
    syllabus from an uploaded PDF (its extracted text, trimmed) or from the request body,
    checks the three required fields, asks the generator for questions, stores the paper,
    and answers 200 with the generated questions. An empty extraction and a missing field
    answer 400; anything that throws (pdf-parse, either save) answers 500.

    pdf-parse, the generator and the database are inputs: the upload carries the text
    pdf-parse extracts (or `None` when it rejects the file), the generator is a function
    parameter, and two booleans say whether the database accepts the PDF document and the
    paper document once their schemas have validated them. */
module PdfRoute {
  import opened Basics
  import opened Strings
  import opened Json
  import opened PaperModel
  import GeminiApi

  /** The file multer hands over: its original name and the text pdf-parse extracts from it. */
  datatype PdfUpload = PdfUpload(originalName: string, extracted: Option<string>)

  /** The multipart text fields the handler reads; `None` is an absent field. */
  datatype RequestBody = RequestBody(syllabus: Option<string>, difficulty: Option<string>, questionType: Option<string>,
                                     title: Option<string>, createdBy: Option<string>)

  /** The JSON answer: an error with its status, or the 200 success body. */
  datatype Reply = Failure(status: int, error: string) | Success(message: string, questions: seq<Value>)

  /** What one request does: the answer, and which documents were stored and whether the
      generator ran. */
  datatype Outcome = Outcome(reply: Reply, pdfSaved: bool, generatorCalled: bool, paperSaved: bool)

  const ExtractionFailed: string := "Failed to extract text from PDF"
  const FieldsRequired: string := "All fields are required."
  const InternalError: string := "Internal Server Error"
  const PdfMessage: string := "✅ PDF Processed & Questions Generated"
  const TextMessage: string := "✅ Text Processed & Questions Generated"

  /** A text field is truthy: present and not empty. */
  predicate Given(field: Option<string>) {
    field.Some? && field.value != ""
  }

  /** The syllabus the handler settles on: the trimmed extraction with a file (`None` when
      pdf-parse rejects it), else `req.body.syllabus || ""`. */
  function SyllabusText(file: Option<PdfUpload>, body: RequestBody): (s: Option<string>)
    ensures file.Some? ==> s == (if file.value.extracted.Some? then Some(Trim(file.value.extracted.value)) else None)
    ensures file.None? ==> s == Some(if body.syllabus.Some? then body.syllabus.value else "")
    ensures file.Some? && s.Some? ==> Trimmed(s.value) && (s.value == "" <==> AllWhitespace(file.value.extracted.value))
    ensures file.None? ==> s.Some? && (s.value != "" <==> Given(body.syllabus))
  {
    match file
    case Some(f) => if f.extracted.Some? then Some(Trim(f.extracted.value)) else None
    case None => Some(if Given(body.syllabus) then body.syllabus.value else "")
  }

  /** The PDF document passes its schema (`createdBy` is required) and the database takes it. */
  predicate PdfStored(body: RequestBody, pdfStoreAccepts: bool) {
    Given(body.createdBy) && pdfStoreAccepts
  }

  /** The decision the handler makes, as a function of its inputs. */
  function Decide(file: Option<PdfUpload>, body: RequestBody, generate: (string, string, string) -> seq<Value>,
                  pdfStoreAccepts: bool, paperStoreAccepts: bool): Outcome
  {
    match SyllabusText(file, body)
    case None => Outcome(Failure(500, InternalError), false, false, false)
    case Some(syllabus) =>
      if file.Some? && syllabus == "" then Outcome(Failure(400, ExtractionFailed), false, false, false)
      else if file.Some? && !PdfStored(body, pdfStoreAccepts) then Outcome(Failure(500, InternalError), false, false, false)
      else
        var pdfSaved := file.Some?;
        if syllabus == "" || !Given(body.difficulty) || !Given(body.questionType) then
          Outcome(Failure(400, FieldsRequired), pdfSaved, false, false)
        else
          var questions := generate(syllabus, body.difficulty.value, body.questionType.value);
          if !PaperValid(Paper(body.title, body.createdBy, questions)) || !paperStoreAccepts then
            Outcome(Failure(500, InternalError), pdfSaved, true, false)
          else
            Outcome(Success(if file.Some? then PdfMessage else TextMessage, questions), pdfSaved, true, true)
  }

  /** The handler, step by step, with the local `syllabusText` it reassigns. */
  method UploadOrGenerate(file: Option<PdfUpload>, body: RequestBody, generate: (string, string, string) -> seq<Value>,
                          pdfStoreAccepts: bool, paperStoreAccepts: bool)
    returns (reply: Reply, pdfSaved: bool, generatorCalled: bool, paperSaved: bool)
    ensures Outcome(reply, pdfSaved, generatorCalled, paperSaved) == Decide(file, body, generate, pdfStoreAccepts, paperStoreAccepts)
  {
    pdfSaved, generatorCalled, paperSaved := false, false, false;
    var syllabusText := "";
    if file.Some? {
      if file.value.extracted.None? {
        reply := Failure(500, InternalError);
        return;
      }
      syllabusText := Trim(file.value.extracted.value);
      if syllabusText == "" {
        reply := Failure(400, ExtractionFailed);
        return;
      }
      if !PdfStored(body, pdfStoreAccepts) {
        reply := Failure(500, InternalError);
        return;
      }
      pdfSaved := true;
    } else {
      syllabusText := if Given(body.syllabus) then body.syllabus.value else "";
    }
    if syllabusText == "" || !Given(body.difficulty) || !Given(body.questionType) {
      reply := Failure(400, FieldsRequired);
      return;
    }
    var generatedQuestions := generate(syllabusText, body.difficulty.value, body.questionType.value);
    generatorCalled := true;
    var paper := Paper(body.title, body.createdBy, generatedQuestions);
    if !PaperValid(paper) || !paperStoreAccepts {
      reply := Failure(500, InternalError);
      return;
    }
    paperSaved := true;
    reply := Success(if file.Some? then PdfMessage else TextMessage, generatedQuestions);
  }

  /** The status of an answer. */
  function Status(r: Reply): int {
    if r.Success? then 200 else r.status
  }

  // ----- Properties of the decision -----

  /** Every answer is 200, 400 or 500; a document is saved only on the way to it. */
  lemma StatusesAndSaves(file: Option<PdfUpload>, body: RequestBody, generate: (string, string, string) -> seq<Value>,
                         pdfStoreAccepts: bool, paperStoreAccepts: bool)
    ensures var o := Decide(file, body, generate, pdfStoreAccepts, paperStoreAccepts);
            && Status(o.reply) in {200, 400, 500}
            && (o.paperSaved <==> o.reply.Success?)
            && (o.pdfSaved ==> file.Some?)
            && (o.reply.Success? ==> o.generatorCalled && (file.Some? ==> o.pdfSaved))
  {
  }

  /** With a file whose extracted text is blank the answer is 400 "Failed to extract text
      from PDF", and nothing is stored or generated. */
  lemma BlankExtraction(name: string, text: string, body: RequestBody, generate: (string, string, string) -> seq<Value>,
                        pdfStoreAccepts: bool, paperStoreAccepts: bool)
    requires AllWhitespace(text)
    ensures Decide(Some(PdfUpload(name, Some(text))), body, generate, pdfStoreAccepts, paperStoreAccepts)
            == Outcome(Failure(400, ExtractionFailed), false, false, false)
  {
  }

  /** With a file, the syllabus comes from the file alone: the body does not matter. */
  lemma SyllabusFromFileAlone(upload: PdfUpload, body: RequestBody, other: RequestBody)
    ensures SyllabusText(Some(upload), body) == SyllabusText(Some(upload), other)
  {
  }

  /** With a file, `body.syllabus` plays no part. */
  lemma FileIgnoresBodySyllabus(upload: PdfUpload, body: RequestBody, other: Option<string>,
                                generate: (string, string, string) -> seq<Value>, pdfStoreAccepts: bool, paperStoreAccepts: bool)
    ensures Decide(Some(upload), body.(syllabus := other), generate, pdfStoreAccepts, paperStoreAccepts)
            == Decide(Some(upload), body, generate, pdfStoreAccepts, paperStoreAccepts)
  {
  }

  /** When the generator runs it receives the selected syllabus verbatim together with
      the difficulty and question types of the body. */
  lemma GeneratorArguments(file: Option<PdfUpload>, body: RequestBody, generate: (string, string, string) -> seq<Value>,
                           pdfStoreAccepts: bool, paperStoreAccepts: bool)
    ensures var o := Decide(file, body, generate, pdfStoreAccepts, paperStoreAccepts);
            o.generatorCalled ==>
              && SyllabusText(file, body).Some? && SyllabusText(file, body).value != ""
              && Given(body.difficulty) && Given(body.questionType)
              && (file.None? ==> SyllabusText(file, body).value == body.syllabus.value)
              && (file.Some? ==> SyllabusText(file, body).value == Trim(file.value.extracted.value))
  {
  }

  /** A missing or empty required field answers 400 "All fields are required." and the
      generator is not called, unless the upload failed earlier. */
  lemma MissingFields(file: Option<PdfUpload>, body: RequestBody, generate: (string, string, string) -> seq<Value>,
                      pdfStoreAccepts: bool, paperStoreAccepts: bool)
    requires file.None? || (file.value.extracted.Some? && !AllWhitespace(file.value.extracted.value) && PdfStored(body, pdfStoreAccepts))
    requires (file.None? && !Given(body.syllabus)) || !Given(body.difficulty) || !Given(body.questionType)
    ensures var o := Decide(file, body, generate, pdfStoreAccepts, paperStoreAccepts);
            o.reply == Failure(400, FieldsRequired) && !o.generatorCalled && !o.paperSaved
  {
  }

  /** The answer is 200 exactly when the upload step passed, the fields are there, and the
      paper built from the generator's output validates and is stored; then it carries
      exactly that output, and its message depends only on whether a file was sent. */
  lemma SuccessCarriesGenerated(file: Option<PdfUpload>, body: RequestBody, generate: (string, string, string) -> seq<Value>,
                                pdfStoreAccepts: bool, paperStoreAccepts: bool)
    ensures var o := Decide(file, body, generate, pdfStoreAccepts, paperStoreAccepts);
            var s := SyllabusText(file, body);
            o.reply.Success? <==>
              && s.Some? && s.value != "" && (file.Some? ==> PdfStored(body, pdfStoreAccepts))
              && Given(body.difficulty) && Given(body.questionType)
              && PaperValid(Paper(body.title, body.createdBy, generate(s.value, body.difficulty.value, body.questionType.value)))
              && paperStoreAccepts
    ensures var o := Decide(file, body, generate, pdfStoreAccepts, paperStoreAccepts);
            o.reply.Success? ==>
              var s := SyllabusText(file, body).value;
              && o.reply.questions == generate(s, body.difficulty.value, body.questionType.value)
              && o.reply.message == (if file.Some? then PdfMessage else TextMessage)
  {
  }

  /** The paper schema refuses an empty question list, so a generator that gives up with
      `[]` turns every request that reaches it into a 500. */
  lemma EmptyGenerationFails(file: Option<PdfUpload>, body: RequestBody, generate: (string, string, string) -> seq<Value>,
                             pdfStoreAccepts: bool, paperStoreAccepts: bool)
    requires forall s, d, t :: generate(s, d, t) == []
    ensures var o := Decide(file, body, generate, pdfStoreAccepts, paperStoreAccepts);
            o.generatorCalled ==> o.reply == Failure(500, InternalError)
  {
  }

  /** In particular, without an API key `generateQuestionPaper` yields `[]` and the route
      never answers 200. */
  lemma MissingKeyNeverSucceeds(file: Option<PdfUpload>, body: RequestBody,
                                exchange: (string, string) -> Option<GeminiApi.HttpResponse>, parse: string -> ParseResult,
                                pdfStoreAccepts: bool, paperStoreAccepts: bool)
    ensures var generate := (s, d, t) => GeminiApi.Generated(None, s, d, t, exchange, parse);
            !Decide(file, body, generate, pdfStoreAccepts, paperStoreAccepts).reply.Success?
  {
    var generate := (s, d, t) => GeminiApi.Generated(None, s, d, t, exchange, parse);
    forall s, d, t ensures generate(s, d, t) == [] {
      GeminiApi.MissingKeyGivesEmpty(None, s, d, t, exchange, parse);
    }
    EmptyGenerationFails(file, body, generate, pdfStoreAccepts, paperStoreAccepts);
  }
}
