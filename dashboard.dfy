/** frontend/src/pages/Dashboard.jsx: the page that collects a syllabus, question types, a
    difficulty and a title from its child components, posts them as multipart form data to
    `/api/pdf/upload-or-generate`, shows the questions it gets back, and opens the export
    dialog.

    The page's state variables are the fields of `Dashboard`; the toasts are recorded as a
    list. The POST (with `response.json()`) is the function parameter `post`, which yields the
    route's JSON answer or `None` when the request or the body parse throws. */
module Dashboard {
  import opened Basics
  import opened Strings
  import opened Json
  import Difficulty
  import Upload
  import QuestionTypes
  import PdfRoute

  /** A `FormData` entry value: a string or a file. */
  datatype FormValue = FieldText(text: string) | FieldFile(file: Upload.File)

  /** `FormData`: its entries in append order. */
  type FormData = seq<(string, FormValue)>

  /** What the page reads of the profile it fetched: its `_id`, if any. */
  datatype Profile = Profile(id: Option<string>)

  const NoSyllabus: string := "Please upload a syllabus first"
  const SyllabusMissing: string := "Syllabus data is missing!"
  const Generated: string := "✅ Questions generated successfully!"
  const GenerationFailed: string := "Failed to generate questions"
  const ServerError: string := "Server error while generating questions"
  const NoQuestions: string := "No questions to export"

  /** `getDifficultyLabel`. */
  function GetDifficultyLabel(level: int): string {
    if level < 25 then "Easy"
    else if level < 50 then "Moderate"
    else if level < 75 then "Challenging"
    else "Advanced"
  }

  /** The page's label and the selector's label agree on every value. */
  lemma LabelsAgree(level: int)
    ensures GetDifficultyLabel(level) == Difficulty.GetDifficultyInfo(level).text
    ensures GetDifficultyLabel(level) == Difficulty.Label(Difficulty.Band(level))
  {
    Difficulty.InfoIsBand(level);
  }

  /** `String(n)` for an integer. */
  function IntToString(n: int): (r: string)
    ensures r != []
  {
    if n < 0 then "-" + NatToString(-n) else NatToString(n)
  }

  /** `String(user?._id)`: an absent user or id is sent as the text "undefined". */
  function CreatedByText(user: Option<Profile>): string {
    if user.Some? && user.value.id.Some? then user.value.id.value else "undefined"
  }

  /** JavaScript truthiness of the delivered syllabus content. */
  predicate ContentTruthy(c: Upload.Content) {
    match c
    case TextContent(t) => t != ""
    case FileContent(f) => f.Some?
  }

  /** The value `formData.append` stores for the content: the string, the file, or "null". */
  function ContentValue(c: Upload.Content): FormValue {
    match c
    case TextContent(t) => FieldText(t)
    case FileContent(f) => if f.Some? then FieldFile(f.value) else FieldText("null")
  }

  /** The syllabus entry of the request: a document as "pdf", text as "syllabus"; anything
      else (an image, an empty text) gives none. */
  function SyllabusEntry(d: Upload.SyllabusData): Option<(string, FormValue)> {
    if d.kind == "file" && d.content.FileContent? && d.content.file.Some? then Some(("pdf", FieldFile(d.content.file.value)))
    else if d.kind == "text" && ContentTruthy(d.content) then Some(("syllabus", ContentValue(d.content)))
    else None
  }

  /** The form `generateQuestions` sends, or `None` when it sends nothing. */
  function Request(syllabus: Option<Upload.SyllabusData>, difficultyLevel: int, types: seq<string>,
                   user: Option<Profile>, title: string): Option<FormData>
  {
    if syllabus.None? then None
    else match SyllabusEntry(syllabus.value)
      case None => None
      case Some(entry) =>
        Some([entry] + Tail(IntToString(difficultyLevel), Join(types, ","), CreatedByText(user), title))
  }

  /** The toast `generateQuestions` ends with. */
  function GenerationToast(syllabus: Option<Upload.SyllabusData>, sent: Option<FormData>,
                           post: FormData -> Option<PdfRoute.Reply>): Toast
  {
    if syllabus.None? then ErrorToast(NoSyllabus)
    else if sent.None? then ErrorToast(SyllabusMissing)
    else match post(sent.value)
      case None => ErrorToast(ServerError)
      case Some(Success(_, _)) => SuccessToast(Generated)
      case Some(Failure(_, e)) => ErrorToast(if e != "" then e else GenerationFailed)
  }

  // ----- The request as the route reads it -----

  /** The first text entry under `name`, as multer puts it in `req.body`. */
  function TextField(form: FormData, name: string): Option<string> {
    if form == [] then None
    else if form[0].0 == name && form[0].1.FieldText? then Some(form[0].1.text)
    else TextField(form[1..], name)
  }

  /** Whether a file entry named "pdf" is there for `upload.single("pdf")`. */
  predicate HasPdf(form: FormData) {
    exists i :: 0 <= i < |form| && form[i].0 == "pdf" && form[i].1.FieldFile?
  }

  /** The `req.body` the route sees. */
  function RouteBody(form: FormData): PdfRoute.RequestBody {
    PdfRoute.RequestBody(TextField(form, "syllabus"), TextField(form, "difficulty"), TextField(form, "questionType"),
                         TextField(form, "title"), TextField(form, "createdBy"))
  }

  /** Joining a non-empty list whose first part is non-empty gives a non-empty string. */
  lemma JoinNonEmpty(parts: seq<string>, sep: string)
    requires parts != [] && parts[0] != ""
    ensures Join(parts, sep) != ""
  {
  }

  /** With no syllabus, or with one that is neither a document nor non-empty text, nothing is
      sent; otherwise the form holds exactly the syllabus entry, the difficulty, the joined
      question types, the creator and the title, in that order. */
  lemma RequestShape(syllabus: Option<Upload.SyllabusData>, difficultyLevel: int, types: seq<string>,
                     user: Option<Profile>, title: string)
    ensures var r := Request(syllabus, difficultyLevel, types, user, title);
            && (r.Some? <==> syllabus.Some? && SyllabusEntry(syllabus.value).Some?)
            && (r.Some? ==> |r.value| == 5 && r.value[0] == SyllabusEntry(syllabus.value).value
                            && r.value[1..] == [("difficulty", FieldText(IntToString(difficultyLevel))),
                                                ("questionType", FieldText(Join(types, ","))),
                                                ("createdBy", FieldText(CreatedByText(user))), ("title", FieldText(title))])
    ensures syllabus.Some? ==>
              (SyllabusEntry(syllabus.value).Some? <==>
                 (syllabus.value.kind == "file" && syllabus.value.content.FileContent? && syllabus.value.content.file.Some?)
                 || (syllabus.value.kind == "text" && ContentTruthy(syllabus.value.content)))
  {
    var r := Request(syllabus, difficultyLevel, types, user, title);
    if r.Some? {
      assert r.value[1..] == Tail(IntToString(difficultyLevel), Join(types, ","), CreatedByText(user), title);
    }
  }

  /** The four entries `generateQuestions` appends after the syllabus entry. */
  function Tail(difficulty: string, questionType: string, createdBy: string, title: string): (t: FormData)
    ensures |t| == 4 && forall i :: 0 <= i < 4 ==> t[i].1.FieldText?
  {
    [("difficulty", FieldText(difficulty)), ("questionType", FieldText(questionType)),
     ("createdBy", FieldText(createdBy)), ("title", FieldText(title))]
  }

  /** A lookup skips an entry under another name. */
  lemma TextFieldSkip(form: FormData, name: string)
    requires form != [] && form[0].0 != name
    ensures TextField(form, name) == TextField(form[1..], name)
  {
  }

  /** The text fields of the four trailing entries. */
  lemma TailFields(a: string, b: string, c: string, e: string)
    ensures var t := Tail(a, b, c, e);
            && TextField(t, "difficulty") == Some(a) && TextField(t, "questionType") == Some(b)
            && TextField(t, "createdBy") == Some(c) && TextField(t, "title") == Some(e)
            && TextField(t, "syllabus") == None
  {
    var t := Tail(a, b, c, e);
    assert |"syllabus"| == 8 && |"difficulty"| == 10 && |"questionType"| == 12 && |"createdBy"| == 9 && |"title"| == 5;
    var t1, t2, t3 := t[1..], t[2..], t[3..];
    assert t1[1..] == t2 && t2[1..] == t3 && t3[1..] == [];
    TextFieldSkip(t, "questionType");
    TextFieldSkip(t, "createdBy");
    TextFieldSkip(t1, "createdBy");
    TextFieldSkip(t, "title");
    TextFieldSkip(t1, "title");
    TextFieldSkip(t2, "title");
    TextFieldSkip(t, "syllabus");
    TextFieldSkip(t1, "syllabus");
    TextFieldSkip(t2, "syllabus");
    TextFieldSkip(t3, "syllabus");
  }

  /** The text fields of a whole request: the syllabus entry shadows none of the others. */
  lemma FormFields(entry: (string, FormValue), a: string, b: string, c: string, e: string)
    requires entry.0 == "pdf" || entry.0 == "syllabus"
    ensures var form := [entry] + Tail(a, b, c, e);
            && TextField(form, "difficulty") == Some(a) && TextField(form, "questionType") == Some(b)
            && TextField(form, "createdBy") == Some(c) && TextField(form, "title") == Some(e)
            && TextField(form, "syllabus") == (if entry.0 == "syllabus" && entry.1.FieldText? then Some(entry.1.text) else None)
            && (HasPdf(form) <==> entry.0 == "pdf" && entry.1.FieldFile?)
  {
    var form := [entry] + Tail(a, b, c, e);
    assert form[1..] == Tail(a, b, c, e);
    assert |"pdf"| == 3 && |"syllabus"| == 8 && |"difficulty"| == 10 && |"questionType"| == 12 && |"createdBy"| == 9 && |"title"| == 5;
    TailFields(a, b, c, e);
    TextFieldSkip(form, "difficulty");
    TextFieldSkip(form, "questionType");
    TextFieldSkip(form, "createdBy");
    TextFieldSkip(form, "title");
    if entry.0 == "pdf" {
      TextFieldSkip(form, "syllabus");
    }
    if HasPdf(form) {
      var i :| 0 <= i < |form| && form[i].0 == "pdf" && form[i].1.FieldFile?;
      assert i == 0;
    }
  }

  /** A request the page sends reaches the route with a PDF exactly when the syllabus is a
      document, with the syllabus text otherwise, and always with a difficulty that reads
      back as the level and a non-empty question-type list (the selection is never empty),
      so the route's "All fields are required." check never fires on a text request. */
  lemma RouteSeesRequest(d: Upload.SyllabusData, difficultyLevel: nat, types: seq<string>,
                         user: Option<Profile>, title: string)
    requires Request(Some(d), difficultyLevel, types, user, title).Some?
    requires QuestionTypes.SelectionValid(types)
    ensures var form := Request(Some(d), difficultyLevel, types, user, title).value;
            var body := RouteBody(form);
            && (HasPdf(form) <==> d.kind == "file")
            && body.difficulty == Some(NatToString(difficultyLevel))
            && Difficulty.ParseInt(body.difficulty.value) == Some(difficultyLevel)
            && body.questionType == Some(Join(types, ","))
            && PdfRoute.Given(body.difficulty) && PdfRoute.Given(body.questionType)
            && (d.kind == "text" && d.content.TextContent? ==> body.syllabus == Some(d.content.text) && PdfRoute.Given(body.syllabus))
  {
    var entry := SyllabusEntry(d).value;
    var form := Request(Some(d), difficultyLevel, types, user, title).value;
    assert form == [entry] + Tail(NatToString(difficultyLevel), Join(types, ","), CreatedByText(user), title);
    FormFields(entry, NatToString(difficultyLevel), Join(types, ","), CreatedByText(user), title);
    assert types[0] != "" by {
      assert types[0] in QuestionTypes.Ids(QuestionTypes.Catalogue);
      QuestionTypes.CatalogueIds();
    }
    JoinNonEmpty(types, ",");
    Difficulty.ParseIntRoundTrip(difficultyLevel);
  }

  /** An image syllabus is never sent: it falls through to "Syllabus data is missing!". */
  lemma ImageNeverSent(d: Upload.SyllabusData, post: FormData -> Option<PdfRoute.Reply>, difficultyLevel: int,
                       types: seq<string>, user: Option<Profile>, title: string)
    requires d.kind == "image"
    ensures Request(Some(d), difficultyLevel, types, user, title).None?
    ensures GenerationToast(Some(d), None, post) == ErrorToast(SyllabusMissing)
  {
  }

  /** What the upload form delivers is sent: text as typed under "syllabus", a document's file
      under "pdf". */
  lemma DeliveredSyllabusSent(uploadMethod: string, syllabusText: string, uploadedFile: Option<Upload.File>, timestamp: string)
    requires uploadMethod == "text" || uploadMethod == "file"
    requires Upload.SubmitError(uploadMethod, syllabusText, uploadedFile).None?
    ensures var d := Upload.Payload(uploadMethod, syllabusText, uploadedFile, timestamp);
            SyllabusEntry(d) == if uploadMethod == "text" then Some(("syllabus", FieldText(syllabusText)))
                                else Some(("pdf", FieldFile(uploadedFile.value)))
  {
    Upload.PayloadContent(uploadMethod, syllabusText, uploadedFile, timestamp);
  }

  class Dashboard {
    var user: Option<Profile>
    var syllabus: Option<Upload.SyllabusData>
    var selectedQuestionTypes: seq<string>
    var difficultyLevel: int
    var questions: seq<Value>
    var isGenerating: bool
    var showExportOptions: bool
    var title: string
    var toasts: seq<Toast>

    constructor ()
      ensures user.None? && syllabus.None? && selectedQuestionTypes == ["mcq"] && difficultyLevel == 50
      ensures questions == [] && !isGenerating && !showExportOptions && title == "" && toasts == []
    {
      user, syllabus, selectedQuestionTypes, difficultyLevel := None, None, ["mcq"], 50;
      questions, isGenerating, showExportOptions, title, toasts := [], false, false, "", [];
    }

    /** `setUser(data)` once the profile has been fetched. */
    method SetUser(profile: Profile)
      modifies this
      ensures user == Some(profile)
      ensures syllabus == old(syllabus) && selectedQuestionTypes == old(selectedQuestionTypes) && difficultyLevel == old(difficultyLevel)
      ensures questions == old(questions) && isGenerating == old(isGenerating) && showExportOptions == old(showExportOptions)
      ensures title == old(title) && toasts == old(toasts)
    {
      user := Some(profile);
    }

    /** `handleSyllabusUploaded`. */
    method HandleSyllabusUploaded(data: Upload.SyllabusData)
      modifies this
      ensures syllabus == Some(data) && toasts == old(toasts) + [SuccessToast(Upload.Uploaded)]
      ensures user == old(user) && selectedQuestionTypes == old(selectedQuestionTypes) && difficultyLevel == old(difficultyLevel)
      ensures questions == old(questions) && isGenerating == old(isGenerating) && showExportOptions == old(showExportOptions)
      ensures title == old(title)
    {
      syllabus := Some(data);
      toasts := toasts + [SuccessToast(Upload.Uploaded)];
    }

    /** `handleQuestionTypeChange`. */
    method HandleQuestionTypeChange(types: seq<string>)
      modifies this
      ensures selectedQuestionTypes == types
      ensures user == old(user) && syllabus == old(syllabus) && difficultyLevel == old(difficultyLevel)
      ensures questions == old(questions) && isGenerating == old(isGenerating) && showExportOptions == old(showExportOptions)
      ensures title == old(title) && toasts == old(toasts)
    {
      selectedQuestionTypes := types;
    }

    /** `handleDifficultyChange`. */
    method HandleDifficultyChange(level: int)
      modifies this
      ensures difficultyLevel == level
      ensures user == old(user) && syllabus == old(syllabus) && selectedQuestionTypes == old(selectedQuestionTypes)
      ensures questions == old(questions) && isGenerating == old(isGenerating) && showExportOptions == old(showExportOptions)
      ensures title == old(title) && toasts == old(toasts)
    {
      difficultyLevel := level;
    }

    /** The title input's `setTitle`. */
    method SetTitle(t: string)
      modifies this
      ensures title == t
      ensures user == old(user) && syllabus == old(syllabus) && selectedQuestionTypes == old(selectedQuestionTypes)
      ensures difficultyLevel == old(difficultyLevel) && questions == old(questions) && isGenerating == old(isGenerating)
      ensures showExportOptions == old(showExportOptions) && toasts == old(toasts)
    {
      title := t;
    }

    /** `generateQuestions`: builds the form entry by entry, posts it, and on a 200 answer takes
        its questions; it returns the form it sent, if any. `isGenerating` is untouched when
        there is no syllabus and false once it finishes otherwise. */
    method GenerateQuestions(post: FormData -> Option<PdfRoute.Reply>) returns (sent: Option<FormData>)
      modifies this
      ensures sent == Request(old(syllabus), old(difficultyLevel), old(selectedQuestionTypes), old(user), old(title))
      ensures toasts == old(toasts) + [GenerationToast(old(syllabus), sent, post)]
      ensures questions == if sent.Some? && post(sent.value).Some? && post(sent.value).value.Success?
                           then post(sent.value).value.questions else old(questions)
      ensures isGenerating == if old(syllabus).None? then old(isGenerating) else false
      ensures user == old(user) && syllabus == old(syllabus) && selectedQuestionTypes == old(selectedQuestionTypes)
      ensures difficultyLevel == old(difficultyLevel) && showExportOptions == old(showExportOptions) && title == old(title)
    {
      if syllabus.None? {
        toasts := toasts + [ErrorToast(NoSyllabus)];
        return None;
      }
      isGenerating := true;
      var formData: FormData := [];
      var data := syllabus.value;
      if data.kind == "file" && data.content.FileContent? && data.content.file.Some? {
        formData := formData + [("pdf", FieldFile(data.content.file.value))];
      } else if data.kind == "text" && ContentTruthy(data.content) {
        formData := formData + [("syllabus", ContentValue(data.content))];
      } else {
        toasts := toasts + [ErrorToast(SyllabusMissing)];
        isGenerating := false;
        return None;
      }
      formData := formData + [("difficulty", FieldText(IntToString(difficultyLevel)))];
      formData := formData + [("questionType", FieldText(Join(selectedQuestionTypes, ",")))];
      formData := formData + [("createdBy", FieldText(CreatedByText(user)))];
      formData := formData + [("title", FieldText(title))];
      assert formData == [SyllabusEntry(data).value] + Tail(IntToString(difficultyLevel), Join(selectedQuestionTypes, ","), CreatedByText(user), title);
      sent := Some(formData);
      var response := post(formData);
      match response {
        case None =>
          toasts := toasts + [ErrorToast(ServerError)];
        case Some(reply) =>
          if reply.Success? {
            questions := reply.questions;
            toasts := toasts + [SuccessToast(Generated)];
          } else {
            toasts := toasts + [ErrorToast(if reply.error != "" then reply.error else GenerationFailed)];
          }
      }
      isGenerating := false;
    }

    /** `handleExport`: refused with a toast while there are no questions, otherwise the
        export dialog opens. */
    method HandleExport()
      modifies this
      ensures |questions| == 0 ==> toasts == old(toasts) + [ErrorToast(NoQuestions)] && showExportOptions == old(showExportOptions)
      ensures |questions| != 0 ==> toasts == old(toasts) && showExportOptions
      ensures user == old(user) && syllabus == old(syllabus) && selectedQuestionTypes == old(selectedQuestionTypes)
      ensures difficultyLevel == old(difficultyLevel) && questions == old(questions) && isGenerating == old(isGenerating)
      ensures title == old(title)
    {
      if |questions| == 0 {
        toasts := toasts + [ErrorToast(NoQuestions)];
        return;
      }
      showExportOptions := true;
    }

    /** `closeExportModal`. */
    method CloseExportModal()
      modifies this
      ensures !showExportOptions
      ensures user == old(user) && syllabus == old(syllabus) && selectedQuestionTypes == old(selectedQuestionTypes)
      ensures difficultyLevel == old(difficultyLevel) && questions == old(questions) && isGenerating == old(isGenerating)
      ensures title == old(title) && toasts == old(toasts)
    {
      showExportOptions := false;
    }
  }
}
