# Syllabus Simply: a Dafny model of the question-paper generator

Syllabus Simply turns a course syllabus into a question paper. On the web page, the user:

- pastes the syllabus text or picks a document;
- chooses question types (multiple choice, short answer, long answer, fill in the blanks);
- sets a difficulty from 0 to 100 and gives the paper a title.

The page posts all of this as multipart form data to the server's `/upload-or-generate` route. The route:

- extracts the text of an uploaded PDF (and stores the PDF);
- asks the Gemini model for questions;
- stores the resulting paper;
- answers with the questions, which the page then lists, filters and exports.

This project models that core and proves properties of the model:

- **The two Mongoose schemas.** `PaperModel` covers a question paper and its question subdocuments: the `type` enum, the type-dependent `options` and `answer` validators, and the true/false options default. `UserModel` covers a user: the `trim`/`lowercase` setters, the e-mail regular expression and the password `minlength`.
- **The generator service** (`GeminiApi`): the request URL, the prompt, the stripping of code fences, and how every failure collapses to `[]`.
- **The route handler** (`PdfRoute`): the request as one decision function, plus a step-by-step method proved equal to it.
- **The React components**, as classes whose fields are the component state and whose methods are the handlers:
  - the difficulty slider (`Difficulty`);
  - the question-type picker (`QuestionTypes`);
  - the upload form (`Upload`);
  - the dashboard page that builds and posts the request (`Dashboard`);
  - the two copies of the results list: `FrontendResults` models `frontend/src/components/ResultsSection.jsx` and `SrcResults` models `src/components/ResultsSection.jsx`.

Three helper modules hold the shared semantics:

- `Strings`: JavaScript `trim` and ASCII `toLowerCase`, `includes` and `join`.
- `Lists`: `filter`, toggling membership, absence of duplicates.
- `Json`: parsed JSON values and property lookup where the last duplicate wins.

`Basics` holds `Option` and the toast record.

Everything the code cannot compute by itself is passed in as a parameter:

- the HTTP exchanges (the Gemini call and the page's POST);
- `JSON.parse`;
- the text pdf-parse extracts;
- whether the database accepts a save;
- the submission timestamp.

Three behaviours of the code worth knowing:

- **An invalid question is not dropped.** Mongoose validates every subdocument, so a single invalid question invalidates the whole paper, and the route answers 500 (`PaperModel.PaperValidity`, `PdfRoute.SuccessCarriesGenerated`). A `null` entry is the exception: the document array keeps it uncast and skips it when validating, so it never invalidates a paper (`PaperModel.NullEntriesSkipped`).
- **The true/false default is rejected.** The default options `["true", "false"]` do not pass the true/false options rule, which wants `"True"` and `"False"`. So a true/false question without options never validates (`PaperModel.TrueFalseDefaultRejected`).
- **There is no image upload.** The upload form's image button is commented out, so only text and document syllabi are delivered (`Upload.UploadSection.Valid`). The page sends a document as `pdf` and non-empty text as `syllabus`; it would answer an image syllabus with "Syllabus data is missing!" (`Dashboard.ImageNeverSent`).

## Model

| member | source | states |
|---|---|---|
| PaperModel.DefaultOptions | backend/models/Paper.model.js:25-27 | options are defaulted exactly when the type is truefalse |
| PaperModel.CastString | backend/models/Paper.model.js:4-13 | a string value is kept as is; the value is missing exactly when it is absent or null; an array never casts; an object casts only to its non-empty string `_id` |
| PaperModel.CastOptions | backend/models/Paper.model.js:14-28 | absent options take the default for the type; null options stay null |
| PaperModel.CastQuestion | backend/models/Paper.model.js:3-41 | only an object casts to a subdocument; absent options are filled with the type's default |
| PaperModel.ValidQuestionBasics | backend/models/Paper.model.js:4-31 | a valid question has one of the six enum types, a non-empty question text and an answer |
| PaperModel.McqOptions | backend/models/Paper.model.js:18 | mcq options pass iff there are at least two |
| PaperModel.TrueFalseOptions | backend/models/Paper.model.js:19 | truefalse options pass iff they are exactly "True" and "False", in either order |
| PaperModel.MatchingAndOtherOptions | backend/models/Paper.model.js:20-21 | matching options pass iff their count is even (zero included); other types accept any array |
| PaperModel.TrueFalseAnswer | backend/models/Paper.model.js:34 | a truefalse answer passes iff it is the string "True" or "False" |
| PaperModel.MatchingAnswer | backend/models/Paper.model.js:35 | a matching answer must be an array whose pairs have a truthy key and value: [] passes, a string fails, and a one-pair array passes iff both strings are non-empty |
| PaperModel.StringAnswers | backend/models/Paper.model.js:36 | for the four other types any string answer passes, even an mcq answer that is not among the options |
| PaperModel.TrueFalseDefaultRejected | backend/models/Paper.model.js:17-27 | a truefalse candidate without options gets the default ["true","false"] and never validates |
| PaperModel.RejectedExamples | backend/models/Paper.model.js:17-37 | a truefalse question answered "Maybe" and an mcq question with a single option are rejected |
| PaperModel.PaperValidity | backend/models/Paper.model.js:43-61 | an empty question list or a single invalid non-null entry makes the paper invalid; a valid paper has a title and a creator |
| PaperModel.NullEntriesSkipped | backend/models/Paper.model.js:43-61 | null is not a question, yet inserting a null entry anywhere keeps a valid paper valid, and a titled, owned paper of one null entry passes |
| PaperModel.CastResultInImage | backend/models/Paper.model.js:25-40 | a cast never leaves a truefalse question with undefined options, and never yields a null answer |
| PaperModel.WireRoundTrip | backend/models/Paper.model.js:3-41 | casting the wire form of a subdocument gives back the subdocument, and the wire form validates iff the subdocument does |
| UserModel.EmailMatchesIff | backend/models/User.model.js:21 | the pattern matches iff some '@' has a character before it and, later on the same line, a '.' with a character between them and a character after it |
| UserModel.EmailMatchNeeds | backend/models/User.model.js:21 | a match needs an '@' that is not the first character, and a '.' |
| UserModel.EmailMatchExtends | backend/models/User.model.js:21 | text added before or after a matching string keeps it matching (the pattern is unanchored) |
| UserModel.EmailMatchesLines | backend/models/User.model.js:21 | around a line terminator, the string matches iff one of the two sides matches |
| UserModel.EmailExamples | backend/models/User.model.js:21 | "ann@mail.com" matches; "@mail.com" and "ann@.com" do not |
| UserModel.NormaliseName | backend/models/User.model.js:8 | the stored name is trimmed and no longer than the input |
| UserModel.NormaliseEmail | backend/models/User.model.js:19-20 | the stored e-mail is trimmed, has no ASCII capital, and equals the lowercased trimmed input |
| UserModel.NormaliseEmailIdempotent | backend/models/User.model.js:19-20 | normalising a normalised e-mail changes nothing |
| UserModel.NormaliseBio | backend/models/User.model.js:10-14 | the stored bio is trimmed, and is "" when the bio is absent |
| UserModel.NameError | backend/models/User.model.js:4-9 | the name fails iff it is absent or blank, and then only as required |
| UserModel.EmailError | backend/models/User.model.js:15-22 | the e-mail fails as required iff absent or blank; it passes iff its normal form matches the pattern |
| UserModel.PasswordError | backend/models/User.model.js:23-27 | the password fails as required iff absent or ""; it passes iff it has at least 6 UTF-16 code units |
| UserModel.ValidateUser | backend/models/User.model.js:3-32 | a user is accepted iff the name is present and not blank, the normalised e-mail matches the pattern and the password has at least 6 code units; the stored user has the trimmed name, the normalised bio and e-mail, and the password as given; a rejection names at least one error |
| UserModel.RejectedErrors | backend/models/User.model.js:3-27 | a rejection reports exactly the first failing validator of each path |
| UserModel.NameRejection | backend/models/User.model.js:4-9 | a rejection reports the name as required iff it is absent or blank |
| UserModel.EmailRejection | backend/models/User.model.js:15-22 | a rejection reports the e-mail as required iff it is absent or blank, and as invalid iff it is present but its normal form does not match |
| UserModel.PasswordRejection | backend/models/User.model.js:23-27 | a rejection reports the password as required iff it is absent or "", and as too short iff it is present but under 6 code units |
| UserModel.ValidateStored | backend/models/User.model.js:3-27 | validating an accepted user's stored values again accepts the same user |
| UserModel.BioStable | backend/models/User.model.js:10-14 | normalising a stored bio again gives the same bio |
| UserModel.NameStable | backend/models/User.model.js:4-9 | a trimmed name that is not blank passes and is stored unchanged |
| UserModel.EmailStable | backend/models/User.model.js:15-22 | a stored e-mail passes again and is stored unchanged |
| UserModel.PasswordLengthBounds | backend/models/User.model.js:26 | six characters always pass the minimum length; one or two characters never do |
| GeminiApi.RequestUrl | backend/services/gemini.api.js:55 | the URL is the endpoint, then "?key=", then the key, and nothing else |
| GeminiApi.Interpolate | backend/services/gemini.api.js:16-43 | the prompt is the template's four fixed pieces with the syllabus, the difficulty and the types put in verbatim between them, in that order, and nothing else |
| GeminiApi.Sanitise | backend/services/gemini.api.js:78 | the cleaned reply holds no triple backtick, is trimmed, and is no longer than the reply |
| GeminiApi.SanitisedHasNoJsonFence | backend/services/gemini.api.js:78 | the cleaned reply holds no "```json" |
| GeminiApi.SanitiseIdempotent | backend/services/gemini.api.js:78 | cleaning a cleaned reply changes nothing |
| GeminiApi.SanitiseWithoutBackticks | backend/services/gemini.api.js:78 | on a reply without backticks, cleaning is just trimming |
| GeminiApi.SanitiseFenced | backend/services/gemini.api.js:78 | a reply wrapped in a json code block comes out as its trimmed contents |
| GeminiApi.Member | backend/services/gemini.api.js:74 | optional chaining finds a property only on a present object |
| GeminiApi.First | backend/services/gemini.api.js:74 | `?.[0]` of an empty array is undefined, and of a non-empty array is its first item |
| GeminiApi.CandidateText | backend/services/gemini.api.js:74 | a completion text is found only when the reply has candidates |
| GeminiApi.ReplyText | backend/services/gemini.api.js:69-74 | a well-formed one-candidate reply has candidates, and its text is found |
| GeminiApi.CompletionText | backend/services/gemini.api.js:11-74 | a completion text comes only from a non-empty key and an ok answer to the request |
| GeminiApi.GenerateQuestionPaper | backend/services/gemini.api.js:9-92 | the step-by-step service returns what the specification function `Generated` gives |
| GeminiApi.MissingKeyGivesEmpty | backend/services/gemini.api.js:11-12 | without a key the result is [] |
| GeminiApi.FailedExchangeGivesEmpty | backend/services/gemini.api.js:61-71 | a failed request, a non-ok status, an unreadable body or a reply without candidates gives [] |
| GeminiApi.GeneratedIsParsedArray | backend/services/gemini.api.js:81-91 | the result is [] or exactly the array parsed from the cleaned completion |
| GeminiApi.SuccessGivesParsedArray | backend/services/gemini.api.js:78-83 | an ok reply whose cleaned text parses to an array gives that array |
| GeminiApi.UnparsableReplyGivesEmpty | backend/services/gemini.api.js:81-87 | an ok reply whose cleaned text does not parse to an array gives [] |
| PdfRoute.SyllabusText | backend/routes/pdf.route.js:23-50 | with a file, the syllabus is trimmed, blank exactly when the extracted text is blank, and none when pdf-parse throws; without a file it is always there and non-empty exactly when the body's syllabus field is given |
| PdfRoute.UploadOrGenerate | backend/routes/pdf.route.js:18-88 | the step-by-step handler gives the answer, saves and generator call of the decision function `Decide` |
| PdfRoute.StatusesAndSaves | backend/routes/pdf.route.js:18-88 | every answer is 200, 400 or 500; the paper is saved iff the answer is 200; a PDF is saved only when a file came; a 200 answer means the generator ran and, with a file, the PDF was stored |
| PdfRoute.BlankExtraction | backend/routes/pdf.route.js:31-35 | a file whose extracted text is blank answers 400 "Failed to extract text from PDF" and saves nothing |
| PdfRoute.SyllabusFromFileAlone | backend/routes/pdf.route.js:26-31 | with a file, the syllabus does not depend on the request body |
| PdfRoute.FileIgnoresBodySyllabus | backend/routes/pdf.route.js:26-50 | with a file, the body's syllabus field plays no part |
| PdfRoute.GeneratorArguments | backend/routes/pdf.route.js:59 | when the generator runs, it gets the selected syllabus, the difficulty and the question types verbatim |
| PdfRoute.MissingFields | backend/routes/pdf.route.js:53-56 | a missing syllabus, difficulty or question type answers 400 "All fields are required." without calling the generator |
| PdfRoute.SuccessCarriesGenerated | backend/routes/pdf.route.js:59-80 | the answer is 200 iff the upload step passed, the fields are there, and the paper built from the generated questions validates and is stored; it then carries those questions and the file or text message |
| PdfRoute.EmptyGenerationFails | backend/routes/pdf.route.js:59-72 | a generator that returns [] never yields 200, because the paper schema refuses an empty list |
| PdfRoute.MissingKeyNeverSucceeds | backend/routes/pdf.route.js:59-72 | with no API key for the service, the route never answers 200 |
| Difficulty.InfoIsBand | frontend/src/components/DifficultySelector.jsx:20-30 | the label and colour are those of the band that the boundaries 25, 50 and 75 put the value in |
| Difficulty.LabelsAndColorsDistinct | frontend/src/components/DifficultySelector.jsx:20-30 | the four bands have four distinct labels and four distinct colours |
| Difficulty.Monotone | frontend/src/components/DifficultySelector.jsx:20-30 | a larger value never shows a lower band |
| Difficulty.BoundariesGoUp | frontend/src/components/DifficultySelector.jsx:20-30 | 25, 50 and 75 each belong to the band above them |
| Difficulty.TooltipAgreement | frontend/src/components/DifficultySelector.jsx:55-67 | on 0..100, the label shown agrees with the tooltip's ranges iff the value is not 25, 50 or 75; at those three values the tooltip names the band below |
| Difficulty.ParseInt | frontend/src/components/DifficultySelector.jsx:10 | parsing fails iff the text does not start with a digit |
| Difficulty.ParseIntRoundTrip | frontend/src/components/DifficultySelector.jsx:9-13 | parsing the decimal text of a number gives the number back |
| Difficulty.DifficultySelector.constructor | frontend/src/components/DifficultySelector.jsx:6-7 | the level starts at 50 and the tooltip starts hidden |
| Difficulty.DifficultySelector.HandleSliderChange | frontend/src/components/DifficultySelector.jsx:9-13 | the slider position becomes the level and is reported to the callback; the level stays in 0..100 |
| Difficulty.DifficultySelector.ToggleTooltip | frontend/src/components/DifficultySelector.jsx:15-17 | the tooltip flag flips and nothing else changes |
| Difficulty.InitialInfo | frontend/src/components/DifficultySelector.jsx:32 | the initial level is shown as Challenging, in yellow |
| QuestionTypes.Ids | frontend/src/components/QuestionTypeSelector.jsx:56 | the ids of the cards, in card order |
| QuestionTypes.CatalogueIds | frontend/src/components/QuestionTypeSelector.jsx:4-31 | the catalogue ids are mcq, shortAnswer, longAnswer and fillblanks, and they are distinct |
| QuestionTypes.ToggleKeepsValid | frontend/src/components/QuestionTypeSelector.jsx:36-53 | toggling a catalogue id keeps the selection non-empty, free of duplicates and inside the catalogue |
| QuestionTypes.ToggleEffect | frontend/src/components/QuestionTypeSelector.jsx:36-53 | a selected id that is not the only one is removed and the others stay, in their order; the only selected id stays; an unselected id is appended |
| QuestionTypes.ToggleChanges | frontend/src/components/QuestionTypeSelector.jsx:36-53 | the selection changes iff the id is absent or is not the only one selected |
| QuestionTypes.QuestionTypeSelector.constructor | frontend/src/components/QuestionTypeSelector.jsx:34 | the selection starts as ["mcq"] |
| QuestionTypes.QuestionTypeSelector.ToggleSelection | frontend/src/components/QuestionTypeSelector.jsx:36-53 | the selection becomes the toggled selection and stays valid; the callback hears it iff it changed |
| QuestionTypes.QuestionTypeSelector.SelectAll | frontend/src/components/QuestionTypeSelector.jsx:55-59 | every catalogue id is selected, in card order, and the callback hears it |
| QuestionTypes.QuestionTypeSelector.ClearAll | frontend/src/components/QuestionTypeSelector.jsx:61-65 | the selection goes back to ["mcq"], and the callback hears it |
| Upload.SubmitRefusedIff | frontend/src/components/UploadSection.jsx:39-48 | submitting is refused iff the active method's input is missing (blank text, or no file), with that method's message |
| Upload.PayloadContent | frontend/src/components/UploadSection.jsx:55-59 | a delivered syllabus carries the method and either the text as typed (not blank) or the chosen file |
| Upload.UploadSection.constructor | frontend/src/components/UploadSection.jsx:7-12 | the form starts in text mode, with no text, no file and nothing uploading |
| Upload.UploadSection.SetUploadMethod | frontend/src/components/UploadSection.jsx:126-137 | one of the two rendered buttons (text, document) sets the method and leaves the text and the file alone; choosing text unmounts the file input, so its value is "" when it is mounted again (lines 178-193) |
| Upload.UploadSection.HandleTextChange | frontend/src/components/UploadSection.jsx:14-16 | the typed text is stored |
| Upload.UploadSection.HandleFileUpload | frontend/src/components/UploadSection.jsx:18-37 | a whitelisted file is stored; a file off the whitelist is refused with a toast and the old file stays; no file changes nothing |
| Upload.UploadSection.HandleSubmit | frontend/src/components/UploadSection.jsx:39-69 | either exactly one error toast and nothing delivered, or the payload delivered with the success toast and uploading back to false; a delivered syllabus is never an image |
| Upload.UploadSection.ClearUpload | frontend/src/components/UploadSection.jsx:72-81 | only the active method's input is cleared |
| Upload.UploadSection.ToggleInfoExpand | frontend/src/components/UploadSection.jsx:87-89 | the info panel flag flips and nothing else changes |
| Dashboard.LabelsAgree | frontend/src/pages/Dashboard.jsx:282-287 | the page's difficulty label agrees on every value with the slider's label |
| Dashboard.IntToString | frontend/src/pages/Dashboard.jsx:114 | the decimal text of a level is never empty |
| Dashboard.Tail | frontend/src/pages/Dashboard.jsx:114-117 | the four entries after the syllabus are text entries |
| Dashboard.RouteSeesRequest | frontend/src/pages/Dashboard.jsx:99-117 | the route sees a PDF iff the syllabus is a document; the difficulty parses back as the level; the question types are present (the selection is never empty); and text is passed through unchanged |
| Dashboard.ImageNeverSent | frontend/src/pages/Dashboard.jsx:102-112 | an image syllabus is never sent and ends in "Syllabus data is missing!" |
| Dashboard.DeliveredSyllabusSent | frontend/src/pages/Dashboard.jsx:102-107 | what the upload form delivers is sent: text as typed under "syllabus", a document's file under "pdf" |
| Dashboard.Dashboard.constructor | frontend/src/pages/Dashboard.jsx:55-71 | the page starts with no syllabus, ["mcq"], level 50, no questions and the export dialog closed |
| Dashboard.Dashboard.SetUser | frontend/src/pages/Dashboard.jsx:42 | the fetched profile is stored and nothing else changes |
| Dashboard.Dashboard.HandleSyllabusUploaded | frontend/src/pages/Dashboard.jsx:74-77 | the syllabus is stored, with a success toast |
| Dashboard.Dashboard.HandleQuestionTypeChange | frontend/src/pages/Dashboard.jsx:80-82 | the selected types are stored |
| Dashboard.Dashboard.HandleDifficultyChange | frontend/src/pages/Dashboard.jsx:85-87 | the level is stored |
| Dashboard.Dashboard.SetTitle | frontend/src/pages/Dashboard.jsx:71 | the title is stored |
| Dashboard.Dashboard.GenerateQuestions | frontend/src/pages/Dashboard.jsx:90-140 | the form sent is `Request` of the page state; the page takes the questions only from a 200 answer; it ends with the one matching toast; loading ends false once a syllabus was there |
| Dashboard.Dashboard.HandleExport | frontend/src/pages/Dashboard.jsx:146-153 | with no questions, a toast and no dialog; otherwise the dialog opens |
| Dashboard.Dashboard.CloseExportModal | frontend/src/pages/Dashboard.jsx:156-158 | the dialog closes and nothing else changes |
| SrcResults.FilteredQuestions | src/components/ResultsSection.jsx:67-72 | the shown questions form a subsequence of the list and are exactly those whose text or an option's text contains the query, ignoring case, each kept as often as it occurs |
| SrcResults.EmptyQueryKeepsAll | src/components/ResultsSection.jsx:67-72 | the empty query shows the whole list |
| SrcResults.ExactMatchKept | src/components/ResultsSection.jsx:67-72 | a question whose text or one of whose options contains the query is shown |
| SrcResults.QueryCaseIgnored | src/components/ResultsSection.jsx:67-72 | lowercasing the query does not change which questions match |
| SrcResults.EmptyListHasMessage | src/components/ResultsSection.jsx:23-253 | an empty list is never shown bare: either the placeholder replaces it (no questions) or the query is non-empty and the no-match message shows |
| SrcResults.ResultsSection.constructor | src/components/ResultsSection.jsx:16-20 | nothing is expanded, the query is empty and nothing is being edited |
| SrcResults.ResultsSection.ToggleExpanded | src/components/ResultsSection.jsx:53-59 | the id's expansion is toggled and the expanded ids stay distinct |
| SrcResults.ResultsSection.HandleSearchChange | src/components/ResultsSection.jsx:62-64 | the query is stored |
| SrcResults.ResultsSection.ClearSearch | src/components/ResultsSection.jsx:258 | the query is emptied, so the whole list is shown again |
| SrcResults.ResultsSection.StartEditing | src/components/ResultsSection.jsx:75-78 | the question's id is being edited, starting from its text |
| SrcResults.ResultsSection.SaveEdit | src/components/ResultsSection.jsx:81-85 | editing ends with a success toast and the questions unchanged |
| SrcResults.ResultsSection.CancelEdit | src/components/ResultsSection.jsx:88-90 | editing ends and nothing else changes |
| SrcResults.ResultsSection.DeleteQuestion | src/components/ResultsSection.jsx:99-102 | a "Question removed" toast is shown, and the question stays |
| FrontendResults.FilteredQuestions | frontend/src/components/ResultsSection.jsx:68-73 | the filter throws iff some non-matching question has options; otherwise the shown questions form a subsequence and are exactly those whose text contains the query, ignoring case, each kept as often as it occurs |
| FrontendResults.EmptyQueryShowsAll | frontend/src/components/ResultsSection.jsx:68-73 | the empty query shows the whole list and never throws |
| FrontendResults.MatchingTextShown | frontend/src/components/ResultsSection.jsx:68-73 | a question whose text contains the query is shown, whenever the filter does not throw |
| FrontendResults.EmptyListIsPlaceholder | frontend/src/components/ResultsSection.jsx:23-73 | with the empty query an empty list comes only from no questions, which the placeholder replaces |
| FrontendResults.ResultsSection.constructor | frontend/src/components/ResultsSection.jsx:16-20 | nothing is expanded, the query is empty and nothing is being edited |
| FrontendResults.ResultsSection.Filtered | frontend/src/components/ResultsSection.jsx:68-73 | the list as shown is always every question (the query stays empty) |
| FrontendResults.ResultsSection.ToggleExpanded | frontend/src/components/ResultsSection.jsx:53-57 | the index's expansion is toggled and the expanded indices stay distinct |
| FrontendResults.ResultsSection.ClearSearch | frontend/src/components/ResultsSection.jsx:239 | the query is emptied again (a dead handler: the button renders only behind a non-empty query) |
| FrontendResults.ResultsSection.StartEditing | frontend/src/components/ResultsSection.jsx:82-85 | the index is being edited, starting from the given text (a dead handler: no Edit button is rendered) |
| FrontendResults.ResultsSection.CancelEdit | frontend/src/components/ResultsSection.jsx:90-92 | editing ends and nothing else changes |

## Left out

- The network, the database and the browser are parameters, not modelled code:
  - HTTP: the Gemini call and the page's POST are function parameters. Their asynchrony, headers and `console` logging are not modelled.
  - `JSON.parse` is a function parameter that yields a parsed value or a syntax error. The JSON grammar itself is not modelled.
  - pdf-parse: the upload carries the text it would extract, or none when it throws. multer's multipart parsing is reduced to reading the first text entry of each name and checking for a file entry named `pdf`.
  - Persistence: whether a save succeeds is a boolean parameter. The `unique` indexes of the user schema, the ObjectId cast of `createdBy` and the `Date.now` defaults are not modelled.
  - `localStorage`, the token check and the profile fetch effect of the dashboard are not modelled; only the resulting `setUser` is (`Dashboard.Dashboard.SetUser`).
  - The submission timestamp (`new Date().toISOString()`) is a parameter.
- Stored PDF documents are reduced to their schema's required `createdBy`. The rest of `backend/models/Pdf.model.js` is not part of this model.
- Authentication (`backend/routes/auth.routes.js`, the auth middleware, bcrypt and JWT) and `backend/routes/ai.route.js` are not part of this model.
- The generation settings (temperature, topK, topP, maxOutputTokens) are floating-point and integer constants that are only passed to the service. They are not modelled.
- Rendering, routing and animation are not modelled: markup, icons, card descriptions, the loading spinner, timers and the 1.5 second delay before delivery. Toasts and callback calls are recorded as lists in the component objects.
- Login, signup, settings, the header and the export dialog's contents are not part of this model. The dashboard models only opening and closing the export dialog.
- `copyToClipboard` in both results lists is not modelled, because it only calls the browser clipboard.
- `Strings.Lower` lowercases ASCII letters only; JavaScript's full Unicode case mapping is not modelled.
- `Difficulty.ParseInt` reads a leading run of decimal digits. The leading whitespace and `+`/`-` signs that `parseInt` also accepts are not modelled, because the slider only delivers the digits of 0..100.
- `FrontendResults.FilteredQuestions`: the copy under `frontend/` calls `opt.text.toLowerCase()` on the options, which the generator returns as strings and which therefore throw. That throw is modelled as a `None` result, not as a crashed render.
- In the `frontend/` results list, the Save button calls a `saveEdit` that the component never defines, and `handleSearchChange` is defined but never wired to an input. Neither is modelled as an operation. That copy also renders neither the Clear search button (it sits behind a query that is always empty) nor an Edit button. So `FrontendResults.ResultsSection.ClearSearch` and `FrontendResults.ResultsSection.StartEditing` model handlers no user can reach.
- `PaperModel.CastQuestion`: Mongoose's String cast is reduced to strings (kept), numbers and booleans (their text), objects with a non-empty string `_id` (that `_id`), null and undefined (missing), and arrays and other objects (cast errors). In an options array, null items and nested arrays or objects without such an `_id` are cast errors. An object's own `toString` is not modelled, because JSON values have none.
- `GeminiApi.First`: indexing a string candidate list with `[0]` is modelled as undefined (not as its first character). The property chain that follows would find nothing on that character either.
- `UserModel.NormaliseBio`: an explicit `null` bio is treated like an absent one and stored as "", whereas Mongoose applies the default only to an undefined path and keeps null. The in-core callers never pass a bio.
- `Upload.SubmitRefusedIff` still covers the image method that `handleSubmit` distinguishes, although no rendered button selects it.
- `Upload.UploadSection.HandleFileUpload`: the `inputValue` parameter stands for the value the browser gives the hidden file input after a choice.
- `QuestionTypes.QuestionTypeSelector.ToggleSelection` requires a catalogue id, because the only caller is a card button that passes its own card's id.
