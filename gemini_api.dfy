/** `generateQuestionPaper` of backend/services/gemini.api.js: it builds the prompt,
    sends one request to the generative-language endpoint, takes the text of the first
    part of the first candidate, strips code fences, trims, and parses the rest as JSON.
    Every failure on the way (a missing key, a rejected or non-ok request, a body that is
    not JSON, no candidates, no text, text that does not parse, a parsed value that is
    not an array) ends in the empty array; nothing escapes the outer `catch`.

    The HTTP exchange is a function parameter from the request URL and the prompt to the
    response, or to `None` when the request itself fails. `JSON.parse` is a function
    parameter too. The generation settings (temperature and the rest) are fixed numbers
    sent with every request and play no part in the logic. */
module GeminiApi {
  import opened Basics
  import opened Strings
  import opened Json

  const ApiUrl: string := "https://generativelanguage.googleapis.com/v1/models/gemini-1.5-flash:generateContent"

  /** The request URL: the endpoint with the key as its `key` query parameter. */
  function RequestUrl(key: string): (u: string)
    ensures |u| == |ApiUrl| + 5 + |key|
    ensures u[..|ApiUrl|] == ApiUrl && u[|ApiUrl|..|ApiUrl| + 5] == "?key=" && u[|ApiUrl| + 5..] == key
  {
    ApiUrl + "?key=" + key
  }

  // The prompt template, cut at its three interpolations.

  const PromptHead: string :=
    "\n" +
    "        You are an AI-powered question paper generator. Generate **5 questions per type** strictly based on the given syllabus.\n" +
    "\n" +
    "- **Syllabus:** "

  const PromptAfterSyllabus: string :=
    "  \n" +
    "- **Difficulty Level:** "

  const PromptAfterDifficulty: string :=
    "% out of 100%   \n" +
    "- **Question Types:** "

  const PromptTail: string :=
    " (comma-separated)  \n" +
    "\n" +
    "### **Instructions:**  \n" +
    " 1. Extract all question types from the input (e.g., mcq, truefalse, shortAnswer, fillblanks).  \n" +
    " 2. **Strictly generate questions ONLY from the syllabus**. Do NOT include irrelevant topics.  \n" +
    " 3. Ensure **no repeated or similar questions** across all types.  \n" +
    " 4. Return **EXACTLY** 5 questions per type.  \n" +
    " 5. **Return ONLY a valid JSON array** with no extra text.  \n" +
    " 6. Ensure **options[] exists only for \"mcq\" and \"matching\" question types**.  \n" +
    " 7. Ensure **type values strictly match**: \"mcq\", \"fillblanks\", \"truefalse\", \"matching\", \"longAnswer\", \"shortAnswer\".  \n" +
    " 8. **For question types other than mcq and matching, DO NOT return the \"options\" field.**  \n" +
    "\n" +
    "### **Output Format (Strict JSON):**  \n" +
    "[\n" +
    "  { \"question\": \"What is recursion?\", \"type\": \"mcq\", \"options\": [\"Function calls itself\", \"Loop\", \"Variable\", \"None\"], \"answer\": \"Function calls itself\" },\n" +
    "  { \"question\": \"Explain polymorphism in OOP.\", \"type\": \"shortAnswer\", \"answer\": \"Polymorphism allows objects to be treated as instances of their parent class.\" },\n" +
    "  { \"question\": \"True or False: A linked list is a static data structure.\", \"type\": \"truefalse\", \"answer\": \"False\" },\n" +
    "  { \"question\": \"_____ is the process of finding the shortest path in a graph.\", \"type\": \"fillblanks\", \"answer\": \"Dijkstra\'s Algorithm\" }\n" +
    "]\n" +
    "\n" +
    "\n" +
    "\n" +
    "      "

  /** The prompt: the template with syllabus, difficulty and question types put in verbatim,
      each at the place the template reserves for it (see `Interpolate`). */
  function Prompt(syllabus: string, difficulty: string, questionType: string): string {
    Interpolate(PromptHead, syllabus, PromptAfterSyllabus, difficulty, PromptAfterDifficulty, questionType, PromptTail)
  }

  /** A template literal with three interpolations: fixed pieces `a`, `b`, `c`, `d` around
      the values `x`, `y`, `z`. */
  function Interpolate(a: string, x: string, b: string, y: string, c: string, z: string, d: string): (p: string)
    ensures var i := |a|;
            var j := i + |x| + |b|;
            var k := j + |y| + |c|;
            && |p| == k + |z| + |d|
            && p[..i] == a
            && p[i..i + |x|] == x
            && p[i + |x|..j] == b
            && p[j..j + |y|] == y
            && p[j + |y|..k] == c
            && p[k..k + |z|] == z
            && p[k + |z|..] == d
  {
    a + x + b + y + c + z + d
  }

  /** The opening marker of a JSON code block. */
  const JsonFence: string := "```json"

  /** `text.replace(/```json/g, "").replace(/```/g, "").trim()`. */
  function Sanitise(text: string): (r: string)
    ensures !Contains(r, Fence)
    ensures Trimmed(r)
    ensures |r| <= |text|
  {
    var r := Trim(RemoveAll(RemoveAll(text, JsonFence), Fence));
    RemoveFenceLeavesNone(RemoveAll(text, JsonFence));
    TrimKeepsAbsence(RemoveAll(RemoveAll(text, JsonFence), Fence), Fence);
    r
  }

  /** A sanitised text holds no fence of either kind. */
  lemma SanitisedHasNoJsonFence(text: string)
    ensures !Contains(Sanitise(text), JsonFence)
  {
    assert JsonFence == Fence + "json";
    if Contains(Sanitise(text), JsonFence) {
      ContainsPrefixOfPattern(Sanitise(text), Fence, "json");
    }
  }

  /** Sanitising is idempotent. */
  lemma SanitiseIdempotent(text: string)
    ensures Sanitise(Sanitise(text)) == Sanitise(text)
  {
    var r := Sanitise(text);
    SanitisedHasNoJsonFence(text);
    assert RemoveAll(RemoveAll(r, JsonFence), Fence) == r;
    TrimOfTrimmed(r);
  }

  /** On a text without backticks sanitising is just trimming. */
  lemma SanitiseWithoutBackticks(text: string)
    requires NoChar(text, '`')
    ensures Sanitise(text) == Trim(text)
  {
    NoCharNoContains(text, JsonFence);
    NoCharNoContains(text, Fence);
  }

  /** A reply wrapped in a JSON code block comes out as its trimmed contents. */
  lemma SanitiseFenced(s: string)
    requires NoChar(s, '`')
    ensures Sanitise("```json\n" + s + "\n```") == Trim(s)
  {
    var a := "\n" + s + "\n";
    var u := "```json\n" + s + "\n```";
    assert u == JsonFence + (a + Fence);
    assert NoChar(a, '`');
    assert StartsWith(u, JsonFence);
    assert u[|JsonFence|..] == a + Fence;
    assert RemoveAll(u, JsonFence) == RemoveAll(a + Fence, JsonFence);
    RemoveAllSkipsPrefix(a, Fence, JsonFence);
    ShorterNoContains(Fence, JsonFence);
    assert RemoveAll(u, JsonFence) == a + Fence;
    RemoveAllSkipsPrefix(a, Fence, Fence);
    assert StartsWith(Fence, Fence) && Fence[|Fence|..] == [];
    assert RemoveAll(Fence, Fence) == [];
    assert RemoveAll(a + Fence, Fence) == a;
    TrimPadded("\n", s, "\n");
  }

  /** What the exchange hands back: `response.ok`, `response.status`, and the body read by
      `response.json()` (which rejects a body that is not JSON). */
  datatype HttpResponse = HttpResponse(ok: bool, status: int, body: ParseResult)

  /** `x?.key`: undefined when `x` is undefined or null, the property otherwise. */
  function Member(x: Option<Value>, key: string): (r: Option<Value>)
    ensures r.Some? ==> x.Some? && x.value.JObject?
  {
    if x.Some? then Get(x.value, key) else None
  }

  /** `x?.[0]` for the values that reach it. Indexing a string gives a one-character string
      whose properties are all undefined, so it is reported as undefined directly. */
  function First(x: Option<Value>): (r: Option<Value>)
    ensures x == Some(JArray([])) ==> r.None?
    ensures x.Some? && x.value.JArray? && x.value.items != [] ==> r == Some(x.value.items[0])
  {
    match x
    case Some(JArray(items)) => if items == [] then None else Some(items[0])
    case Some(JObject(_)) => Get(x.value, "0")
    case _ => None
  }

  /** `candidates.length === 0` on a truthy `candidates`. */
  predicate LengthIsZero(v: Value) {
    match v
    case JArray(items) => items == []
    case JString(s) => s == ""
    case JObject(_) => Get(v, "length") == Some(JNumber("0"))
    case _ => false
  }

  /** `!responseData.candidates || responseData.candidates.length === 0`. */
  predicate NoCandidates(data: Value) {
    var c := Get(data, "candidates");
    !Truthy(c) || LengthIsZero(c.value)
  }

  /** `responseData.candidates[0]?.content?.parts?.[0]?.text`. */
  function CandidateText(data: Value): (t: Option<Value>)
    ensures t.Some? ==> Get(data, "candidates").Some?
  {
    Member(First(Member(Member(First(Get(data, "candidates")), "content"), "parts")), "text")
  }

  /** The reply shape the endpoint produces on success: one candidate whose first part
      carries the text. */
  function ReplyWith(text: string): Value {
    JObject([("candidates", JArray([JObject([("content", JObject([("parts", JArray([JObject([("text", JString(text))])]))]))])]))])
  }

  /** The text of a well-formed reply is found, and such a reply has candidates. */
  lemma ReplyText(text: string)
    ensures !NoCandidates(ReplyWith(text))
    ensures CandidateText(ReplyWith(text)) == Some(JString(text))
  {
    var part := JObject([("text", JString(text))]);
    var content := JObject([("parts", JArray([part]))]);
    var candidate := JObject([("content", content)]);
    assert Get(part, "text") == Some(JString(text));
    assert Get(content, "parts") == Some(JArray([part]));
    assert Get(candidate, "content") == Some(content);
    assert Get(ReplyWith(text), "candidates") == Some(JArray([candidate]));
  }

  /** The raw completion text, or `None` for every way the steps before the sanitising
      throw: a falsy key, a failed request, a non-ok status, a body that is not JSON, no
      candidates, or a `text` that is not a string (calling `replace` on it throws). */
  function CompletionText(apiKey: Option<string>, prompt: string,
                          exchange: (string, string) -> Option<HttpResponse>): (t: Option<string>)
    ensures t.Some? ==> apiKey.Some? && apiKey.value != ""
    ensures t.Some? ==> var r := exchange(RequestUrl(apiKey.value), prompt);
                        r.Some? && r.value.ok && r.value.body.Parsed? && !NoCandidates(r.value.body.value)
                        && CandidateText(r.value.body.value) == Some(JString(t.value))
  {
    if apiKey.None? || apiKey.value == "" then None
    else
      var response := exchange(RequestUrl(apiKey.value), prompt);
      if response.None? || !response.value.ok || response.value.body.SyntaxError? then None
      else if NoCandidates(response.value.body.value) then None
      else
        match CandidateText(response.value.body.value)
        case Some(JString(t)) => Some(t)
        case _ => None
  }

  /** `Array.isArray(questions) ? questions : []` around `JSON.parse`, whose SyntaxError
      is caught and also gives `[]`. */
  function ArrayOrEmpty(parsed: ParseResult): (questions: seq<Value>)
    ensures parsed.Parsed? && parsed.value.JArray? ==> questions == parsed.value.items
    ensures !(parsed.Parsed? && parsed.value.JArray?) ==> questions == []
  {
    if parsed.Parsed? && parsed.value.JArray? then parsed.value.items else []
  }

  /** The array `generateQuestionPaper` resolves to. */
  function Generated(apiKey: Option<string>, syllabus: string, difficulty: string, questionType: string,
                     exchange: (string, string) -> Option<HttpResponse>, parse: string -> ParseResult): seq<Value>
  {
    match CompletionText(apiKey, Prompt(syllabus, difficulty, questionType), exchange)
    case None => []
    case Some(text) => ArrayOrEmpty(parse(Sanitise(text)))
  }

  /** `generateQuestionPaper(syllabus, difficulty, questionType)`, step by step. */
  method GenerateQuestionPaper(apiKey: Option<string>, syllabus: string, difficulty: string, questionType: string,
                               exchange: (string, string) -> Option<HttpResponse>, parse: string -> ParseResult)
    returns (questions: seq<Value>)
    ensures questions == Generated(apiKey, syllabus, difficulty, questionType, exchange, parse)
  {
    questions := [];
    if apiKey.None? || apiKey.value == "" {
      return;
    }
    var prompt := Prompt(syllabus, difficulty, questionType);
    ghost var completion := CompletionText(apiKey, prompt, exchange);
    var response := exchange(RequestUrl(apiKey.value), prompt);
    if response.None? || !response.value.ok {
      assert completion.None?;
      return;
    }
    if response.value.body.SyntaxError? {
      assert completion.None?;
      return;
    }
    var responseData := response.value.body.value;
    if NoCandidates(responseData) {
      assert completion.None?;
      return;
    }
    var textResponse := CandidateText(responseData);
    if textResponse.None? || !textResponse.value.JString? {
      assert completion.None?;
      return;
    }
    var text := textResponse.value.s;
    assert completion == Some(text);
    text := Sanitise(text);
    var parsed := parse(text);
    if parsed.Parsed? && parsed.value.JArray? {
      questions := parsed.value.items;
    }
  }

  // ----- The fail-soft outcomes -----

  /** A missing or empty key gives `[]` and no request is made. */
  lemma MissingKeyGivesEmpty(apiKey: Option<string>, syllabus: string, difficulty: string, questionType: string,
                             exchange: (string, string) -> Option<HttpResponse>, parse: string -> ParseResult)
    requires apiKey.None? || apiKey.value == ""
    ensures Generated(apiKey, syllabus, difficulty, questionType, exchange, parse) == []
  {
  }

  /** A failed request, a non-ok status, a body that is not JSON, no candidates, or a
      missing or non-string text gives `[]`. */
  lemma FailedExchangeGivesEmpty(key: string, syllabus: string, difficulty: string, questionType: string,
                                 exchange: (string, string) -> Option<HttpResponse>, parse: string -> ParseResult)
    requires var r := exchange(RequestUrl(key), Prompt(syllabus, difficulty, questionType));
             || r.None? || !r.value.ok || r.value.body.SyntaxError?
             || NoCandidates(r.value.body.value)
             || !CandidateText(r.value.body.value).Some? || !CandidateText(r.value.body.value).value.JString?
    ensures Generated(Some(key), syllabus, difficulty, questionType, exchange, parse) == []
  {
  }

  /** The outcome is never an error: it is either `[]` or exactly the array that parsing
      the sanitised text of a successful reply produced. */
  lemma GeneratedIsParsedArray(apiKey: Option<string>, syllabus: string, difficulty: string, questionType: string,
                               exchange: (string, string) -> Option<HttpResponse>, parse: string -> ParseResult)
    ensures var qs := Generated(apiKey, syllabus, difficulty, questionType, exchange, parse);
            qs == [] || exists text :: CompletionText(apiKey, Prompt(syllabus, difficulty, questionType), exchange) == Some(text)
                                       && parse(Sanitise(text)) == Parsed(JArray(qs))
  {
  }

  /** A successful reply whose sanitised text parses to an array gives that array. */
  lemma SuccessGivesParsedArray(key: string, syllabus: string, difficulty: string, questionType: string,
                                exchange: (string, string) -> Option<HttpResponse>, parse: string -> ParseResult,
                                text: string, questions: seq<Value>)
    requires key != ""
    requires exchange(RequestUrl(key), Prompt(syllabus, difficulty, questionType)) == Some(HttpResponse(true, 200, Parsed(ReplyWith(text))))
    requires parse(Sanitise(text)) == Parsed(JArray(questions))
    ensures Generated(Some(key), syllabus, difficulty, questionType, exchange, parse) == questions
  {
    ReplyText(text);
  }

  /** A successful reply whose text does not parse, or parses to something other than an
      array, gives `[]`. */
  lemma UnparsableReplyGivesEmpty(key: string, syllabus: string, difficulty: string, questionType: string,
                                  exchange: (string, string) -> Option<HttpResponse>, parse: string -> ParseResult,
                                  text: string)
    requires key != ""
    requires exchange(RequestUrl(key), Prompt(syllabus, difficulty, questionType)) == Some(HttpResponse(true, 200, Parsed(ReplyWith(text))))
    requires !(parse(Sanitise(text)).Parsed? && parse(Sanitise(text)).value.JArray?)
    ensures Generated(Some(key), syllabus, difficulty, questionType, exchange, parse) == []
  {
    ReplyText(text);
  }
}
