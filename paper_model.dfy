/** The question-paper schema of backend/models/Paper.model.js: the `QuestionSchema`
    subdocument (its `type` enum, the type-dependent `options` and `answer` validators,
    the true/false `options` default) and the `QuestionPaperSchema` rules (a title, a
    creator, at least one question).

    Validation follows Mongoose: a required String rejects a missing value and "";
    custom validators are skipped for `undefined` but do run on `null`; a validator
    that throws counts as failing; a document is valid only if every path and every
    subdocument is. Invalid questions are not dropped: one of them makes the whole
    paper invalid. */
module PaperModel {
  import opened Basics
  import opened Json

  /** The six tokens of the `type` enum, in declaration order. */
  const QuestionTypes: seq<string> := ["mcq", "fillblanks", "truefalse", "matching", "longAnswer", "shortAnswer"]

  /** The `options` path of a subdocument: undefined, null, or an array of strings. */
  datatype OptionsField = NoOptions | NullOptions | OptionList(items: seq<string>)

  /** A question subdocument after casting and defaults. `None` is a missing (undefined
      or null) value of a path. */
  datatype Question = Question(question: Option<string>, qtype: Option<string>, options: OptionsField, answer: Option<Value>)

  /** The `options` validator applied to an array `v`, for a question of type `qtype`. */
  predicate OptionsRule(qtype: Option<string>, v: seq<string>) {
    if qtype == Some("mcq") then |v| >= 2
    else if qtype == Some("truefalse") then |v| == 2 && "True" in v && "False" in v
    else if qtype == Some("matching") then |v| % 2 == 0
    else true
  }

  /** The `options` path passes validation: skipped when undefined; on `null` the validator
      throws for mcq and matching (it reads `length`) and answers false for truefalse. */
  predicate OptionsValid(q: Question) {
    match q.options
    case NoOptions => true
    case NullOptions => q.qtype != Some("mcq") && q.qtype != Some("truefalse") && q.qtype != Some("matching")
    case OptionList(v) => OptionsRule(q.qtype, v)
  }

  /** One entry of a matching answer: `pair.key && pair.value` is truthy. */
  predicate PairOk(pair: Value) {
    Truthy(Get(pair, "key")) && Truthy(Get(pair, "value"))
  }

  /** The `answer` validator applied to a present value `v`. */
  predicate AnswerRule(qtype: Option<string>, v: Value) {
    if qtype == Some("truefalse") then v == JString("True") || v == JString("False")
    else if qtype == Some("matching") then v.JArray? && forall i :: 0 <= i < |v.items| ==> PairOk(v.items[i])
    else v.JString?
  }

  /** A question subdocument passes every path's validation. */
  predicate QuestionValid(q: Question) {
    && q.question.Some? && q.question.value != ""
    && q.qtype.Some? && q.qtype.value in QuestionTypes
    && OptionsValid(q)
    && q.answer.Some? && AnswerRule(q.qtype, q.answer.value)
  }

  /** The `options` default: lowercase ["true", "false"] for truefalse, undefined otherwise. */
  function DefaultOptions(qtype: Option<string>): (o: OptionsField)
    ensures o != NoOptions <==> qtype == Some("truefalse")
  {
    if qtype == Some("truefalse") then OptionList(["true", "false"]) else NoOptions
  }

  /** The outcome of casting a value to a path's type. */
  datatype Cast<T> = Missing | CastOk(value: T) | CastError

  /** Casting to String: strings are kept, numbers and booleans become their text,
      null and undefined are missing, an object with a non-empty string `_id` becomes that
      `_id`, and arrays and other objects fail. */
  function CastString(v: Option<Value>): (c: Cast<string>)
    ensures v.Some? && v.value.JString? ==> c == CastOk(v.value.s)
    ensures v.None? || v == Some(JNull) <==> c.Missing?
    ensures v.Some? && v.value.JArray? ==> c.CastError?
    ensures v.Some? && v.value.JObject? && c.CastOk? ==> c.value != "" && Get(v.value, "_id") == Some(JString(c.value))
  {
    match v
    case None => Missing
    case Some(JNull) => Missing
    case Some(JString(s)) => CastOk(s)
    case Some(JNumber(t)) => CastOk(t)
    case Some(JBool(b)) => CastOk(if b then "true" else "false")
    case Some(JObject(_)) =>
      (match Get(v.value, "_id")
       case Some(JString(id)) => if id != "" then CastOk(id) else CastError
       case _ => CastError)
    case Some(JArray(_)) => CastError
  }

  /** Casting the elements of an array to String; a missing or uncastable element fails the cast. */
  function CastItems(items: seq<Value>): (r: Option<seq<string>>)
    ensures r.Some? ==> |r.value| == |items|
    ensures (forall i :: 0 <= i < |items| ==> items[i].JString?) ==>
              r.Some? && forall i :: 0 <= i < |items| ==> r.value[i] == items[i].s
  {
    if items == [] then Some([])
    else
      match CastString(Some(items[0]))
      case CastOk(s) =>
        (match CastItems(items[1..])
         case Some(rest) => Some([s] + rest)
         case None => None)
      case _ => None
  }

  /** Casting to [String] with the schema's default: undefined takes the default, null stays
      null, an array casts element by element, any other single value is cast and wrapped
      in an array. */
  function CastOptions(v: Option<Value>, qtype: Option<string>): (c: Cast<OptionsField>)
    ensures v.None? ==> c == CastOk(DefaultOptions(qtype))
    ensures v == Some(JNull) ==> c == CastOk(NullOptions)
  {
    match v
    case None => CastOk(DefaultOptions(qtype))
    case Some(JNull) => CastOk(NullOptions)
    case Some(JArray(items)) =>
      (match CastItems(items)
       case Some(strs) => CastOk(OptionList(strs))
       case None => CastError)
    case Some(scalar) =>
      (match CastString(Some(scalar))
       case CastOk(s) => CastOk(OptionList([s]))
       case _ => CastError)
  }

  function CastToOption<T>(c: Cast<T>): Option<T>
    requires !c.CastError?
  {
    if c.CastOk? then Some(c.value) else None
  }

  /** A candidate record as Mongoose turns it into a subdocument: `None` when it is not an
      object or one of its paths fails to cast (a CastError fails validation). */
  function CastQuestion(v: Value): (r: Option<Question>)
    ensures r.Some? ==> v.JObject?
    ensures r.Some? && Get(v, "options").None? ==> r.value.options == DefaultOptions(r.value.qtype)
  {
    if !v.JObject? then None
    else
      var q := CastString(Get(v, "question"));
      var t := CastString(Get(v, "type"));
      if q.CastError? || t.CastError? then None
      else
        var qtype := CastToOption(t);
        var o := CastOptions(Get(v, "options"), qtype);
        if o.CastError? then None
        else
          var a := Get(v, "answer");
          var answer := if a == Some(JNull) then None else a;
          Some(Question(CastToOption(q), qtype, o.value, answer))
  }

  /** A candidate record becomes a valid question subdocument. */
  predicate CandidateValid(v: Value) {
    match CastQuestion(v)
    case Some(q) => QuestionValid(q)
    case None => false
  }

  /** A question paper document: `title`, `createdBy` and the `generateQuestionPaper` array.
      The route's other fields are not schema paths and are dropped. */
  datatype Paper = Paper(title: Option<string>, createdBy: Option<string>, questions: seq<Value>)

  /** The paper passes validation: a title, a creator, at least one entry, and every entry
      valid. The document array keeps a `null` entry uncast and its validation skips it, so a
      `null` counts towards the length but is never checked as a question. */
  predicate PaperValid(p: Paper) {
    && p.title.Some? && p.title.value != ""
    && p.createdBy.Some? && p.createdBy.value != ""
    && |p.questions| > 0
    && forall i :: 0 <= i < |p.questions| ==> p.questions[i] == JNull || CandidateValid(p.questions[i])
  }

  // ----- Properties of the question rules -----

  /** A valid question's type is one of the six tokens; its text and answer are present. */
  lemma ValidQuestionBasics(q: Question)
    requires QuestionValid(q)
    ensures q.qtype.value in {"mcq", "fillblanks", "truefalse", "matching", "longAnswer", "shortAnswer"}
    ensures q.question.Some? && q.question.value != "" && q.answer.Some?
  {
  }

  /** mcq options: at least two. */
  lemma McqOptions(v: seq<string>)
    ensures OptionsRule(Some("mcq"), v) <==> |v| >= 2
  {
  }

  /** truefalse options: exactly "True" and "False", in either order. */
  lemma TrueFalseOptions(v: seq<string>)
    ensures OptionsRule(Some("truefalse"), v) <==> v == ["True", "False"] || v == ["False", "True"]
  {
    if OptionsRule(Some("truefalse"), v) {
      assert v[0] == "True" || v[1] == "True";
      assert v[0] == "False" || v[1] == "False";
      assert v == [v[0], v[1]];
    }
  }

  /** matching options: an even number, zero included; other types accept any array. */
  lemma MatchingAndOtherOptions(qtype: string, v: seq<string>)
    ensures OptionsRule(Some("matching"), v) <==> |v| % 2 == 0
    ensures OptionsRule(Some("matching"), [])
    ensures qtype != "mcq" && qtype != "truefalse" && qtype != "matching" ==> OptionsRule(Some(qtype), v)
  {
  }

  /** truefalse answers: exactly the strings "True" and "False". */
  lemma TrueFalseAnswer(v: Value)
    ensures AnswerRule(Some("truefalse"), v) <==> v == JString("True") || v == JString("False")
  {
  }

  /** Matching answers: an array whose every entry has a truthy key and value; the
      empty array passes and a string does not. */
  lemma MatchingAnswer(key: string, value: string)
    ensures AnswerRule(Some("matching"), JArray([]))
    ensures !AnswerRule(Some("matching"), JString(key))
    ensures AnswerRule(Some("matching"), JArray([JObject([("key", JString(key)), ("value", JString(value))])]))
            <==> key != "" && value != ""
  {
    var m := [("key", JString(key)), ("value", JString(value))];
    assert m[..1] == [("key", JString(key))];
    assert Lookup(m, "key") == Some(JString(key));
    assert Lookup(m, "value") == Some(JString(value));
    var pair := JObject(m);
    assert PairOk(pair) <==> key != "" && value != "";
    assert [pair][0] == pair;
  }

  /** Every other type accepts any string answer, whatever the options: an mcq answer
      need not be one of the options. */
  lemma StringAnswers(qtype: string, answer: string, options: seq<string>)
    requires qtype in {"mcq", "fillblanks", "longAnswer", "shortAnswer"}
    requires qtype == "mcq" ==> |options| >= 2
    ensures QuestionValid(Question(Some("q"), Some(qtype), OptionList(options), Some(JString(answer))))
  {
  }

  /** The truefalse default ["true", "false"] fails the truefalse options rule, so a
      truefalse candidate without `options` (the form the generation prompt asks for)
      never validates. */
  lemma TrueFalseDefaultRejected(v: Value)
    requires v.JObject? && Get(v, "type") == Some(JString("truefalse")) && Get(v, "options").None?
    ensures !CandidateValid(v)
  {
    assert !OptionsRule(Some("truefalse"), ["true", "false"]) by {
      assert "True" !in ["true", "false"];
    }
  }

  /** Two rejected candidates: a truefalse question answered "Maybe", and an mcq question
      with a single option. */
  lemma RejectedExamples()
    ensures !CandidateValid(ToWire(Question(Some("q"), Some("truefalse"), OptionList(["True", "False"]), Some(JString("Maybe")))))
    ensures !CandidateValid(ToWire(Question(Some("q"), Some("mcq"), OptionList(["A"]), Some(JString("A")))))
  {
    WireRoundTrip(Question(Some("q"), Some("truefalse"), OptionList(["True", "False"]), Some(JString("Maybe"))));
    WireRoundTrip(Question(Some("q"), Some("mcq"), OptionList(["A"]), Some(JString("A"))));
  }

  // ----- Properties of the paper rules -----

  /** A paper is valid exactly when it has a title, a creator, a question, and every
      question is valid: a single bad question invalidates the paper, and an empty list
      (what the generator returns on any failure) is never saved. */
  lemma PaperValidity(p: Paper, i: int)
    ensures |p.questions| == 0 ==> !PaperValid(p)
    ensures 0 <= i < |p.questions| && p.questions[i] != JNull && !CandidateValid(p.questions[i]) ==> !PaperValid(p)
    ensures PaperValid(p) ==> p.title.Some? && p.createdBy.Some?
  {
  }

  /** `null` is not a question, yet a `null` entry never invalidates a paper: it can be added
      anywhere to a valid paper, and a paper of nothing but `null` passes the length rule. */
  lemma NullEntriesSkipped(p: Paper, i: nat)
    requires i <= |p.questions|
    ensures !CandidateValid(JNull)
    ensures PaperValid(p) ==> PaperValid(p.(questions := p.questions[..i] + [JNull] + p.questions[i..]))
    ensures p.title.Some? && p.title.value != "" && p.createdBy.Some? && p.createdBy.value != "" ==>
            PaperValid(p.(questions := [JNull]))
  {
    if PaperValid(p) {
      var qs := p.questions[..i] + [JNull] + p.questions[i..];
      forall j | 0 <= j < |qs|
        ensures qs[j] == JNull || CandidateValid(qs[j])
      {
        if j < i {
          assert qs[j] == p.questions[j];
        } else if j > i {
          assert qs[j] == p.questions[j - 1];
        }
      }
    }
  }

  // ----- Round trip through the wire shape -----

  /** The subdocuments a cast can produce: the truefalse default fills undefined options,
      and a null answer reads as missing. */
  predicate CastImage(q: Question) {
    (q.options.NoOptions? ==> q.qtype != Some("truefalse")) && q.answer != Some(JNull)
  }

  function StringMember(key: string, v: Option<string>): seq<(string, Value)> {
    if v.Some? then [(key, JString(v.value))] else []
  }

  function OptionsMember(o: OptionsField): seq<(string, Value)> {
    match o
    case NoOptions => []
    case NullOptions => [("options", JNull)]
    case OptionList(items) => [("options", JArray(seq(|items|, i requires 0 <= i < |items| => JString(items[i]))))]
  }

  /** The wire shape `{ question, type, options?, answer }` of a subdocument, missing paths left out. */
  function ToWire(q: Question): (v: Value)
    ensures v.JObject? && |v.members| <= 4
  {
    JObject(StringMember("question", q.question) + StringMember("type", q.qtype) + OptionsMember(q.options)
            + AnswerMember(q.answer))
  }

  /** Every cast result lies in the cast image. */
  lemma CastResultInImage(v: Value)
    requires CastQuestion(v).Some?
    ensures CastImage(CastQuestion(v).value)
  {
  }

  /** Property lookup in a concatenation: the later part wins. */
  lemma {:induction false} LookupConcat(a: seq<(string, Value)>, b: seq<(string, Value)>, key: string)
    ensures Lookup(a + b, key) == if Lookup(b, key).Some? then Lookup(b, key) else Lookup(a, key)
    decreases |b|
  {
    if b == [] {
      assert a + b == a;
    } else {
      var ab := a + b;
      assert ab[|ab| - 1] == b[|b| - 1];
      if b[|b| - 1].0 != key {
        assert ab[..|ab| - 1] == a + b[..|b| - 1];
        LookupConcat(a, b[..|b| - 1], key);
      }
    }
  }

  /** The value a subdocument's `options` path has on the wire. */
  function OptionsValue(o: OptionsField): Option<Value> {
    match o
    case NoOptions => None
    case NullOptions => Some(JNull)
    case OptionList(items) => Some(JArray(seq(|items|, i requires 0 <= i < |items| => JString(items[i]))))
  }

  function AnswerMember(a: Option<Value>): seq<(string, Value)> {
    if a.Some? then [("answer", a.value)] else []
  }

  /** The later of two lookups that finds something. */
  function Later(later: Option<Value>, earlier: Option<Value>): Option<Value> {
    if later.Some? then later else earlier
  }

  /** A path of the wire shape is looked up part by part, the last part first. */
  lemma WireChain(q: Question, key: string)
    ensures Get(ToWire(q), key) ==
            Later(Lookup(AnswerMember(q.answer), key), Later(Lookup(OptionsMember(q.options), key),
              Later(Lookup(StringMember("type", q.qtype), key), Lookup(StringMember("question", q.question), key))))
  {
    var mq := StringMember("question", q.question);
    var mt := StringMember("type", q.qtype);
    var mo := OptionsMember(q.options);
    var ma := AnswerMember(q.answer);
    assert ToWire(q).members == mq + mt + mo + ma;
    LookupConcat(mq + mt + mo, ma, key);
    LookupConcat(mq + mt, mo, key);
    LookupConcat(mq, mt, key);
  }

  /** Reading each path back from the wire shape gives the subdocument's value. */
  lemma WireLookup(q: Question, key: string)
    ensures key == "question" ==> Get(ToWire(q), key) == (if q.question.Some? then Some(JString(q.question.value)) else None)
    ensures key == "type" ==> Get(ToWire(q), key) == (if q.qtype.Some? then Some(JString(q.qtype.value)) else None)
    ensures key == "options" ==> Get(ToWire(q), key) == OptionsValue(q.options)
    ensures key == "answer" ==> Get(ToWire(q), key) == q.answer
  {
    WireChain(q, key);
    assert |"question"| == 8 && |"type"| == 4 && |"options"| == 7 && |"answer"| == 6;
  }

  lemma {:induction false} CastItemsOfStrings(items: seq<string>)
    ensures CastItems(seq(|items|, i requires 0 <= i < |items| => JString(items[i]))) == Some(items)
  {
    var js := seq(|items|, i requires 0 <= i < |items| => JString(items[i]));
    if items != [] {
      assert js[1..] == seq(|items[1..]|, i requires 0 <= i < |items[1..]| => JString(items[1..][i]));
      CastItemsOfStrings(items[1..]);
      assert [items[0]] + items[1..] == items;
    }
  }

  /** Serialising a subdocument to the wire shape and casting it back gives the same
      subdocument, so validity survives the round trip. */
  lemma WireRoundTrip(q: Question)
    requires CastImage(q)
    ensures CastQuestion(ToWire(q)) == Some(q)
    ensures CandidateValid(ToWire(q)) <==> QuestionValid(q)
  {
    var w := ToWire(q);
    WireCasts(q);
    var qc := CastString(Get(w, "question"));
    var tc := CastString(Get(w, "type"));
    var oc := CastOptions(Get(w, "options"), q.qtype);
    assert !qc.CastError? && !tc.CastError? && oc == CastOk(q.options);
    assert CastToOption(qc) == q.question && CastToOption(tc) == q.qtype;
  }

  /** Each path of the wire shape casts back to the subdocument's value. */
  lemma WireCasts(q: Question)
    requires CastImage(q)
    ensures CastString(Get(ToWire(q), "question")) == if q.question.Some? then CastOk(q.question.value) else Missing
    ensures CastString(Get(ToWire(q), "type")) == if q.qtype.Some? then CastOk(q.qtype.value) else Missing
    ensures CastOptions(Get(ToWire(q), "options"), q.qtype) == CastOk(q.options)
    ensures Get(ToWire(q), "answer") == q.answer
  {
    WireLookup(q, "question");
    WireLookup(q, "type");
    WireLookup(q, "answer");
    WireCastOptions(q);
  }

  /** The `options` path casts back to the subdocument's options. */
  lemma WireCastOptions(q: Question)
    requires CastImage(q)
    ensures CastOptions(Get(ToWire(q), "options"), q.qtype) == CastOk(q.options)
  {
    WireLookup(q, "options");
    var o := Get(ToWire(q), "options");
    assert o == OptionsValue(q.options);
    match q.options
    case NoOptions =>
      assert o.None?;
    case NullOptions =>
      assert o == Some(JNull);
    case OptionList(items) =>
      CastItemsOfStrings(items);
  }
}
