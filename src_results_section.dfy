/** src/components/ResultsSection.jsx: the list of generated questions with a search box,
    per-question expansion of the options, and editing and deleting that only notify.

    The component's state variables are fields of `ResultsSection`, and so is its
    `questions` prop, which no handler replaces; the toasts are recorded as a list. */
module SrcResults {
  import opened Basics
  import opened Strings
  import opened Lists

  /** An option of a question: its text and whether it is the correct one. */
  datatype AnswerOption = AnswerOption(text: string, correct: bool)

  /** A question as this component reads it; `kind` is its `type`. */
  datatype Question = Question(id: int, text: string, kind: string, difficulty: string, options: Option<seq<AnswerOption>>)

  /** The search test: the lowercased text, or the lowercased text of some option, contains
      the lowercased query. */
  predicate Matches(q: Question, query: string) {
    || Contains(Lower(q.text), Lower(query))
    || (q.options.Some? && exists i | 0 <= i < |q.options.value| :: Contains(Lower(q.options.value[i].text), Lower(query)))
  }

  /** `filteredQuestions`: the questions that match, in their order, every copy of each kept. */
  function FilteredQuestions(questions: seq<Question>, query: string): (r: seq<Question>)
    ensures IsSubsequence(r, questions)
    ensures forall q :: q in r <==> q in questions && Matches(q, query)
    ensures forall i :: 0 <= i < |questions| ==>
              multiset(r)[questions[i]] == if Matches(questions[i], query) then multiset(questions)[questions[i]] else 0
  {
    var keep := q => Matches(q, query);
    FilterCounts(questions, keep);
    Filter(questions, keep)
  }

  /** The empty query keeps every question. */
  lemma EmptyQueryKeepsAll(questions: seq<Question>)
    ensures FilteredQuestions(questions, "") == questions
  {
    assert Lower("") == "";
    forall i | 0 <= i < |questions| ensures Matches(questions[i], "") {
      ContainsEmpty(Lower(questions[i].text));
    }
    FilterAll(questions, q => Matches(q, ""));
  }

  /** A question whose text or one of whose options contains the query verbatim is kept. */
  lemma ExactMatchKept(questions: seq<Question>, query: string, k: nat)
    requires k < |questions|
    requires Contains(questions[k].text, query)
             || (questions[k].options.Some? && exists i | 0 <= i < |questions[k].options.value| :: Contains(questions[k].options.value[i].text, query))
    ensures questions[k] in FilteredQuestions(questions, query)
  {
    var q := questions[k];
    if Contains(q.text, query) {
      ContainsLower(q.text, query);
    } else {
      var i :| 0 <= i < |q.options.value| && Contains(q.options.value[i].text, query);
      ContainsLower(q.options.value[i].text, query);
    }
  }

  /** The search ignores the case of the query. */
  lemma QueryCaseIgnored(q: Question, query: string)
    ensures Matches(q, Lower(query)) <==> Matches(q, query)
  {
    LowerIdempotent(query);
  }

  /** The placeholder replaces the list when `questions` is absent or empty. */
  function ShowsPlaceholder(questions: Option<seq<Question>>): (b: bool)
    ensures b <==> questions.None? || |questions.value| == 0
  {
    questions.None? || |questions.value| == 0
  }

  /** An empty list is never rendered without a message: either the placeholder replaces
      the list, or the query is non-empty and "No questions match your search." shows. */
  lemma EmptyListHasMessage(questions: seq<Question>, query: string)
    requires |FilteredQuestions(questions, query)| == 0
    ensures ShowsPlaceholder(Some(questions)) || query != ""
  {
    if query == "" {
      EmptyQueryKeepsAll(questions);
    }
  }

  class ResultsSection {
    var questions: seq<Question>
    var expandedQuestions: seq<int>
    var searchQuery: string
    var editingQuestion: Option<int>
    var editText: string
    var toasts: seq<Toast>

    /** The expanded ids are distinct. */
    predicate Valid()
      reads this
    {
      NoDuplicates(expandedQuestions)
    }

    constructor (questions: seq<Question>)
      ensures Valid()
      ensures this.questions == questions && expandedQuestions == [] && searchQuery == ""
      ensures editingQuestion.None? && editText == "" && toasts == []
    {
      this.questions := questions;
      expandedQuestions, searchQuery, editingQuestion, editText, toasts := [], "", None, "", [];
    }

    /** The list as rendered. */
    function Filtered(): seq<Question>
      reads this
    {
      FilteredQuestions(questions, searchQuery)
    }

    /** "No questions match your search." is shown when nothing matches a non-empty query. */
    predicate ShowsNoMatch()
      reads this
    {
      |Filtered()| == 0 && searchQuery != ""
    }

    /** `toggleExpanded`: flips the membership of `id` and no other. */
    method ToggleExpanded(id: int)
      requires Valid()
      modifies this
      ensures Valid()
      ensures expandedQuestions == Toggle(old(expandedQuestions), id)
      ensures questions == old(questions) && searchQuery == old(searchQuery)
      ensures editingQuestion == old(editingQuestion) && editText == old(editText) && toasts == old(toasts)
    {
      ToggleNoDuplicates(expandedQuestions, id);
      var prev := expandedQuestions;
      expandedQuestions := if id in prev then Remove(prev, id) else prev + [id];
    }

    /** `handleSearchChange`. */
    method HandleSearchChange(value: string)
      requires Valid()
      modifies this
      ensures Valid()
      ensures searchQuery == value
      ensures questions == old(questions) && expandedQuestions == old(expandedQuestions)
      ensures editingQuestion == old(editingQuestion) && editText == old(editText) && toasts == old(toasts)
    {
      searchQuery := value;
    }

    /** "Clear search": the query is emptied, so the whole list is shown again. */
    method ClearSearch()
      requires Valid()
      modifies this
      ensures Valid()
      ensures searchQuery == "" && Filtered() == questions
      ensures questions == old(questions) && expandedQuestions == old(expandedQuestions)
      ensures editingQuestion == old(editingQuestion) && editText == old(editText) && toasts == old(toasts)
    {
      searchQuery := "";
      EmptyQueryKeepsAll(questions);
    }

    /** `startEditing`: the question's id is being edited, starting from its text. */
    method StartEditing(question: Question)
      requires Valid()
      modifies this
      ensures Valid()
      ensures editingQuestion == Some(question.id) && editText == question.text
      ensures questions == old(questions) && expandedQuestions == old(expandedQuestions)
      ensures searchQuery == old(searchQuery) && toasts == old(toasts)
    {
      editingQuestion := Some(question.id);
      editText := question.text;
    }

    /** `saveEdit`: only a toast and the end of editing; the questions are not touched. */
    method SaveEdit(id: int)
      requires Valid()
      modifies this
      ensures Valid()
      ensures editingQuestion.None? && toasts == old(toasts) + [SuccessToast("Question updated successfully")]
      ensures questions == old(questions) && expandedQuestions == old(expandedQuestions)
      ensures searchQuery == old(searchQuery) && editText == old(editText)
    {
      toasts := toasts + [SuccessToast("Question updated successfully")];
      editingQuestion := None;
    }

    /** `cancelEdit`. */
    method CancelEdit()
      requires Valid()
      modifies this
      ensures Valid()
      ensures editingQuestion.None?
      ensures questions == old(questions) && expandedQuestions == old(expandedQuestions)
      ensures searchQuery == old(searchQuery) && editText == old(editText) && toasts == old(toasts)
    {
      editingQuestion := None;
    }

    /** `deleteQuestion`: only a toast; the question stays. */
    method DeleteQuestion(id: int)
      requires Valid()
      modifies this
      ensures Valid()
      ensures toasts == old(toasts) + [SuccessToast("Question removed")]
      ensures questions == old(questions) && expandedQuestions == old(expandedQuestions)
      ensures searchQuery == old(searchQuery) && editingQuestion == old(editingQuestion) && editText == old(editText)
    {
      toasts := toasts + [SuccessToast("Question removed")];
    }
  }
}
