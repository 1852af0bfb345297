/** frontend/src/components/ResultsSection.jsx: the list of generated questions the dashboard
    shows, with per-question expansion of the options of multiple-choice questions.

    This copy renders no search box: `searchQuery` starts as "" and its only setters are
    the unused `handleSearchChange` and "Clear search", which sets "" again and is itself
    rendered only behind a non-empty query, so the query is always empty. No Edit button is
    rendered either, so `startEditing` is never called. `ClearSearch` and `StartEditing`
    model these two dead handlers as written. The component's state variables and its
    `questions` prop are fields of `ResultsSection`. */
module FrontendResults {
  import opened Basics
  import opened Strings
  import opened Lists

  /** A generated question as this component reads it: its text, its `type`, and its options,
      which the generator returns as strings. */
  datatype DisplayedQuestion = DisplayedQuestion(question: string, kind: string, options: Option<seq<string>>)

  /** The first disjunct of the filter: the lowercased text contains the lowercased query. */
  predicate TextMatches(q: DisplayedQuestion, query: string) {
    Contains(Lower(q.question), Lower(query))
  }

  /** The filter gets to its second disjunct with options to look at, and there reads
      `opt.text.toLowerCase()` of a string option, which throws. */
  predicate ReachesOptionText(q: DisplayedQuestion, query: string) {
    !TextMatches(q, query) && q.options.Some? && |q.options.value| != 0
  }

  /** `filteredQuestions`: the questions whose text matches, in their order; `None` when the
      callback throws on some question. */
  function FilteredQuestions(questions: seq<DisplayedQuestion>, query: string): (r: Option<seq<DisplayedQuestion>>)
    ensures r.None? <==> exists i | 0 <= i < |questions| :: ReachesOptionText(questions[i], query)
    ensures r.Some? ==> IsSubsequence(r.value, questions)
    ensures r.Some? ==> forall q :: q in r.value <==> q in questions && TextMatches(q, query)
    ensures r.Some? ==> forall i :: 0 <= i < |questions| ==>
              multiset(r.value)[questions[i]] == if TextMatches(questions[i], query) then multiset(questions)[questions[i]] else 0
  {
    if exists i | 0 <= i < |questions| :: ReachesOptionText(questions[i], query) then None
    else
      var keep := q => TextMatches(q, query);
      FilterCounts(questions, keep);
      Some(Filter(questions, keep))
  }

  /** With the empty query, the only one this copy ever has, every question is shown. */
  lemma EmptyQueryShowsAll(questions: seq<DisplayedQuestion>)
    ensures FilteredQuestions(questions, "") == Some(questions)
  {
    assert Lower("") == "";
    forall i | 0 <= i < |questions| ensures TextMatches(questions[i], "") {
      ContainsEmpty(Lower(questions[i].question));
    }
    FilterAll(questions, q => TextMatches(q, ""));
  }

  /** A question whose text contains the query, whatever the case, is shown when the filter
      does not throw. */
  lemma MatchingTextShown(questions: seq<DisplayedQuestion>, query: string, k: nat)
    requires k < |questions| && Contains(questions[k].question, query)
    requires FilteredQuestions(questions, query).Some?
    ensures questions[k] in FilteredQuestions(questions, query).value
  {
    ContainsLower(questions[k].question, query);
  }

  /** The placeholder replaces the list when `questions` is absent or empty. */
  function ShowsPlaceholder(questions: Option<seq<DisplayedQuestion>>): (b: bool)
    ensures b <==> questions.None? || |questions.value| == 0
  {
    questions.None? || |questions.value| == 0
  }

  /** With the empty query an empty list is never rendered: it can only come from no
      questions, and then the placeholder replaces the list. */
  lemma EmptyListIsPlaceholder(questions: seq<DisplayedQuestion>)
    requires FilteredQuestions(questions, "") == Some([])
    ensures ShowsPlaceholder(Some(questions))
  {
    EmptyQueryShowsAll(questions);
  }

  class ResultsSection {
    var questions: seq<DisplayedQuestion>
    var expandedQuestions: seq<int>
    var searchQuery: string
    var editingQuestion: Option<int>
    var editText: string

    /** The expanded indices are distinct and the query is empty. */
    predicate Valid()
      reads this
    {
      NoDuplicates(expandedQuestions) && searchQuery == ""
    }

    constructor (questions: seq<DisplayedQuestion>)
      ensures Valid()
      ensures this.questions == questions && expandedQuestions == [] && editingQuestion.None? && editText == ""
    {
      this.questions := questions;
      expandedQuestions, searchQuery, editingQuestion, editText := [], "", None, "";
    }

    /** The list as rendered: all the questions. */
    function Filtered(): (r: Option<seq<DisplayedQuestion>>)
      requires Valid()
      reads this
      ensures r == Some(questions)
    {
      EmptyQueryShowsAll(questions);
      FilteredQuestions(questions, searchQuery)
    }

    /** `toggleExpanded`: flips the membership of the list index and no other. */
    method ToggleExpanded(index: int)
      requires Valid()
      modifies this
      ensures Valid()
      ensures expandedQuestions == Toggle(old(expandedQuestions), index)
      ensures questions == old(questions) && editingQuestion == old(editingQuestion) && editText == old(editText)
    {
      ToggleNoDuplicates(expandedQuestions, index);
      var prev := expandedQuestions;
      expandedQuestions := if index in prev then Remove(prev, index) else prev + [index];
    }

    /** "Clear search", shown when nothing matches a non-empty query. */
    method ClearSearch()
      requires Valid()
      modifies this
      ensures Valid()
      ensures questions == old(questions) && expandedQuestions == old(expandedQuestions)
      ensures editingQuestion == old(editingQuestion) && editText == old(editText)
    {
      searchQuery := "";
    }

    /** `startEditing`. */
    method StartEditing(index: int, questionText: string)
      requires Valid()
      modifies this
      ensures Valid()
      ensures editingQuestion == Some(index) && editText == questionText
      ensures questions == old(questions) && expandedQuestions == old(expandedQuestions)
    {
      editingQuestion := Some(index);
      editText := questionText;
    }

    /** `cancelEdit`. */
    method CancelEdit()
      requires Valid()
      modifies this
      ensures Valid()
      ensures editingQuestion.None?
      ensures questions == old(questions) && expandedQuestions == old(expandedQuestions) && editText == old(editText)
    {
      editingQuestion := None;
    }
  }
}
