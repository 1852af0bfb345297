/** frontend/src/components/QuestionTypeSelector.jsx: the four question-type cards and the
    selection of type ids the user builds from them. The selection starts as `['mcq']`, a
    card click toggles its id (but never removes the last one), and two buttons select
    every type or fall back to `['mcq']`.

    The `selectedTypes` state is the field of `QuestionTypeSelector`; the
    `onSelectionChange` callback is recorded as the list of selections it was given. */
module QuestionTypes {
  import opened Lists

  /** One card of the `questionTypes` list (its icon is not modelled). */
  datatype QuestionTypeCard = QuestionTypeCard(id: string, title: string)

  const Catalogue: seq<QuestionTypeCard> := [
    QuestionTypeCard("mcq", "Multiple Choice"),
    QuestionTypeCard("shortAnswer", "Short Answer"),
    QuestionTypeCard("longAnswer", "Long Answer"),
    QuestionTypeCard("fillblanks", "Fill in the Blanks")
  ]

  /** `questionTypes.map(type => type.id)`. */
  function Ids(cards: seq<QuestionTypeCard>): (r: seq<string>)
    ensures |r| == |cards|
    ensures forall i :: 0 <= i < |r| ==> r[i] == cards[i].id
  {
    if cards == [] then [] else [cards[0].id] + Ids(cards[1..])
  }

  /** The ids of the catalogue, in declaration order; they are distinct. */
  lemma CatalogueIds()
    ensures Ids(Catalogue) == ["mcq", "shortAnswer", "longAnswer", "fillblanks"]
    ensures NoDuplicates(Ids(Catalogue))
  {
  }

  /** What the component keeps true of its selection: not empty, no id twice, and only ids of
      the catalogue. */
  predicate SelectionValid(selected: seq<string>) {
    && selected != []
    && NoDuplicates(selected)
    && forall i :: 0 <= i < |selected| ==> selected[i] in Ids(Catalogue)
  }

  /** The updater `toggleSelection` hands to `setSelectedTypes`. */
  function ToggledSelection(prev: seq<string>, typeId: string): seq<string> {
    if typeId in prev then
      if |prev| > 1 then Remove(prev, typeId) else prev
    else prev + [typeId]
  }

  /** Toggling a catalogue id keeps the selection valid. */
  lemma ToggleKeepsValid(prev: seq<string>, typeId: string)
    requires SelectionValid(prev) && typeId in Ids(Catalogue)
    ensures SelectionValid(ToggledSelection(prev, typeId))
  {
    var r := ToggledSelection(prev, typeId);
    if typeId in prev {
      if |prev| > 1 {
        RemoveNoDuplicates(prev, typeId);
        assert |r| == |prev| - 1;
      }
    } else {
      AppendNoDuplicates(prev, typeId);
    }
  }

  /** A selected id is removed, and nothing else, when it is not the only one (the others
      keep their order); the only selected id stays; an unselected id is appended at the end. */
  lemma ToggleEffect(prev: seq<string>, typeId: string)
    requires NoDuplicates(prev)
    ensures var r := ToggledSelection(prev, typeId);
            && (typeId in prev && |prev| > 1 ==>
                  typeId !in r && |r| == |prev| - 1 && IsSubsequence(r, prev)
                  && forall x :: x != typeId ==> (x in r <==> x in prev))
            && (prev == [typeId] ==> r == prev)
            && (typeId !in prev ==> r == prev + [typeId])
  {
    if typeId in prev && |prev| > 1 {
      RemoveNoDuplicates(prev, typeId);
      RemoveKeepsOrder(prev, typeId);
    }
  }

  /** The selection changes exactly when the id is absent or is not the only one selected. */
  lemma ToggleChanges(prev: seq<string>, typeId: string)
    requires NoDuplicates(prev)
    ensures ToggledSelection(prev, typeId) != prev <==> typeId !in prev || |prev| > 1
  {
    var r := ToggledSelection(prev, typeId);
    if typeId in prev && |prev| > 1 {
      RemoveNoDuplicates(prev, typeId);
      assert |r| != |prev|;
    } else if typeId !in prev {
      assert |r| != |prev|;
    }
  }

  /** The component's state. */
  class QuestionTypeSelector {
    var selectedTypes: seq<string>
    var notified: seq<seq<string>>

    predicate Valid()
      reads this
    {
      SelectionValid(selectedTypes)
    }

    constructor ()
      ensures Valid()
      ensures selectedTypes == ["mcq"] && notified == []
    {
      selectedTypes, notified := ["mcq"], [];
    }

    /** `toggleSelection`, called with the id of a rendered card: the callback hears the new
        selection whenever it changes, and nothing otherwise. */
    method ToggleSelection(typeId: string)
      requires Valid() && typeId in Ids(Catalogue)
      modifies this
      ensures Valid()
      ensures selectedTypes == ToggledSelection(old(selectedTypes), typeId)
      ensures notified == if selectedTypes != old(selectedTypes) then old(notified) + [selectedTypes] else old(notified)
    {
      ToggleKeepsValid(selectedTypes, typeId);
      ToggleChanges(selectedTypes, typeId);
      var prevSelected := selectedTypes;
      if typeId in prevSelected {
        if |prevSelected| > 1 {
          var newSelection := Remove(prevSelected, typeId);
          notified := notified + [newSelection];
          selectedTypes := newSelection;
        }
        return;
      }
      var newSelection := prevSelected + [typeId];
      notified := notified + [newSelection];
      selectedTypes := newSelection;
    }

    /** `selectAll`: every catalogue id, in declaration order, also handed to the callback. */
    method SelectAll()
      modifies this
      ensures Valid()
      ensures selectedTypes == ["mcq", "shortAnswer", "longAnswer", "fillblanks"]
      ensures notified == old(notified) + [selectedTypes]
    {
      CatalogueIds();
      var allTypeIds := Ids(Catalogue);
      selectedTypes := allTypeIds;
      notified := notified + [allTypeIds];
    }

    /** `clearAll`: back to `['mcq']`, also handed to the callback. */
    method ClearAll()
      modifies this
      ensures Valid()
      ensures selectedTypes == ["mcq"]
      ensures notified == old(notified) + [["mcq"]]
    {
      CatalogueIds();
      selectedTypes := ["mcq"];
      notified := notified + [["mcq"]];
    }
  }
}
