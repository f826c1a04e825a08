/** The church selector: its search box, the select-all button and the
    per-church check boxes (src/components/ChurchSelector.tsx). The handlers
    compute the new selection and hand it to the page. */
module ChurchSelector {
  import opened Seqs
  import opened Strings
  import opened Types

  /** A church matches when its name or website contains the search term,
      ignoring case. */
  predicate MatchesTerm(c: Church, searchTerm: string)
  {
    Contains(Lower(c.name), Lower(searchTerm)) || Contains(Lower(c.websiteUrl), Lower(searchTerm))
  }

  /** `filteredChurches`. */
  function FilteredChurches(churches: seq<Church>, searchTerm: string): seq<Church>
  {
    Filter(churches, c => MatchesTerm(c, searchTerm))
  }

  function Ids(churches: seq<Church>): seq<string>
  {
    Map(churches, (c: Church) => c.id)
  }

  /** `handleSelectAll`: compares lengths only; equal lengths clear the
      selection, otherwise every listed church is selected. */
  function SelectAll(selected: seq<string>, filtered: seq<Church>): seq<string>
  {
    if |selected| == |filtered| then [] else Ids(filtered)
  }

  /** `handleSelectChurch`. */
  function SelectChurch(selected: seq<string>, churchId: string, checked: bool): seq<string>
  {
    if checked then selected + [churchId] else Filter(selected, id => id != churchId)
  }

  /** The caption of the select-all button. */
  function SelectAllLabel(selected: seq<string>, filtered: seq<Church>): string
  {
    if |selected| == |filtered| then "Deselect All" else "Select All"
  }

  // ----- search -----

  /** The empty term lists every church, in order. */
  lemma EmptyTermKeepsAll(churches: seq<Church>)
    ensures FilteredChurches(churches, "") == churches
  {
    forall c | c in churches ensures MatchesTerm(c, "") {
      ContainsEmpty(Lower(c.name));
    }
    FilterIdentity(churches, c => MatchesTerm(c, ""));
  }

  /** The listed churches keep their order, and a church is listed exactly when
      its name or website contains the term, ignoring case. */
  lemma FilteredChurchesSpec(churches: seq<Church>, searchTerm: string)
    ensures IsSubsequence(FilteredChurches(churches, searchTerm), churches)
    ensures forall c :: c in FilteredChurches(churches, searchTerm) <==> c in churches && MatchesTerm(c, searchTerm)
    ensures forall c :: multiset(FilteredChurches(churches, searchTerm))[c] ==
              if MatchesTerm(c, searchTerm) then multiset(churches)[c] else 0
  {
    FilterIsSubsequence(churches, c => MatchesTerm(c, searchTerm));
    FilterMultiset(churches, c => MatchesTerm(c, searchTerm));
  }

  // ----- select all -----

  /** Equal lengths clear the selection; otherwise the selection becomes the
      listed churches' ids, in list order. */
  lemma SelectAllSpec(selected: seq<string>, filtered: seq<Church>)
    ensures |selected| == |filtered| ==> SelectAll(selected, filtered) == []
    ensures |selected| != |filtered| ==>
              |SelectAll(selected, filtered)| == |filtered|
              && forall i :: 0 <= i < |filtered| ==> SelectAll(selected, filtered)[i] == filtered[i].id
  {
  }

  /** After selecting all, the button offers to deselect all. */
  lemma SelectAllThenDeselectLabel(selected: seq<string>, filtered: seq<Church>)
    requires |selected| != |filtered|
    ensures SelectAllLabel(SelectAll(selected, filtered), filtered) == "Deselect All"
  {
  }

  /** Pressing the button twice from a partial selection ends with nothing selected. */
  lemma SelectAllTwice(selected: seq<string>, filtered: seq<Church>)
    requires |selected| != |filtered|
    ensures SelectAll(SelectAll(selected, filtered), filtered) == []
  {
  }

  /** The caption reads "Deselect All" exactly when the button would clear the
      selection, except that with nothing listed a non-empty selection is
      cleared under the caption "Select All". */
  lemma LabelMatchesAction(selected: seq<string>, filtered: seq<Church>)
    ensures SelectAllLabel(selected, filtered) == "Deselect All" <==>
              (SelectAll(selected, filtered) == [] && (|filtered| == 0 ==> selected == []))
  {
  }

  // ----- check and uncheck -----

  /** Checking appends the id and keeps the earlier selection. */
  lemma CheckSpec(selected: seq<string>, churchId: string)
    ensures var r := SelectChurch(selected, churchId, true);
      |r| == |selected| + 1 && r[..|selected|] == selected && r[|selected|] == churchId
  {
  }

  /** Unchecking removes every copy of the id and keeps the other ids in order. */
  lemma UncheckSpec(selected: seq<string>, churchId: string)
    ensures churchId !in SelectChurch(selected, churchId, false)
    ensures IsSubsequence(SelectChurch(selected, churchId, false), selected)
    ensures forall id :: id in selected && id != churchId ==> id in SelectChurch(selected, churchId, false)
    ensures forall id :: multiset(SelectChurch(selected, churchId, false))[id] ==
              if id == churchId then 0 else multiset(selected)[id]
  {
    FilterIsSubsequence(selected, id => id != churchId);
    FilterMultiset(selected, id => id != churchId);
  }

  /** Checking and then unchecking an unselected church restores the selection. */
  lemma CheckThenUncheck(selected: seq<string>, churchId: string)
    requires churchId !in selected
    ensures SelectChurch(SelectChurch(selected, churchId, true), churchId, false) == selected
  {
    FilterAppend(selected, [churchId], id => id != churchId);
    FilterIdentity(selected, id => id != churchId);
  }
}
