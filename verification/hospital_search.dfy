/** The hospital autocomplete: a fixed catalogue of Delhi government
    hospitals, the case-insensitive filter that runs whenever the search term
    changes, and the small state machine of term, result list, drop-down
    visibility and selected hospital. */
module HospitalSearch {
  import opened Wrappers
  import opened Text
  import opened Sequences

  /** A catalogue entry; the map coordinates are not modelled. */
  datatype Hospital = Hospital(id: nat, name: string, address: string)

  const Catalogue: seq<Hospital> := [
    Hospital(1, "All India Institute of Medical Sciences (AIIMS)", "Sri Aurobindo Marg, Ansari Nagar, New Delhi - 110029"),
    Hospital(2, "Safdarjung Hospital", "Safdarjung Enclave, New Delhi - 110029"),
    Hospital(3, "Ram Manohar Lohia Hospital", "Park Street, New Delhi - 110001"),
    Hospital(4, "Guru Teg Bahadur Hospital", "Dilshad Garden, New Delhi - 110095"),
    Hospital(5, "Lok Nayak Hospital", "Jawahar Lal Nehru Marg, New Delhi - 110002"),
    Hospital(6, "Lady Hardinge Medical College & Hospital", "Shaheed Bhagat Singh Marg, New Delhi - 110001"),
    Hospital(7, "Maulana Azad Medical College & Hospital", "Bahadur Shah Zafar Marg, New Delhi - 110002"),
    Hospital(8, "Hindu Rao Hospital", "Malka Ganj, New Delhi - 110007"),
    Hospital(9, "Delhi Heart & Lung Institute", "Panchkuian Road, New Delhi - 110055"),
    Hospital(10, "Rajiv Gandhi Super Speciality Hospital", "Tahirpur, New Delhi - 110093"),
    Hospital(11, "Guru Nanak Eye Centre", "Maharaja Ranjit Singh Marg, New Delhi - 110002"),
    Hospital(12, "Dr. Baba Saheb Ambedkar Hospital", "Sector 6, Rohini, New Delhi - 110085"),
    Hospital(13, "Deen Dayal Upadhyay Hospital", "Hari Nagar, New Delhi - 110064"),
    Hospital(14, "Sanjay Gandhi Memorial Hospital", "Mangolpuri, New Delhi - 110083"),
    Hospital(15, "Bhagwan Mahavir Hospital", "Pitampura, New Delhi - 110088")
  ]

  /** Shortest term for which the filter runs. */
  const MinTermLength: nat := 2

  /** The filter's test: the lowered term occurs in the lowered name or address. */
  predicate Matches(h: Hospital, term: string) {
    Includes(Lower(h.name), Lower(term)) || Includes(Lower(h.address), Lower(term))
  }

  /** `hospitals.filter(...)`: the matching entries, in catalogue order. */
  function Filter(hs: seq<Hospital>, term: string): (r: seq<Hospital>)
    ensures |r| <= |hs|
    ensures forall h :: h in r <==> h in hs && Matches(h, term)
  {
    if hs == [] then []
    else if Matches(hs[0], term) then [hs[0]] + Filter(hs[1..], term)
    else Filter(hs[1..], term)
  }

  /** `a` is `b` with some entries dropped and the rest kept in order. */
  ghost predicate IsSubsequence<T>(a: seq<T>, b: seq<T>)
    decreases |b|
  {
    if a == [] then true
    else if b == [] then false
    else (a[0] == b[0] && IsSubsequence(a[1..], b[1..])) || IsSubsequence(a, b[1..])
  }

  /** The filter keeps catalogue order. */
  lemma {:induction false} FilterIsSubsequence(hs: seq<Hospital>, term: string)
    ensures IsSubsequence(Filter(hs, term), hs)
    decreases |hs|
  {
    if hs != [] {
      FilterIsSubsequence(hs[1..], term);
      if !Matches(hs[0], term) {
        SubsequenceOfTail(Filter(hs[1..], term), hs);
      }
    }
  }

  lemma SubsequenceOfTail<T>(a: seq<T>, b: seq<T>)
    requires b != [] && IsSubsequence(a, b[1..])
    ensures IsSubsequence(a, b)
  {
  }

  /** The filter never repeats an entry the catalogue lists once. */
  lemma {:induction false} FilterNoDuplicates(hs: seq<Hospital>, term: string)
    requires NoDuplicates(hs)
    ensures NoDuplicates(Filter(hs, term))
    decreases |hs|
  {
    if hs != [] {
      NoDuplicatesTail(hs);
      FilterNoDuplicates(hs[1..], term);
      var tail := Filter(hs[1..], term);
      if Matches(hs[0], term) {
        assert hs[0] !in hs[1..];
        var r := [hs[0]] + tail;
        forall i, j | 0 <= i < j < |r| ensures r[i] != r[j] {
          if i == 0 {
            assert r[j] == tail[j - 1] && r[j] in tail;
          } else {
            assert r[i] == tail[i - 1] && r[j] == tail[j - 1];
          }
        }
      }
    }
  }

  /** The catalogue's ids, and so its entries, are distinct. */
  lemma CatalogueDistinct()
    ensures forall i, j :: 0 <= i < j < |Catalogue| ==> Catalogue[i].id != Catalogue[j].id
    ensures NoDuplicates(Catalogue)
  {
  }

  /** Terms equal up to ASCII letter case give the same results. */
  lemma {:induction false} FilterCaseInsensitive(hs: seq<Hospital>, t1: string, t2: string)
    requires Lower(t1) == Lower(t2)
    ensures Filter(hs, t1) == Filter(hs, t2)
    decreases |hs|
  {
    if hs != [] {
      FilterCaseInsensitive(hs[1..], t1, t2);
    }
  }

  // ---------------------------------------------------------------------
  // Component state
  // ---------------------------------------------------------------------

  datatype SearchState = SearchState(
    term: string,
    results: seq<Hospital>,
    dropdownOpen: bool,
    selected: Option<Hospital>)

  const Initial: SearchState := SearchState("", [], false, None)

  /** Result list the filter effect computes for a term. */
  function ResultsFor(term: string): (r: seq<Hospital>)
    ensures |term| < MinTermLength ==> r == []
    ensures |term| >= MinTermLength ==> forall h :: h in r <==> h in Catalogue && Matches(h, term)
  {
    if |term| >= MinTermLength then Filter(Catalogue, term) else []
  }

  /** The effect that runs after the term changes: recompute the results and
      show the drop-down exactly when the term is long enough. */
  function FilterEffect(s: SearchState): (s': SearchState)
    ensures s'.term == s.term && s'.selected == s.selected
    ensures s'.dropdownOpen <==> |s.term| >= MinTermLength
    ensures |s.term| < MinTermLength ==> s'.results == []
    ensures forall h :: h in s'.results <==> |s.term| >= MinTermLength && h in Catalogue && Matches(h, s.term)
  {
    s.(results := ResultsFor(s.term), dropdownOpen := |s.term| >= MinTermLength)
  }

  /** Runs the effect only when a handler changed the term, as React does for
      an effect keyed on the term. */
  function Settle(before: SearchState, after: SearchState): SearchState {
    if after.term != before.term then FilterEffect(after) else after
  }

  /** The results always match the term, and the drop-down is only shown
      for a term long enough to filter. */
  ghost predicate Consistent(s: SearchState) {
    && s.results == ResultsFor(s.term)
    && (s.dropdownOpen ==> |s.term| >= MinTermLength)
  }

  /** `handleInputChange` followed by the filter effect: typing clears the
      selection exactly when the selected name no longer contains the typed
      value, letter case ignored. */
  function OnInput(s: SearchState, value: string): (s': SearchState)
    ensures s'.term == value
    ensures s.selected.None? ==> s'.selected.None?
    ensures s.selected.Some? ==>
              (s'.selected == s.selected <==> Contains(Lower(s.selected.value.name), Lower(value)))
    ensures s'.selected.Some? ==> s'.selected == s.selected
    ensures value != s.term ==> s'.dropdownOpen == (|value| >= MinTermLength) && s'.results == ResultsFor(value)
    ensures value == s.term ==> s'.results == s.results && s'.dropdownOpen == s.dropdownOpen
  {
    var cleared :=
      if s.selected.Some? && !Includes(Lower(s.selected.value.name), Lower(value)) then None
      else s.selected;
    Settle(s, s.(term := value, selected := cleared))
  }

  /** `handleHospitalSelect` as written, followed by the filter effect. The
      handler hides the drop-down, but it also changes the term, so the
      effect runs afterwards and shows the drop-down again. */
  function SelectAsWritten(s: SearchState, h: Hospital): (s': SearchState)
    ensures s'.selected == Some(h) && s'.term == h.name
    ensures s'.dropdownOpen <==> h.name != s.term && |h.name| >= MinTermLength
    ensures h.name != s.term ==> s'.results == ResultsFor(h.name)
    ensures h.name == s.term ==> s'.results == s.results
  {
    Settle(s, s.(selected := Some(h), term := h.name, dropdownOpen := false))
  }

  /** Selecting a hospital whose name differs from the current term leaves the
      drop-down open, listing the hospital just chosen. */
  lemma SelectAsWrittenReopens(s: SearchState, h: Hospital)
    requires h in Catalogue && h.name != s.term
    ensures SelectAsWritten(s, h).dropdownOpen
    ensures h in SelectAsWritten(s, h).results
  {
    ContainsSelfAndEmpty(Lower(h.name));
    assert |h.name| >= MinTermLength;
  }

  /** A concrete run: type "sa", pick Safdarjung Hospital, and the list is
      still showing. */
  lemma SelectAsWrittenExample()
    ensures var s := SelectAsWritten(OnInput(Initial, "sa"), Catalogue[1]);
            s.dropdownOpen && |s.results| > 0
  {
    SelectAsWrittenReopens(OnInput(Initial, "sa"), Catalogue[1]);
  }

  /** Selection as intended: the term becomes the hospital's name, the
      results follow the new term, and the drop-down stays hidden. */
  function Select(s: SearchState, h: Hospital): (s': SearchState)
    ensures s'.selected == Some(h) && s'.term == h.name
    ensures !s'.dropdownOpen
    ensures s'.results == ResultsFor(h.name)
  {
    s.(selected := Some(h), term := h.name, results := ResultsFor(h.name), dropdownOpen := false)
  }

  /** Retyping the selected hospital's name keeps it selected, in the
      component as written and with the corrected selection. */
  lemma RetypeNameKeepsSelection(s: SearchState, h: Hospital)
    ensures OnInput(SelectAsWritten(s, h), h.name).selected == Some(h)
    ensures OnInput(Select(s, h), h.name).selected == Some(h)
  {
    ContainsSelfAndEmpty(Lower(h.name));
  }

  /** Emptying the field does not clear the selection: every name contains
      the empty string. */
  lemma ClearingFieldKeepsSelection(s: SearchState)
    ensures OnInput(s, "").selected == s.selected
    ensures Consistent(s) ==> !OnInput(s, "").dropdownOpen
  {
    if s.selected.Some? {
      ContainsSelfAndEmpty(Lower(s.selected.value.name));
    }
  }

  /** `handleKeyDown`: Escape hides the drop-down and touches nothing else;
      other keys do nothing. */
  function OnKeyDown(s: SearchState, key: string): (s': SearchState)
    ensures key == "Escape" ==> !s'.dropdownOpen
    ensures s'.term == s.term && s'.selected == s.selected && s'.results == s.results
    ensures key != "Escape" ==> s' == s
  {
    if key == "Escape" then s.(dropdownOpen := false) else s
  }

  /** Focusing the field shows the drop-down again for a long enough term. */
  function OnFocus(s: SearchState): (s': SearchState)
    ensures s'.dropdownOpen <==> s.dropdownOpen || |s.term| >= MinTermLength
    ensures s'.(dropdownOpen := s.dropdownOpen) == s
  {
    if |s.term| >= MinTermLength then s.(dropdownOpen := true) else s
  }

  /** A mouse press outside the component hides the drop-down. */
  function OnClickOutside(s: SearchState): (s': SearchState)
    ensures !s'.dropdownOpen && s'.(dropdownOpen := s.dropdownOpen) == s
  {
    s.(dropdownOpen := false)
  }

  datatype Event =
    | Typed(value: string)
    | Picked(h: Hospital)
    | KeyDown(key: string)
    | Focused
    | ClickedOutside

  /** The component's state machine: every handler followed by the filter
      effect whenever it changed the term, selection as written. */
  function Step(s: SearchState, e: Event): SearchState {
    match e
    case Typed(v) => OnInput(s, v)
    case Picked(h) => SelectAsWritten(s, h)
    case KeyDown(k) => OnKeyDown(s, k)
    case Focused => OnFocus(s)
    case ClickedOutside => OnClickOutside(s)
  }

  /** The same machine with the corrected selection. */
  function StepCorrected(s: SearchState, e: Event): SearchState {
    match e
    case Picked(h) => Select(s, h)
    case _ => Step(s, e)
  }

  /** The component starts with an empty term, no results and nothing selected. */
  lemma InitialConsistent()
    ensures Consistent(Initial)
  {
  }

  /** Every event keeps the results in step with the term and never shows the
      drop-down for a one-character term, in the component as written and
      with the corrected selection. */
  lemma StepPreservesConsistent(s: SearchState, e: Event)
    requires Consistent(s)
    ensures Consistent(Step(s, e))
    ensures Consistent(StepCorrected(s, e))
  {
  }

  /** What the component shows below the field. */
  datatype Dropdown = Hidden | ResultList(entries: seq<Hospital>) | NoResults(term: string)

  function Visible(s: SearchState): (d: Dropdown)
    ensures d.ResultList? ==> s.dropdownOpen && d.entries == s.results && |d.entries| > 0
    ensures d.NoResults? ==> s.dropdownOpen && s.results == [] && |s.term| >= MinTermLength
    ensures !s.dropdownOpen ==> d == Hidden
    ensures s.dropdownOpen && |s.results| > 0 ==> d == ResultList(s.results)
    ensures s.dropdownOpen && |s.term| >= MinTermLength && s.results == [] ==> d == NoResults(s.term)
  {
    if s.dropdownOpen && |s.results| > 0 then ResultList(s.results)
    else if s.dropdownOpen && |s.term| >= MinTermLength && |s.results| == 0 then NoResults(s.term)
    else Hidden
  }

  /** After a selection nothing is shown below the field. */
  lemma SelectHidesDropdown(s: SearchState, h: Hospital)
    ensures Visible(Select(s, h)) == Hidden
    ensures Visible(StepCorrected(Select(s, h), KeyDown("Escape"))) == Hidden
  {
  }
}
