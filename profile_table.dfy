/**
 * The table component's state and handlers: the loaded profiles, the query
 * state the user edits, and the effect that recomputes the visible list
 * whenever any of them changes.
 */
module TableComponent {
  import opened Types
  import opened Text
  import opened StableSort
  import opened QueryPipeline
  import opened TagVocabulary

  /** `sortDirection === 'asc' ? 'desc' : 'asc'`. */
  function Flipped(dir: SortDirection): (r: SortDirection)
    ensures r != dir
  {
    if dir == Asc then Desc else Asc
  }

  /** The set after one click on a tag's checkbox: `delete` when present, `add` when absent. */
  function Toggled(selected: set<string>, tag: string): (r: set<string>)
    ensures tag in r <==> tag !in selected
    ensures r - {tag} == selected - {tag}
  {
    if tag in selected then selected - {tag} else selected + {tag}
  }

  /** Clicking the same tag twice restores the selection. */
  lemma ToggleTwice(selected: set<string>, tag: string)
    ensures Toggled(Toggled(selected, tag), tag) == selected
  {
    var once := Toggled(selected, tag);
    var twice := Toggled(once, tag);
    assert twice - {tag} == selected - {tag};
    assert tag in twice <==> tag in selected;
    forall t
      ensures t in twice <==> t in selected
    {
      if t != tag {
        assert t in twice <==> t in twice - {tag};
        assert t in selected <==> t in selected - {tag};
      }
    }
  }

  /** Toggling one tag changes only that tag's membership. */
  lemma ToggleOthersUnchanged(selected: set<string>, tag: string, other: string)
    requires other != tag
    ensures other in Toggled(selected, tag) <==> other in selected
  {
    assert other in Toggled(selected, tag) <==> other in Toggled(selected, tag) - {tag};
    assert other in selected <==> other in selected - {tag};
  }

  /**
   * The body of the filter effect: copy the loaded list, narrow it stage by
   * stage, then sort it in place when a sort column is chosen.
   */
  method FilterAndSort(profiles: seq<Profile>, q: Query) returns (filtered: seq<Profile>)
    ensures filtered == Visible(profiles, q)
    ensures forall p :: p in filtered <==> p in profiles && Survives(p, q)
  {
    filtered := profiles;
    filtered := SearchStage(filtered, q.search);
    filtered := TagStage(filtered, q.selectedSkills, Skills);
    filtered := TagStage(filtered, q.selectedFocusAreas, FocusAreas);
    filtered := TagStage(filtered, q.selectedExcellence, Excellence);
    filtered := TagStage(filtered, q.selectedDomains, Domains);
    match q.sortField {
      case None =>
      case Some(f) =>
        var a := new Profile[|filtered|](i requires 0 <= i < |filtered| => filtered[i]);
        assert a[..] == filtered;
        SortInPlace(a, f, q.sortDirection);
        filtered := a[..];
    }
    VisibleSpec(profiles, q);
  }

  /** The profile table: loaded profiles, the list on screen and the query state. */
  class ProfileTable {
    const profiles: seq<Profile>
    var filteredProfiles: seq<Profile>
    var searchQuery: string
    var selectedSkills: set<string>
    var selectedFocusAreas: set<string>
    var selectedExcellence: set<string>
    var selectedDomains: set<string>
    var sortField: SortField
    var sortDirection: SortDirection

    /** The query state as one value. */
    function CurrentQuery(): Query
      reads this
    {
      Query(searchQuery, selectedSkills, selectedFocusAreas, selectedExcellence, selectedDomains,
            sortField, sortDirection)
    }

    /** Whether the "Clear Filters" button shows: some search text, or some tag selected in some category. */
    predicate FiltersActive()
      reads this
      ensures FiltersActive() <==> CurrentQuery().search != "" || exists c :: CurrentQuery().Selected(c) != {}
    {
      if searchQuery != "" then true
      else if |selectedSkills| > 0 then assert CurrentQuery().Selected(Skills) != {}; true
      else if |selectedFocusAreas| > 0 then assert CurrentQuery().Selected(FocusAreas) != {}; true
      else if |selectedExcellence| > 0 then assert CurrentQuery().Selected(Excellence) != {}; true
      else if |selectedDomains| > 0 then assert CurrentQuery().Selected(Domains) != {}; true
      else false
    }

    /** The options of the filter for category `c`, from the loaded profiles alone. */
    function Options(c: TagCategory): (r: seq<string>)
      ensures StrictlySorted(r)
      ensures forall t :: t in r <==> exists i :: 0 <= i < |profiles| && Tags(profiles[i], c).Some? && t in Tags(profiles[i], c).value
    {
      VocabularySpec(profiles, c);
      Vocabulary(profiles, c)
    }

    /** The component as first rendered with the loaded list: empty query, unsorted, ascending. */
    constructor (loaded: seq<Profile>)
      ensures profiles == loaded && filteredProfiles == []
      ensures CurrentQuery() == Query("", {}, {}, {}, {}, None, Asc)
    {
      profiles := loaded;
      filteredProfiles := [];
      searchQuery := "";
      selectedSkills, selectedFocusAreas, selectedExcellence, selectedDomains := {}, {}, {}, {};
      sortField := None;
      sortDirection := Asc;
    }

    /** The filter effect: recompute the list on screen from the loaded list and the query. */
    method Refresh()
      modifies this`filteredProfiles
      ensures filteredProfiles == Visible(profiles, CurrentQuery())
      ensures forall p :: p in filteredProfiles <==> p in profiles && Survives(p, CurrentQuery())
    {
      filteredProfiles := FilterAndSort(profiles, CurrentQuery());
    }

    /** Typing in the search box. */
    method SetSearchQuery(text: string)
      modifies this`searchQuery
      ensures CurrentQuery() == old(CurrentQuery()).(search := text)
    {
      searchQuery := text;
    }

    /**
     * A click on a sortable column header: the same column flips the
     * direction, another column becomes the sort column in ascending order.
     */
    method HandleSort(field: SortField)
      modifies this`sortField, this`sortDirection
      ensures old(sortField) == field ==> sortField == field && sortDirection == Flipped(old(sortDirection))
      ensures old(sortField) != field ==> sortField == field && sortDirection == Asc
      ensures CurrentQuery() == old(CurrentQuery()).(sortField := sortField, sortDirection := sortDirection)
      ensures multiset(Visible(profiles, CurrentQuery())) == multiset(Visible(profiles, old(CurrentQuery())))
    {
      if sortField == field {
        sortDirection := Flipped(sortDirection);
      } else {
        sortField := field;
        sortDirection := Asc;
      }
      SortOnlyReorders(profiles, old(CurrentQuery()), sortField, sortDirection);
    }

    /** A click on a tag's checkbox in category `c`: only that category's set changes, in `tag` alone. */
    method ToggleTagFilter(tag: string, c: TagCategory)
      modifies this`selectedSkills, this`selectedFocusAreas, this`selectedExcellence, this`selectedDomains
      ensures CurrentQuery().Selected(c) == Toggled(old(CurrentQuery()).Selected(c), tag)
      ensures forall d :: d != c ==> CurrentQuery().Selected(d) == old(CurrentQuery()).Selected(d)
      ensures searchQuery == old(searchQuery) && sortField == old(sortField) && sortDirection == old(sortDirection)
    {
      match c {
        case Skills => selectedSkills := Toggled(selectedSkills, tag);
        case FocusAreas => selectedFocusAreas := Toggled(selectedFocusAreas, tag);
        case Excellence => selectedExcellence := Toggled(selectedExcellence, tag);
        case Domains => selectedDomains := Toggled(selectedDomains, tag);
      }
    }

    /**
     * The "Clear Filters" button: empties the search and all four selections
     * and keeps the sort, so the list on screen becomes the loaded list in the
     * current sort order.
     */
    method ClearAllFilters()
      modifies this`searchQuery, this`selectedSkills, this`selectedFocusAreas, this`selectedExcellence, this`selectedDomains
      ensures CurrentQuery() == Query("", {}, {}, {}, {}, old(sortField), old(sortDirection))
      ensures !FiltersActive()
      ensures Visible(profiles, CurrentQuery()) == SortStage(profiles, sortField, sortDirection)
    {
      searchQuery := "";
      selectedSkills := {};
      selectedFocusAreas := {};
      selectedExcellence := {};
      selectedDomains := {};
      VisibleAfterClear(profiles, sortField, sortDirection);
    }
  }
}
