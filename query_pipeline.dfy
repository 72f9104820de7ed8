/**
 * The filter-and-sort pipeline of the profile table: a free-text search over
 * four text columns, then one filter per tag category, then an optional sort.
 * The pipeline is a pure function of the loaded profiles and the query state.
 */
module QueryPipeline {
  import opened Types
  import opened Seqs
  import opened Text
  import opened StableSort

  /** The query state the table holds: search text, four selected tag sets, sort column and direction. */
  datatype Query = Query(
    search: string,
    selectedSkills: set<string>,
    selectedFocusAreas: set<string>,
    selectedExcellence: set<string>,
    selectedDomains: set<string>,
    sortField: SortField,
    sortDirection: SortDirection)
  {
    /** The selected set that filters category `c`. */
    function Selected(c: TagCategory): set<string>
    {
      match c
      case Skills => selectedSkills
      case FocusAreas => selectedFocusAreas
      case Excellence => selectedExcellence
      case Domains => selectedDomains
    }
  }

  // ---------------------------------------------------------------- search

  /** `field?.toLowerCase().includes(query)`: a null field is `undefined`, which never matches. */
  predicate FieldMatches(field: Option<string>, query: string)
    ensures FieldMatches(field, query) <==> field.Some? && exists i :: OccursAt(Lower(field.value), query, i)
  {
    match field
    case None => false
    case Some(text) => Includes(Lower(text), query)
  }

  /** The search predicate: the lower-cased query occurs in one of the four text columns. */
  predicate MatchesSearch(p: Profile, query: string)
    ensures MatchesSearch(p, query) ==>
      p.fullName.Some? || p.currentCompany.Some? || p.currentTitle.Some? || p.locationResolved.Some?
  {
    FieldMatches(p.fullName, query) || FieldMatches(p.currentCompany, query) ||
    FieldMatches(p.currentTitle, query) || FieldMatches(p.locationResolved, query)
  }

  /** The search stage: skipped for an empty search, otherwise a filter on the lower-cased query. */
  function SearchStage(ps: seq<Profile>, search: string): (r: seq<Profile>)
    ensures IsSubsequence(r, ps)
    ensures search == "" ==> r == ps
    ensures search != "" ==> forall p :: p in r <==> p in ps && MatchesSearch(p, Lower(search))
    ensures search != "" ==> forall p :: multiset(r)[p] == if MatchesSearch(p, Lower(search)) then multiset(ps)[p] else 0
  {
    if search == "" then
      SubsequenceRefl(ps);
      ps
    else
      var query := Lower(search);
      Filter(ps, p => MatchesSearch(p, query))
  }

  // ---------------------------------------------------------------- tags

  /** `tags.some(tag => selected.has(tag))`. */
  function AnySelected(tags: seq<string>, selected: set<string>): (b: bool)
    ensures b <==> exists i :: 0 <= i < |tags| && tags[i] in selected
  {
    if tags == [] then false
    else if tags[0] in selected then true
    else
      var rest := AnySelected(tags[1..], selected);
      assert forall i :: 1 <= i < |tags| ==> tags[i] == tags[1..][i - 1];
      rest
  }

  /** `tags?.some(...)`: a null tag list is `undefined`, which never passes. */
  predicate HasSelectedTag(tags: Option<seq<string>>, selected: set<string>)
    ensures HasSelectedTag(tags, selected) <==> tags.Some? && exists t :: t in tags.value && t in selected
  {
    match tags
    case None => false
    case Some(ts) =>
      if AnySelected(ts, selected) then
        var i :| 0 <= i < |ts| && ts[i] in selected;
        assert ts[i] in ts;
        true
      else
        false
  }

  /** One tag-category stage: skipped when nothing is selected, otherwise a filter. */
  function TagStage(ps: seq<Profile>, selected: set<string>, c: TagCategory): (r: seq<Profile>)
    ensures IsSubsequence(r, ps)
    ensures |selected| == 0 ==> r == ps
    ensures |selected| > 0 ==> forall p :: p in r <==> p in ps && HasSelectedTag(Tags(p, c), selected)
    ensures |selected| > 0 ==> forall p :: multiset(r)[p] == if HasSelectedTag(Tags(p, c), selected) then multiset(ps)[p] else 0
  {
    if |selected| > 0 then
      Filter(ps, p => HasSelectedTag(Tags(p, c), selected))
    else
      SubsequenceRefl(ps);
      ps
  }

  // ---------------------------------------------------------------- pipeline

  /** Search, then skills, focus areas, excellence and domains, in the source's order. */
  function FilterStages(ps: seq<Profile>, q: Query): (r: seq<Profile>)
    ensures IsSubsequence(r, ps)
  {
    var searched := SearchStage(ps, q.search);
    var bySkills := TagStage(searched, q.selectedSkills, Skills);
    var byFocus := TagStage(bySkills, q.selectedFocusAreas, FocusAreas);
    var byExcellence := TagStage(byFocus, q.selectedExcellence, Excellence);
    SubsequenceTrans(bySkills, searched, ps);
    SubsequenceTrans(byFocus, bySkills, ps);
    SubsequenceTrans(byExcellence, byFocus, ps);
    SubsequenceTrans(TagStage(byExcellence, q.selectedDomains, Domains), byExcellence, ps);
    TagStage(byExcellence, q.selectedDomains, Domains)
  }

  /** The sort stage: no sort column keeps the order as loaded; a sort column only reorders. */
  function SortStage(ps: seq<Profile>, field: SortField, dir: SortDirection): (r: seq<Profile>)
    ensures multiset(r) == multiset(ps)
    ensures field.Some? ==> Ordered(r, field.value, dir)
  {
    match field
    case None => ps
    case Some(f) =>
      SortByPermutes(ps, f, dir);
      SortByIsOrdered(ps, f, dir);
      SortBy(ps, f, dir)
  }

  /**
   * The profiles the table shows for query `q`: never a profile more often
   * than it was loaded, and in loaded order when no sort column is chosen.
   */
  function Visible(ps: seq<Profile>, q: Query): (r: seq<Profile>)
    ensures multiset(r) <= multiset(ps)
    ensures q.sortField.None? ==> IsSubsequence(r, ps)
  {
    SubsequenceMultiset(FilterStages(ps, q), ps);
    SortStage(FilterStages(ps, q), q.sortField, q.sortDirection)
  }

  // ---------------------------------------------------------------- what survives

  /** `text`, case-folded, contains `search`, case-folded; a null column contains nothing. */
  ghost predicate ContainsIgnoringCase(field: Option<string>, search: string)
  {
    field.Some? && exists i :: OccursAt(Lower(field.value), Lower(search), i)
  }

  /** The search keeps `p`: the search is empty, or one of the four columns contains it. */
  ghost predicate PassesSearch(p: Profile, search: string)
  {
    search == "" ||
    ContainsIgnoringCase(p.fullName, search) || ContainsIgnoringCase(p.currentCompany, search) ||
    ContainsIgnoringCase(p.currentTitle, search) || ContainsIgnoringCase(p.locationResolved, search)
  }

  /** A category keeps `p`: nothing is selected, or the tag list is present and shares a tag with the selection. */
  ghost predicate PassesCategory(tags: Option<seq<string>>, selected: set<string>)
  {
    selected == {} || (tags.Some? && exists t :: t in tags.value && t in selected)
  }

  /** `p` is shown: it passes the search and every category (AND across, OR within). */
  ghost predicate Survives(p: Profile, q: Query)
  {
    PassesSearch(p, q.search) && forall c :: PassesCategory(Tags(p, c), q.Selected(c))
  }

  lemma SearchStageSurvivors(ps: seq<Profile>, search: string, p: Profile)
    ensures p in SearchStage(ps, search) <==> p in ps && PassesSearch(p, search)
    ensures multiset(SearchStage(ps, search))[p] == if PassesSearch(p, search) then multiset(ps)[p] else 0
  {
  }

  lemma TagStageSurvivors(ps: seq<Profile>, selected: set<string>, c: TagCategory, p: Profile)
    ensures p in TagStage(ps, selected, c) <==> p in ps && PassesCategory(Tags(p, c), selected)
    ensures multiset(TagStage(ps, selected, c))[p] == if PassesCategory(Tags(p, c), selected) then multiset(ps)[p] else 0
  {
    if |selected| == 0 {
      assert selected == {};
    }
  }

  /** While a category is active, a profile whose tag list in it is null or empty is filtered out. */
  lemma MissingTagsExcluded(ps: seq<Profile>, selected: set<string>, c: TagCategory, p: Profile)
    requires |selected| > 0
    requires Tags(p, c).None? || Tags(p, c).value == []
    ensures p !in TagStage(ps, selected, c)
  {
  }

  /**
   * The filter stages keep the loaded order (they delete and never reorder)
   * and keep exactly the profiles that pass the search and every active category.
   */
  lemma FilterStagesSpec(ps: seq<Profile>, q: Query)
    ensures IsSubsequence(FilterStages(ps, q), ps)
    ensures forall p :: p in FilterStages(ps, q) <==> p in ps && Survives(p, q)
    ensures forall p :: multiset(FilterStages(ps, q))[p] == if p in ps && Survives(p, q) then multiset(ps)[p] else 0
  {
    var searched := SearchStage(ps, q.search);
    var bySkills := TagStage(searched, q.selectedSkills, Skills);
    var byFocus := TagStage(bySkills, q.selectedFocusAreas, FocusAreas);
    var byExcellence := TagStage(byFocus, q.selectedExcellence, Excellence);
    var r := TagStage(byExcellence, q.selectedDomains, Domains);
    SubsequenceTrans(bySkills, searched, ps);
    SubsequenceTrans(byFocus, bySkills, ps);
    SubsequenceTrans(byExcellence, byFocus, ps);
    SubsequenceTrans(r, byExcellence, ps);
    forall p
      ensures p in r <==> p in ps && Survives(p, q)
      ensures multiset(r)[p] == if p in ps && Survives(p, q) then multiset(ps)[p] else 0
    {
      SearchStageSurvivors(ps, q.search, p);
      TagStageSurvivors(searched, q.selectedSkills, Skills, p);
      TagStageSurvivors(bySkills, q.selectedFocusAreas, FocusAreas, p);
      TagStageSurvivors(byFocus, q.selectedExcellence, Excellence, p);
      TagStageSurvivors(byExcellence, q.selectedDomains, Domains, p);
      assert Survives(p, q) <==>
        PassesSearch(p, q.search) &&
        PassesCategory(Tags(p, Skills), q.selectedSkills) &&
        PassesCategory(Tags(p, FocusAreas), q.selectedFocusAreas) &&
        PassesCategory(Tags(p, Excellence), q.selectedExcellence) &&
        PassesCategory(Tags(p, Domains), q.selectedDomains);
    }
  }

  /**
   * What the table shows: exactly the surviving profiles, each as often as it
   * was loaded; in loaded order when unsorted, and otherwise the stable sort
   * of the filtered list by the chosen column.
   */
  lemma VisibleSpec(ps: seq<Profile>, q: Query)
    ensures forall p :: p in Visible(ps, q) <==> p in ps && Survives(p, q)
    ensures forall p :: multiset(Visible(ps, q))[p] == if p in ps && Survives(p, q) then multiset(ps)[p] else 0
    ensures multiset(Visible(ps, q)) == multiset(FilterStages(ps, q))
    ensures q.sortField.None? ==> IsSubsequence(Visible(ps, q), ps)
    ensures q.sortField.Some? ==> IsStableSortOf(Visible(ps, q), FilterStages(ps, q), q.sortField.value, q.sortDirection)
  {
    FilterStagesSpec(ps, q);
    var filtered := FilterStages(ps, q);
    match q.sortField
    case None =>
    case Some(f) =>
      SortByPermutes(filtered, f, q.sortDirection);
      SortByIsStableSort(filtered, f, q.sortDirection);
      forall p
        ensures p in Visible(ps, q) <==> p in filtered
      {
        assert p in Visible(ps, q) <==> p in multiset(Visible(ps, q));
      }
  }

  /** With an empty search, nothing selected and no sort column, the table shows the loaded list as it is. */
  lemma VisibleUnfiltered(ps: seq<Profile>, dir: SortDirection)
    ensures Visible(ps, Query("", {}, {}, {}, {}, None, dir)) == ps
  {
  }

  /** With the filters cleared, the table shows the loaded list sorted by the current sort setting. */
  lemma VisibleAfterClear(ps: seq<Profile>, field: SortField, dir: SortDirection)
    ensures Visible(ps, Query("", {}, {}, {}, {}, field, dir)) == SortStage(ps, field, dir)
  {
  }

  /** Changing the sort column or direction reorders the table but never changes which profiles it shows. */
  lemma SortOnlyReorders(ps: seq<Profile>, q: Query, field: SortField, dir: SortDirection)
    ensures multiset(Visible(ps, q.(sortField := field, sortDirection := dir))) == multiset(Visible(ps, q))
  {
    var filtered := FilterStages(ps, q);
    assert FilterStages(ps, q.(sortField := field, sortDirection := dir)) == filtered;
    if field.Some? {
      SortByPermutes(filtered, field.value, dir);
    }
    if q.sortField.Some? {
      SortByPermutes(filtered, q.sortField.value, q.sortDirection);
    }
  }

  /** The search ignores the case of the query. */
  lemma SearchIgnoresQueryCase(ps: seq<Profile>, q: Query)
    ensures Visible(ps, q.(search := Lower(q.search))) == Visible(ps, q)
  {
    LowerIdempotent(q.search);
  }
}
