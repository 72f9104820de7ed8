# Profile table query engine

A Dafny model of the client-side query engine of the recruiting database's
profile table (`app/components/ProfileTable.tsx`). The table loads a list of
`Profile` records once; from then on, everything it shows comes from that
list and a small query state:

- a free-text search;
- four sets of selected tags (skills, focus areas, excellence, domains);
- an optional sort column with a direction.

The model has one module per part:

| module | file | models |
|---|---|---|
| `Types` | `types.dfy` | the `Profile` record, `SortField`, `SortDirection` of `app/types.ts`, and the four tag categories |
| `Seqs` | `seqs.dfy` | `Array.prototype.filter` as an order-preserving `Filter`, the subsequence relation, small facts about sequences |
| `Text` | `text.dfy` | ASCII `toLowerCase`, `String.prototype.includes`, and the code-unit order that `sort()` uses on strings |
| `StableSort` | `stable_sort.dfy` | the numeric comparator with null read as 0; a stable sort specified by key classes; the in-place insertion sort on an `array` |
| `QueryPipeline` | `query_pipeline.dfy` | the filter effect as a pure function `Visible` of the loaded list and the query, with its stages |
| `TagVocabulary` | `tag_vocabulary.dfy` | the option lists of the four tag filters |
| `TableComponent` | `profile_table.dfy` | the component: a class with the query state, the filter effect, and the handlers `handleSort`, `toggleTagFilter`, `clearAllFilters` |

The filter effect is modelled twice:

- `TableComponent.FilterAndSort` works the way the component does: it reassigns the local list stage by stage, then sorts a copy in place in an array.
- `QueryPipeline.Visible` is the same computation as a pure function.

The method is proved to return exactly `Visible`. The lemmas about `Visible` state what the table shows:

- exactly the profiles that pass the search and every active tag category;
- each as often as it was loaded (`QueryPipeline.VisibleSpec`);
- in loaded order when unsorted, and otherwise the stable sort of the filtered list.

`Array.prototype.sort` is required to be stable (ECMA-262, 2019 edition,
section 22.1.3.27). The model sorts by insertion. `StableSort.StableSortUnique`
proves that every stable sort with this comparator gives the same sequence,
so the result does not depend on which sorting algorithm the JavaScript
engine uses.

The tag options (`ProfileTable.Options`) are a function of the loaded
profiles alone. `profiles` is a constant field, and `Options` has no `reads`
clause, so the search text and the selected sets cannot affect the options.

## Model

| member | source | states |
|---|---|---|
| `Text.Includes` | app/components/ProfileTable.tsx:68-71 | `includes` holds exactly when the needle occurs as a contiguous block at some position of the haystack |
| `Text.LowerChar` | app/components/ProfileTable.tsx:66 | `toLowerCase` on one character: `A`–`Z` move to `a`–`z`, every other character is kept |
| `Text.Lower` | app/components/ProfileTable.tsx:66-71 | `toLowerCase` on a string keeps its length and lower-cases each character |
| `Text.LowerIdempotent` | app/components/ProfileTable.tsx:66-71 | lower-casing twice is lower-casing once, and a lower-cased string holds no upper-case letter |
| `Text.Below` | app/components/ProfileTable.tsx:47-58 | the order of the default `sort()`: lexicographic on characters, a proper prefix first. `BelowIrreflexive`, `BelowTransitive` and `BelowTotal` state that it is a strict total order |
| `Text.BelowIrreflexive` | app/components/ProfileTable.tsx:47-58 | no string sorts before itself under the default `sort()` order |
| `Text.BelowTransitive` | app/components/ProfileTable.tsx:47-58 | the default string order is transitive |
| `Text.BelowTotal` | app/components/ProfileTable.tsx:47-58 | of two different strings, one sorts before the other |
| `Seqs.Filter` | app/components/ProfileTable.tsx:67-94 | `filter` keeps the elements that satisfy the predicate, keeps their order, keeps each one's multiplicity and drops the rest |
| `Seqs.SubsequenceTrans` | app/components/ProfileTable.tsx:62-95 | filtering a filtered list still gives a subsequence of the original list |
| `QueryPipeline.FieldMatches` | app/components/ProfileTable.tsx:68-71 | one column matches exactly when it is non-null and the query occurs in its lower-cased text |
| `QueryPipeline.MatchesSearch` | app/components/ProfileTable.tsx:67-72 | the four-column search test. A profile whose four columns are all null never matches |
| `QueryPipeline.SearchStage` | app/components/ProfileTable.tsx:65-73 | the search stage returns a subsequence of its input. An empty search returns the input unchanged. Otherwise a profile is kept exactly when the lower-cased query occurs in one of its four lower-cased text columns, with all its occurrences |
| `QueryPipeline.SearchStageSurvivors` | app/components/ProfileTable.tsx:65-73 | after the search stage, a profile is present exactly when it was loaded and either the search is empty or one of its non-null columns contains the search, ignoring case. A kept profile keeps all its occurrences |
| `QueryPipeline.SearchIgnoresQueryCase` | app/components/ProfileTable.tsx:65-66 | lower-casing the search text first does not change what the table shows |
| `QueryPipeline.AnySelected` | app/components/ProfileTable.tsx:78 | `some(tag => selected.has(tag))` holds exactly when some position of the tag list holds a selected tag |
| `QueryPipeline.HasSelectedTag` | app/components/ProfileTable.tsx:78 | `tags?.some(...)` holds exactly when the tag list is non-null and contains a selected tag |
| `QueryPipeline.TagStage` | app/components/ProfileTable.tsx:76-95 | a tag stage returns a subsequence of its input. With nothing selected it returns its input. Otherwise it keeps exactly the profiles whose tag list in that category is non-null and holds a selected tag, with all their occurrences |
| `QueryPipeline.TagStageSurvivors` | app/components/ProfileTable.tsx:76-95 | a profile passes a category when nothing is selected in it, or when its tag list there is non-null and shares a tag with the selection. A kept profile keeps all its occurrences |
| `QueryPipeline.MissingTagsExcluded` | app/components/ProfileTable.tsx:76-95 | while a category is active, a profile whose tag list in it is null or empty is filtered out |
| `QueryPipeline.FilterStages` | app/components/ProfileTable.tsx:62-95 | the search stage and then the four tag stages, in source order. The result is a subsequence of the loaded list; `FilterStagesSpec` states which profiles it holds |
| `QueryPipeline.FilterStagesSpec` | app/components/ProfileTable.tsx:62-95 | the five filter stages give a subsequence of the loaded list holding exactly the profiles that pass the search and every category (AND across categories, OR within one), each as often as it was loaded |
| `QueryPipeline.SortStage` | app/components/ProfileTable.tsx:98-108 | no sort column keeps the list. A sort column gives a permutation ordered by the comparator; `StableSort.SortByIsStableSort` states its stability |
| `QueryPipeline.Visible` | app/components/ProfileTable.tsx:61-111 | the list shown never holds a profile more often than it was loaded, and keeps loaded order when unsorted. `VisibleSpec` characterises it fully |
| `QueryPipeline.VisibleSpec` | app/components/ProfileTable.tsx:61-111 | the table shows exactly the surviving loaded profiles, each as often as it was loaded. Unsorted, they keep loaded order; sorted, they are the stable sort of the filtered list |
| `QueryPipeline.VisibleUnfiltered` | app/components/ProfileTable.tsx:62-98 | with an empty search, nothing selected and no sort column, the table shows the loaded list exactly |
| `QueryPipeline.VisibleAfterClear` | app/components/ProfileTable.tsx:137-143 | with the search and all selections empty, the table shows the loaded list under the current sort setting |
| `QueryPipeline.SortOnlyReorders` | app/components/ProfileTable.tsx:98-108 | changing the sort column or direction never changes which profiles are shown, or how often |
| `StableSort.Key` | app/components/ProfileTable.tsx:100-101 | `a[sortField] ?? 0`: the chosen column's value, with null read as 0. `Compare` and `OrderedKeys` state the order it induces |
| `StableSort.Compare` | app/components/ProfileTable.tsx:99-107 | the comparator's sign is that of the difference of the null-as-0 keys, negated for descending. It is zero exactly on equal keys |
| `StableSort.InsertLast` | app/components/ProfileTable.tsx:99-107 | one insertion step adds one element. `InsertLastAt` states where it lands, `InsertLastPermutes` and `InsertLastKeyClass` what it keeps |
| `StableSort.InsertLastPermutes` | app/components/ProfileTable.tsx:99-107 | one insertion step adds the inserted profile and loses nothing |
| `StableSort.SortBy` | app/components/ProfileTable.tsx:98-108 | the sort keeps the length. `SortByPermutes`, `SortByIsOrdered` and `SortByIsStableSort` state that it is a stable sort |
| `StableSort.SortByPermutes` | app/components/ProfileTable.tsx:98-108 | the sorted list is a permutation of the filtered list |
| `StableSort.SortByIsOrdered` | app/components/ProfileTable.tsx:98-108 | the sorted list has no pair out of order under the comparator |
| `StableSort.OrderedKeys` | app/components/ProfileTable.tsx:100-106 | in comparator order, keys (null read as 0) never decrease ascending and never increase descending |
| `StableSort.KeyClassMember` | app/components/ProfileTable.tsx:100-101 | a key class holds exactly the profiles with that key |
| `StableSort.InsertLastKeyClass` | app/components/ProfileTable.tsx:99-107 | inserting a profile appends it to its own key class and leaves every other class alone |
| `StableSort.SortByKeyClass` | app/components/ProfileTable.tsx:98-108 | sorting leaves every key class as it was: profiles with equal keys, including the null-as-0 group, keep their relative order |
| `StableSort.SortByIsStableSort` | app/components/ProfileTable.tsx:98-108 | the sort is a stable sort of its input: ordered, with every key class unchanged |
| `StableSort.OrderedUnique` | app/components/ProfileTable.tsx:98-108 | two ordered lists with the same key classes are equal |
| `StableSort.StableSortUnique` | app/components/ProfileTable.tsx:99-107 | every stable sort of a list under this comparator equals the model's sort |
| `StableSort.SortByAlreadyOrdered` | app/components/ProfileTable.tsx:98-108 | a list already in comparator order is left as it is |
| `StableSort.SortByIdempotent` | app/components/ProfileTable.tsx:98-108 | sorting a sorted list changes nothing |
| `StableSort.DirectionFlip` | app/components/ProfileTable.tsx:102-106 | ascending and descending sorts list the profiles of each key in the same relative order, because the descending comparator swaps its arguments rather than reversing the result |
| `StableSort.DistinctKeysSwap` | app/components/ProfileTable.tsx:102-106 | two profiles with different keys come smaller key first in the ascending sort and smaller key last in the descending sort |
| `StableSort.InsertLastAt` | app/components/ProfileTable.tsx:99-107 | insertion puts the profile right after the last element that does not compare greater than it |
| `StableSort.InsertionPass` | app/components/ProfileTable.tsx:99-107 | one in-place pass inserts the element at index `i` into the sorted prefix before it and leaves the rest of the array alone |
| `StableSort.SortInPlace` | app/components/ProfileTable.tsx:99-107 | sorting the array in place leaves exactly the stable sort of its old contents |
| `TagVocabulary.TagsOrEmpty` | app/components/ProfileTable.tsx:48 | a profile's tag list in one category: a null tag list reads as empty. `AllTags` states what the lists contribute |
| `TagVocabulary.AllTags` | app/components/ProfileTable.tsx:47-58 | `flatMap` over the profiles' tag lists holds exactly the tags some profile carries, with a null list contributing nothing |
| `TagVocabulary.Distinct` | app/components/ProfileTable.tsx:47-58 | `Array.from(new Set(...))` has the same members and no duplicates |
| `TagVocabulary.SortStrings` | app/components/ProfileTable.tsx:47-58 | `sort()` keeps the length and the members |
| `TagVocabulary.InsertSortedStrictly` | app/components/ProfileTable.tsx:47-58 | inserting a new tag into a strictly sorted list keeps it strictly sorted |
| `TagVocabulary.SortStringsStrictly` | app/components/ProfileTable.tsx:47-58 | sorting a duplicate-free list gives a strictly sorted list |
| `TagVocabulary.Vocabulary` | app/components/ProfileTable.tsx:47-58 | each option list is strictly sorted and holds exactly the tags some loaded profile carries in that category |
| `TagVocabulary.VocabularySpec` | app/components/ProfileTable.tsx:47-58 | each option list is strictly sorted and free of duplicates. A tag is offered exactly when some loaded profile carries it in that category |
| `TagVocabulary.StrictlySortedUnique` | app/components/ProfileTable.tsx:47-58 | two strictly sorted lists with the same members are equal |
| `TagVocabulary.VocabularyUnique` | app/components/ProfileTable.tsx:47-58 | any strictly sorted list of exactly the tags in use is the option list, whatever sorting algorithm produced it |
| `TableComponent.Flipped` | app/components/ProfileTable.tsx:115 | flipping the direction always changes it |
| `TableComponent.Toggled` | app/components/ProfileTable.tsx:126-134 | after a toggle the tag is selected exactly when it was not before, and every other tag is as before |
| `TableComponent.ToggleTwice` | app/components/ProfileTable.tsx:122-135 | toggling the same tag twice restores the selection |
| `TableComponent.ToggleOthersUnchanged` | app/components/ProfileTable.tsx:122-135 | toggling one tag never changes whether another tag is selected |
| `TableComponent.FilterAndSort` | app/components/ProfileTable.tsx:61-111 | the effect's step-by-step computation, with its in-place sort, returns exactly what the table shows. A profile appears exactly when it was loaded and survives the query |
| `TableComponent.ProfileTable.constructor` | app/components/ProfileTable.tsx:11-24 | the component starts with an empty search, no selected tags, no sort column and the direction ascending |
| `TableComponent.ProfileTable.FiltersActive` | app/components/ProfileTable.tsx:167-168 | the "Clear Filters" button shows exactly when the search is non-empty or some category has a selected tag |
| `TableComponent.ProfileTable.Options` | app/components/ProfileTable.tsx:47-58 | the options of one filter are strictly sorted and hold exactly the tags the loaded profiles carry in that category. They depend on the loaded list alone |
| `TableComponent.ProfileTable.Refresh` | app/components/ProfileTable.tsx:61-111 | the effect sets the list on screen to the query's result for the loaded list and the current query |
| `TableComponent.ProfileTable.SetSearchQuery` | app/components/ProfileTable.tsx:164 | typing replaces the search text and nothing else |
| `TableComponent.ProfileTable.HandleSort` | app/components/ProfileTable.tsx:113-120 | clicking the current sort column flips the direction. Clicking another column makes it the sort column, ascending. Nothing else in the query changes, and the shown profiles stay the same up to order |
| `TableComponent.ProfileTable.ToggleTagFilter` | app/components/ProfileTable.tsx:122-135 | a checkbox click toggles the tag in its own category's set only; the search and sort are unchanged |
| `TableComponent.ProfileTable.ClearAllFilters` | app/components/ProfileTable.tsx:137-143 | the search and the four selections become empty while the sort column and direction stay. The clear button then hides, and the table shows the loaded list under the current sort |

## Left out

- Loading the profiles from Supabase (ProfileTable.tsx:27-44) is left out: it is network I/O. The loading flag and the error logging (145-151) are left out too. The loaded list is an input, the constructor's `loaded`, already in the server's newest-first order.
- React's effect scheduling and dependency tracking (line 111) are left out. The effect is the method `Refresh`, and the model does not force it to run after each handler. What it shows after any handler is `Visible` of the new query.
- The drawer, row selection and router navigation (ProfileTable.tsx:318-321, 327, 375-378) are UI wiring and are left out. So are all JSX markup, CSS and the "Showing N of M" text.
- `app/components/ProfileDrawer.tsx`, `app/api/ingest/route.ts` and `app/profile/[id]/page.tsx` are not part of this model.
- `Text.LowerChar`: lower-casing maps only ASCII `A`–`Z`. JavaScript's Unicode case mapping, including mappings that change a string's length, is not modelled.
- `StableSort.Key`: years are `int`, so the comparator's subtraction is exact. JavaScript `number` semantics are not modelled: floating point, NaN, infinities and fractional years.
- `Text.Below`: strings are sequences of Dafny `char`, which are Unicode scalar values. JavaScript compares UTF-16 code units, and the two orders differ between characters above U+FFFF and those in U+E000–U+FFFF.
- `StableSort.SortInPlace`: the JavaScript engine's sorting algorithm is replaced by an insertion sort. `StableSortUnique` shows that every stable sort gives this result.
- `TagVocabulary.SortStrings`: `sort()` is modelled as an insertion sort. `VocabularyUnique` shows that any strictly sorted arrangement of the same tags gives the same list.
- Aliasing between the component's state and other React state is not modelled. The source copies the loaded list at line 62 (`[...profiles]`) before filtering; the model copies the filtered list into a fresh array just before the in-place sort. Either way the sort works on a list nothing else refers to.
