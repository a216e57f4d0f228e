# Doctor directory: a Dafny model of its search, filter and sort logic

The directory is a single-page front end. It loads a list of doctors and shows
the ones that meet the user's criteria: a free-text name search, a consultation
type (video or in clinic), a set of specialities, and a sort by fee or by
experience. This project models the logic behind that page and proves what it
promises:

- **`Directory`** (`src/App.tsx`): the initial criteria and `filterDoctors`.
  `filterDoctors` copies the loaded list, narrows it by each active criterion
  in turn and sorts it in place. `FilterDoctors` is a method that does the
  same: its filter stages reassign a local sequence, and its sort runs in
  place on an array. Its result is proved equal to `Visible`, a specification
  function. The lemmas about `Visible` state the properties the page relies on:
  - a doctor is shown exactly when it was loaded and passes every active
    criterion;
  - the shown list rearranges a subsequence of the loaded one;
  - without a sort, the loaded order is kept;
  - fees ascend, or experience descends;
  - doctors the comparator ranks equal keep their order.

  The same module builds the query parameters that `updateURLParams` writes.
  They are an ordered list of name/value pairs, produced by successive
  `URLSearchParams.set` calls.
- **`Sorting`** (`src/App.tsx`, the `sort` calls): the comparator and a stable
  insertion sort. The sort is written once as a function and once as an
  in-place array method, and the method is proved equal to the function. The
  function is proved sorted, a permutation and stable. It is also proved
  unique: any stable sort by the same comparator gives the same sequence.
  Array.prototype.sort has been required to be stable since ECMA-262, 10th
  edition, so this uniqueness result covers whatever algorithm the engine uses.
- **`SpecialityList` and `FilterPanel`** (`src/components/FilterPanel.tsx`):
  - the 24-entry speciality vocabulary;
  - the header counters;
  - the five handlers, each a pure updater from the previous criteria to the
    next;
  - the speciality list filtered by the panel's own search box.

  Each handler flips or clears exactly the field it names and leaves every
  other field as it was. The count shown as "(n active)" covers the selected
  specialities and the consultation type but not the search query, although
  a search query alone still marks the panel active and shows "(0 active)".
- **`SearchBar`** (`src/components/SearchBar.tsx`): the search box as a class
  `SearchBox` with the component's state, `filters`, `suggestions` and
  `showSuggestions`. Its methods are the three handlers. The suggestions are
  the names of the first three matching doctors, in list order.
- **`Types`** (`src/types.ts`): the records. The consultation type and the sort
  key are enumerations. Their unset value is a separate constructor, and
  `ModeValue`/`SortValue` give back the strings the source compares.
- **`Text`** and **`Seqs`**: the string and sequence primitives the source
  calls:
  - `toLowerCase`, `includes`, `trim` and `join`;
  - `filter` and the subsequence relation it establishes.

  `Text.Split` is not called by the source. It exists only on the proof side,
  as the inverse of `Join`: it shows that the comma-join written to the
  `specialities` parameter splits back into the selection.

## Model

| member | source | states |
|---|---|---|
| Types.Doctor | src/types.ts:1-9 | a doctor: identifier, name, an ordered list of specialities, experience, fee, exactly one consultation type, and an image reference |
| Types.FilterState | src/types.ts:11-16 | the criteria: a query string, a consultation type or none, an ordered list of selected specialities, and a sort key or none |
| Types.ConsultationLabel | src/types.ts:7 | a doctor's consultation type is one of the two strings "Video Consult" and "In Clinic" |
| Types.ModeValue | src/types.ts:13 | the consultation criterion is the empty string exactly when it is unset, and otherwise one of the two consultation strings |
| Types.SortValue | src/types.ts:15 | the sort criterion is the empty string exactly when it is unset, and otherwise "fees" or "experience"; one field, so at most one key is active |
| Types.ValuesInjective | src/types.ts:13-15 | distinct criteria have distinct strings, so comparing the enumerations decides what comparing the source's strings decides |
| Directory.FilterDoctors | src/App.tsx:58-92 | the staged filters and the in-place sort produce exactly the visible list `Visible` |
| Directory.InitialFilters | src/App.tsx:10-15 | the criteria the directory starts from: empty query, no consultation type, no specialities, no sort |
| Directory.Passes | src/App.tsx:62-82 | a doctor passes when each criterion is unset or met: the name contains the query, the consultation type equals the chosen one, and some selected speciality is among the doctor's |
| Directory.Kept | src/App.tsx:59-82 | the doctors that pass every criterion, in loaded order: the list before sorting |
| Directory.Visible | src/App.tsx:59-89 | the kept doctors, stably sorted by the chosen key, or unsorted when no key is chosen |
| Directory.SearchStep | src/App.tsx:62-66 | with a query, the search stage keeps the doctors whose lower-cased name contains the lower-cased query; without one it keeps everybody |
| Directory.ModeStep | src/App.tsx:69-73 | after the consultation stage, exactly the doctors passing the search and consultation criteria remain, in loaded order |
| Directory.SpecialityStep | src/App.tsx:76-82 | after the speciality stage, exactly the doctors passing all three criteria remain, in loaded order |
| Directory.VisibleMembers | src/App.tsx:59-82 | a doctor is shown if and only if it was loaded and passes every active criterion (soundness and completeness) |
| Directory.VisiblePermutesSubsequence | src/App.tsx:59-89 | the kept doctors are a subsequence of the loaded list and the shown list is a permutation of them: nothing is added, duplicated or altered |
| Directory.UnsortedKeepsOrder | src/App.tsx:59-89 | without a sort the shown list keeps the loaded relative order |
| Directory.VisibleSorted | src/App.tsx:85-89 | sorting by fees gives non-decreasing fees; sorting by experience gives non-increasing experience |
| Directory.VisibleStable | src/App.tsx:85-89 | doctors the comparator ranks equal keep the order they had before the sort |
| Directory.AnyStableSortAgrees | src/App.tsx:85-89 | any sorted, stable rearrangement of the kept doctors equals the shown list |
| Directory.InitialShowsAll | src/App.tsx:10-15 | with the initial criteria every loaded doctor is shown, in loaded order |
| Directory.SpecialitiesNarrow | src/App.tsx:76-82 | selecting specialities only removes doctors from what the other criteria let through, keeping their order |
| Directory.SpecialitiesUnion | src/App.tsx:78-80 | the speciality criterion is an OR: a doctor passes `a + b` exactly when it passes `a` or passes `b` |
| Directory.NameString | src/App.tsx:51-54 | each parameter name is one of "search", "type", "specialities", "sort" |
| Directory.NameStringInjective | src/App.tsx:51-54 | two names have the same key string exactly when they are the same name, so comparing names decides what comparing the source's keys decides |
| Directory.LookupOther | src/App.tsx:51-54 | dropping the pairs of one name leaves the value of every other name unchanged |
| Directory.SetParam | src/App.tsx:51-54 | after `params.set(name, value)`, looking up `name` yields `value`, every other name looks up to what it did before, and the pairs of every other name are kept as they were, in order; `SetParamSingle`, `SetParamAbsent` and `SetParamInPlace` fix the rest of the result |
| Directory.SetParamSingle | src/App.tsx:51-54 | after `params.set(name, value)` exactly one pair carries `name`, and it holds `value` |
| Directory.SetParamAbsent | src/App.tsx:51-54 | when no pair carries `name`, `set` appends the new pair at the end and changes nothing else |
| Directory.SetParamSkips | src/App.tsx:51-54 | `set` leaves a leading run of pairs of other names in front, untouched |
| Directory.SetParamInPlace | src/App.tsx:51-54 | when a pair carries `name`, the new pair takes the place of the first one, the pairs before it stay, and the later pairs of `name` are dropped while the others stay in order |
| Directory.DropNameAgain | src/App.tsx:51-54 | replacing a leading pair of `name` and dropping its later ones leaves the other names' pairs unchanged and in order |
| Directory.SetParamAppends | src/App.tsx:51-54 | setting a name that comes after every present one appends it at the end |
| Directory.SetIf | src/App.tsx:51-54 | one guarded `params.set` appends the parameter exactly when its criterion is set, and keeps the names in order |
| Directory.ParamsOf | src/App.tsx:50-54 | the parameter list the criteria are written to: one name/value pair per criterion not at its default, in the order search, type, specialities, sort |
| Directory.BuildParams | src/App.tsx:49-54 | the parameters are one per criterion not at its default, with names strictly in the order search, type, specialities, sort, none twice |
| Directory.ParamsOfLookup | src/App.tsx:51-54 | each name is present exactly when its criterion is not at its default. Its value is then that criterion's string, and for specialities the comma-join of the list in order |
| Sorting.Compare | src/App.tsx:85-89 | the comparator is positive exactly when the second doctor ranks strictly lower, and zero exactly on equal ranks (fee ascending, experience descending) |
| Sorting.StableSort | src/App.tsx:85-89 | the sequence the sort produces: each doctor in turn inserted into the sorted prefix, after the placed doctors that do not rank behind it |
| Sorting.StableSortSorted | src/App.tsx:85-89 | the sort's output is ordered by the comparator |
| Sorting.StableSortPermutes | src/App.tsx:85-89 | the sort's output is a permutation of its input |
| Sorting.StableSortStable | src/App.tsx:85-89 | the sort keeps the input order among doctors of equal rank |
| Sorting.SortedStableUnique | src/App.tsx:85-89 | two sorted sequences that list every rank's doctors in the same order are equal, so a stable sort's result is unique |
| Sorting.InsertIntoPrefix | src/App.tsx:86-88 | one in-place pass inserts `a[i]` into the sorted prefix and leaves the rest of the array alone |
| Sorting.SortInPlace | src/App.tsx:86-88 | the in-place sort leaves the array holding the stable sort of its old contents |
| Sorting.SortCopy | src/App.tsx:85-89 | sorting a fresh array copy of the list yields the stable sort of the list |
| Text.LowerChar | src/App.tsx:64 | folding leaves no upper-case ASCII letter, and gives a lower-case letter exactly when the character is an ASCII letter |
| Text.Lower | src/App.tsx:64 | `toLowerCase` keeps the length and folds each character on its own |
| Text.LowerIdempotent | src/App.tsx:64 | folding twice is folding once |
| Text.Contains | src/App.tsx:64 | `includes`: the second string occurs in the first as a contiguous block |
| Text.Trim | src/components/SearchBar.tsx:30 | `trim`: the string with its leading and trailing white space and line terminators removed |
| Text.ContainsEmpty | src/components/FilterPanel.tsx:81-83 | every string includes the empty string |
| Text.ContainsSelf | src/components/SearchBar.tsx:31-36 | every string includes itself |
| Text.TrimEmptyIffBlank | src/components/SearchBar.tsx:30 | `value.trim()` is empty exactly when `value` consists of white space only |
| Text.TrimWithin | src/components/SearchBar.tsx:30 | the trimmed string is a block of the original that neither starts nor ends with white space |
| Text.Join | src/App.tsx:53 | joining no parts gives the empty string and joining one part gives that part |
| Text.SplitJoin | src/App.tsx:53 | splitting the comma-join of comma-free parts gives the parts back |
| Seqs.Filter | src/App.tsx:63-81 | `Array.prototype.filter`: the elements that pass the test, in their order; never longer than the input, and every kept element passes |
| Seqs.FilterMembership | src/App.tsx:63-81 | `filter` keeps an element exactly when it is in the input and passes the test |
| Seqs.FilterIsSubseq | src/App.tsx:63-81 | `filter` keeps the input's relative order |
| Seqs.FilterNoDuplicates | src/components/FilterPanel.tsx:52 | filtering a list without repetitions gives a list without repetitions |
| Seqs.FilterRemovesAll | src/components/FilterPanel.tsx:52 | a filter that rejects exactly `x` removes every copy of `x` and keeps every other element as often as it occurred |
| Seqs.FilterAppendedAway | src/components/FilterPanel.tsx:51-53 | removing an element appended to a list free of it gives the list back |
| SpecialityList.Vocabulary | src/components/FilterPanel.tsx:9-34 | the 24 specialities the panel offers, verbatim and in display order |
| SpecialityList.VocabularyCommaFree | src/components/FilterPanel.tsx:9-34 | the vocabulary has 24 entries and none contains a comma |
| FilterPanel.Panel | src/components/FilterPanel.tsx:37 | the panel's state: the shared criteria plus the text typed into its own speciality search box |
| FilterPanel.HasActiveSort | src/components/FilterPanel.tsx:38 | `hasActiveSort`: the sort criterion's string is not empty |
| FilterPanel.HasActiveFilters | src/components/FilterPanel.tsx:39 | `hasActiveFilters`: a consultation type is chosen, a speciality is selected, or the query is not empty |
| FilterPanel.ActiveCount | src/components/FilterPanel.tsx:94 | the "(n active)" number: the number of selected specialities plus one when a consultation type is chosen |
| FilterPanel.ActiveCountMeaning | src/components/FilterPanel.tsx:38-39 | the sort is active exactly when a key is chosen; the panel is active exactly when the count is positive or a query is set; the count is the selected specialities plus one for a type |
| FilterPanel.ActiveCountIgnoresSearch | src/components/FilterPanel.tsx:94 | the "(n active)" count does not depend on the search query, although a non-empty query makes the panel active |
| FilterPanel.ToggleConsultationType | src/components/FilterPanel.tsx:41-46 | afterwards the type is `t` exactly when it was not `t` before, otherwise unset; no other field changes |
| FilterPanel.ToggleConsultationTwice | src/components/FilterPanel.tsx:41-46 | choosing the same type twice restores the criteria when that type or none was selected |
| FilterPanel.ToggleSpeciality | src/components/FilterPanel.tsx:48-55 | a selected speciality is removed (every copy) and the other entries keep their order and their repetitions; an unselected one is appended at the end; no other field changes |
| FilterPanel.ToggleSpecialityFlips | src/components/FilterPanel.tsx:48-55 | afterwards `s` is selected exactly when it was not before, and every other speciality keeps its state |
| FilterPanel.ToggleSpecialityNoDuplicates | src/components/FilterPanel.tsx:51-53 | a selection without repetitions stays without repetitions |
| FilterPanel.ToggleSpecialityTwice | src/components/FilterPanel.tsx:51-53 | clicking an unselected speciality twice restores the exact selection |
| FilterPanel.ToggleSpecialityWithin | src/components/FilterPanel.tsx:48-55 | clicking vocabulary entries keeps the selection inside the vocabulary |
| FilterPanel.ToggleSort | src/components/FilterPanel.tsx:57-62 | afterwards the sort is `k` exactly when it was not `k` before, otherwise unset; no other field changes |
| FilterPanel.ClearSort | src/components/FilterPanel.tsx:64-69 | the sort becomes inactive; search, type and specialities are kept |
| FilterPanel.ClearFilters | src/components/FilterPanel.tsx:71-79 | no filter is active and the count is zero afterwards; the sort is kept; the speciality search box is emptied |
| FilterPanel.ClearFiltersIdempotent | src/components/FilterPanel.tsx:71-79 | clearing twice is clearing once, and the criteria become the initial ones except for the sort |
| FilterPanel.MatchingTexts | src/components/FilterPanel.tsx:81-83 | the matching entries are never more than the list |
| FilterPanel.MatchingTextsMeaning | src/components/FilterPanel.tsx:81-83 | the matching entries keep the list's order; an entry matches exactly when its lower-cased text contains the lower-cased search; an empty search keeps the whole list |
| FilterPanel.FilteredSpecialities | src/components/FilterPanel.tsx:81-83 | the speciality list shown is never longer than the vocabulary |
| FilterPanel.FilteredSpecialitiesOrdered | src/components/FilterPanel.tsx:81-83 | the speciality list shown is an order-preserving sublist of the vocabulary |
| FilterPanel.EmptySearchListsAll | src/components/FilterPanel.tsx:81-83 | with an empty speciality search the whole vocabulary is listed |
| FilterPanel.ClearedListsAll | src/components/FilterPanel.tsx:78 | after "clear all filters" the whole vocabulary is listed again |
| FilterPanel.SelectionRoundTrips | src/App.tsx:53 | a selection of vocabulary entries is written as a comma-join that splits back into the same selection |
| SearchBar.Names | src/components/SearchBar.tsx:35 | the names list the doctors' names one for one, in order |
| SearchBar.Matching | src/components/SearchBar.tsx:31-34 | the doctors whose lower-cased name contains the lower-cased typed value, in list order |
| SearchBar.Suggestions | src/components/SearchBar.tsx:31-36 | never more than three suggestions |
| SearchBar.SuggestionsMeaning | src/components/SearchBar.tsx:31-36 | the suggestions are the names of the first matching doctors in list order, as many as match up to three, and they include every matching name when fewer than three are offered |
| SearchBar.SuggestionHasDoctor | src/components/SearchBar.tsx:31-36 | each suggestion names a loaded doctor that matches the typed value and that also matches the suggestion itself once adopted as the query |
| SearchBar.SearchBox.constructor | src/components/SearchBar.tsx:11-12 | the box starts with no suggestions and the list closed |
| SearchBar.SearchBox.PanelVisible | src/components/SearchBar.tsx:74 | the list of names is drawn exactly when it is open and holds at least one name |
| SearchBar.SearchBox.HandleSearch | src/components/SearchBar.tsx:26-43 | the query becomes the value exactly as typed and no other criterion changes. If the value trims to nothing, the list is emptied and closed; otherwise the suggestions are recomputed and the list opens, even with no match. At most three suggestions are kept |
| SearchBar.SearchBox.HandleSuggestionClick | src/components/SearchBar.tsx:45-48 | the query becomes the suggestion and the list closes; no other criterion and no suggestion changes |
| SearchBar.SearchBox.HandleKeyDown | src/components/SearchBar.tsx:50-54 | Enter with suggestions adopts the first one and closes the list; any other key, or Enter with no suggestions, changes nothing |

## Left out

- Loading the doctors (`src/App.tsx:26-47`) is left out. The network fetch,
  the JSON decoding and the record transformation are I/O. The model takes
  the loaded list as a parameter and assumes `fee` and `experience` are
  integers. `parseInt` and NaN are not modelled. Neither is the
  `replace` of the currency prefix at `src/App.tsx:37`, whose literal looks
  mis-encoded.
- Writing the URL (`src/App.tsx:55`) is left out. `window.history.replaceState`
  and the percent-encoding of `URLSearchParams.toString` are not modelled.
  The model stops at the ordered list of name/value pairs.
- Directory.SetParam: parameter names are the enumeration `ParamName`, not
  arbitrary strings. Only the four names the source sets can occur.
- React plumbing is left out: effect scheduling and re-run triggers
  (`src/App.tsx:17-24`), `setState` batching, and the functional-updater
  indirection. The updaters are modelled as the functions they pass to
  `setFilters`.
- The click-outside listener of the search box
  (`src/components/SearchBar.tsx:15-24`) is DOM event handling and is left out.
- Rendering and markup are left out. The one rendering condition with logic,
  a list drawn when open and non-empty, is the predicate
  `SearchBox.PanelVisible`.
- `src/components/DoctorList.tsx` is presentation only and is not part of
  this model.
- Text.Lower: folds ASCII letters only. JavaScript's `toLowerCase` also folds
  letters beyond ASCII.
- Sorting.Compare: fee and experience are unbounded integers. The model has
  no floating-point, NaN or infinity cases for the comparator's subtraction.
- Sorting.SortInPlace: the engine's sort algorithm is not modelled. The model
  sorts by insertion, and `SortedStableUnique` shows that any stable sort by
  the same comparator gives the same result.
- The speciality search box's `onChange` only stores the typed text. It is
  modelled as the `specialitySearch` field of `FilterPanel.Panel`, and
  `FilteredSpecialities` reads it.
