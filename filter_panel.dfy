/** The speciality vocabulary the filter panel offers. */
module SpecialityList {

  /** The specialities the panel offers, in display order. */
  const Vocabulary: seq<string> := [
    "General Physician", "Dentist", "Dermatologist", "Paediatrician",
    "Gynaecologist", "ENT", "Diabetologist", "Cardiologist",
    "Physiotherapist", "Endocrinologist", "Orthopaedic", "Ophthalmologist",
    "Gastroenterologist", "Pulmonologist", "Psychiatrist", "Urologist",
    "Dietitian/Nutritionist", "Psychologist", "Sexologist", "Nephrologist",
    "Neurologist", "Oncologist", "Ayurveda", "Homeopath"
  ]

  /** The vocabulary has 24 entries and none contains a comma. */
  lemma VocabularyCommaFree()
    ensures |Vocabulary| == 24
    ensures forall x :: x in Vocabulary ==> ',' !in x
  {
    forall k | 0 <= k < |Vocabulary| ensures ',' !in Vocabulary[k] {
    }
  }
}

module FilterPanel {
  import opened SpecialityList
  import opened Types
  import opened Text
  import opened Seqs

  /** The panel's own state next to the shared criteria: the text typed into
      the speciality search box. */
  datatype Panel = Panel(filters: FilterState, specialitySearch: string)

  // ---------------------------------------------------------------------
  // Counters

  predicate HasActiveSort(f: FilterState)
  {
    SortValue(f.sortBy) != ""
  }

  /** A criterion other than the sort is set; the search query counts here. */
  predicate HasActiveFilters(f: FilterState)
  {
    ModeValue(f.consultationType) != "" || |f.specialities| > 0 || f.searchQuery != ""
  }

  /** The number shown as "(n active)": the selected specialities plus one
      for a consultation type. */
  function ActiveCount(f: FilterState): nat
  {
    |f.specialities| + (if ModeValue(f.consultationType) != "" then 1 else 0)
  }

  /** The header counts exactly the selected specialities and the consultation
      type, and the panel is marked active exactly when that count is positive
      or a search query is set. */
  lemma ActiveCountMeaning(f: FilterState)
    ensures ActiveCount(f) == |f.specialities| + (if f.consultationType.Only? then 1 else 0)
    ensures HasActiveFilters(f) <==> ActiveCount(f) > 0 || f.searchQuery != ""
    ensures HasActiveSort(f) <==> f.sortBy.SortBy?
  {
  }

  /** The count ignores the search query, although the query makes the panel active. */
  lemma ActiveCountIgnoresSearch(f: FilterState, q: string)
    ensures ActiveCount(f.(searchQuery := q)) == ActiveCount(f)
    ensures q != "" ==> HasActiveFilters(f.(searchQuery := q))
  {
  }

  // ---------------------------------------------------------------------
  // Handlers

  /** Choosing a consultation type selects it, or unselects it when it was
      the one selected. */
  function ToggleConsultationType(prev: FilterState, t: Consultation): (r: FilterState)
    ensures r.consultationType == Only(t) <==> prev.consultationType != Only(t)
    ensures r.consultationType != Only(t) ==> r.consultationType == AnyMode
    ensures r == prev.(consultationType := r.consultationType)
  {
    prev.(consultationType := if prev.consultationType == Only(t) then AnyMode else Only(t))
  }

  /** Choosing the same type twice restores the criteria when that type or no
      type was selected to begin with. */
  lemma ToggleConsultationTwice(prev: FilterState, t: Consultation)
    requires prev.consultationType == AnyMode || prev.consultationType == Only(t)
    ensures ToggleConsultationType(ToggleConsultationType(prev, t), t) == prev
  {
  }

  function Differs(s: string): string -> bool
  {
    (x: string) => x != s
  }

  /** Clicking a speciality removes every copy of it when it is selected,
      keeping the other entries in order with their repetitions, and appends
      it at the end otherwise. */
  function ToggleSpeciality(prev: FilterState, s: string): (r: FilterState)
    ensures r == prev.(specialities := r.specialities)
    ensures s in prev.specialities ==> s !in r.specialities
    ensures s !in prev.specialities ==> r.specialities == prev.specialities + [s]
    ensures s in prev.specialities ==>
      IsSubseq(r.specialities, prev.specialities) && multiset(r.specialities) == multiset(prev.specialities)[s := 0]
  {
    if s in prev.specialities then
      FilterIsSubseq(prev.specialities, Differs(s));
      FilterRemovesAll(prev.specialities, s, Differs(s));
      prev.(specialities := Filter(prev.specialities, Differs(s)))
    else
      prev.(specialities := prev.specialities + [s])
  }

  /** After the click the speciality is selected exactly when it was not
      before, and every other speciality keeps its state. */
  lemma ToggleSpecialityFlips(prev: FilterState, s: string)
    ensures s in ToggleSpeciality(prev, s).specialities <==> s !in prev.specialities
    ensures forall x :: x != s ==> (x in ToggleSpeciality(prev, s).specialities <==> x in prev.specialities)
  {
    forall x {
      FilterMembership(prev.specialities, Differs(s), x);
    }
  }

  /** A selection without repetitions stays without repetitions. */
  lemma ToggleSpecialityNoDuplicates(prev: FilterState, s: string)
    requires NoDuplicates(prev.specialities)
    ensures NoDuplicates(ToggleSpeciality(prev, s).specialities)
  {
    if s in prev.specialities {
      FilterNoDuplicates(prev.specialities, Differs(s));
    } else {
      AppendNoDuplicates(prev.specialities, s);
    }
  }

  /** Clicking an unselected speciality twice restores the exact selection. */
  lemma ToggleSpecialityTwice(prev: FilterState, s: string)
    requires s !in prev.specialities
    ensures ToggleSpeciality(ToggleSpeciality(prev, s), s) == prev
  {
    var l := prev.specialities;
    assert s in l + [s];
    FilterAppendedAway(l, s, Differs(s));
  }

  /** Clicking only entries of the vocabulary keeps the selection inside it. */
  lemma ToggleSpecialityWithin(prev: FilterState, s: string)
    requires forall x :: x in prev.specialities ==> x in Vocabulary
    requires s in Vocabulary
    ensures forall x :: x in ToggleSpeciality(prev, s).specialities ==> x in Vocabulary
  {
    ToggleSpecialityFlips(prev, s);
  }

  /** Choosing a sort key selects it, or unselects it when it was the one selected. */
  function ToggleSort(prev: FilterState, k: SortKey): (r: FilterState)
    ensures r.sortBy == SortBy(k) <==> prev.sortBy != SortBy(k)
    ensures r.sortBy != SortBy(k) ==> r.sortBy == Unsorted
    ensures r == prev.(sortBy := r.sortBy)
  {
    prev.(sortBy := if prev.sortBy == SortBy(k) then Unsorted else SortBy(k))
  }

  /** "Clear sort" drops the sort and keeps every other criterion. */
  function ClearSort(prev: FilterState): (r: FilterState)
    ensures !HasActiveSort(r)
    ensures r.searchQuery == prev.searchQuery && r.consultationType == prev.consultationType
    ensures r.specialities == prev.specialities
  {
    prev.(sortBy := Unsorted)
  }

  /** "Clear all filters" resets the query, the consultation type, the
      specialities and the panel's speciality search, and keeps the sort. */
  function ClearFilters(prev: Panel): (r: Panel)
    ensures !HasActiveFilters(r.filters) && ActiveCount(r.filters) == 0
    ensures r.filters.sortBy == prev.filters.sortBy
    ensures r.specialitySearch == ""
  {
    Panel(prev.filters.(consultationType := AnyMode, specialities := [], searchQuery := ""), "")
  }

  /** Clearing is idempotent, and afterwards the criteria are the initial ones
      except for the sort. */
  lemma ClearFiltersIdempotent(p: Panel)
    ensures ClearFilters(ClearFilters(p)) == ClearFilters(p)
    ensures ClearFilters(p).filters == FilterState("", AnyMode, [], p.filters.sortBy)
  {
  }

  // ---------------------------------------------------------------------
  // The speciality list

  function TextTest(search: string): string -> bool
  {
    (x: string) => Contains(Lower(x), Lower(search))
  }

  /** The entries of `list` whose lower-cased text contains the lower-cased search. */
  function MatchingTexts(list: seq<string>, search: string): (r: seq<string>)
    ensures |r| <= |list|
  {
    Filter(list, TextTest(search))
  }

  /** The speciality list the panel shows for what is typed in its search box. */
  function FilteredSpecialities(search: string): (r: seq<string>)
    ensures |r| <= |Vocabulary|
  {
    MatchingTexts(Vocabulary, search)
  }

  /** The matching entries keep the list's order, an entry is kept exactly
      when it matches the search, and an empty search keeps the whole list. */
  lemma MatchingTextsMeaning(list: seq<string>, search: string)
    ensures IsSubseq(MatchingTexts(list, search), list)
    ensures forall x :: x in MatchingTexts(list, search) <==> x in list && Contains(Lower(x), Lower(search))
    ensures search == "" ==> MatchingTexts(list, search) == list
  {
    FilterIsSubseq(list, TextTest(search));
    forall x {
      FilterMembership(list, TextTest(search), x);
    }
    if search == "" {
      forall x | x in list ensures TextTest(search)(x) {
        ContainsEmpty(Lower(x));
      }
      FilterAllPass(list, TextTest(search));
    }
  }

  /** The speciality list keeps the vocabulary's order. */
  lemma FilteredSpecialitiesOrdered(search: string)
    ensures IsSubseq(FilteredSpecialities(search), Vocabulary)
  {
    MatchingTextsMeaning(Vocabulary, search);
  }

  /** An empty search lists the whole vocabulary. */
  lemma EmptySearchListsAll()
    ensures FilteredSpecialities("") == Vocabulary
  {
    MatchingTextsMeaning(Vocabulary, "");
  }

  /** After "clear all filters" the whole vocabulary is listed again. */
  lemma ClearedListsAll(p: Panel)
    ensures FilteredSpecialities(ClearFilters(p).specialitySearch) == Vocabulary
  {
    EmptySearchListsAll();
  }

  // ---------------------------------------------------------------------
  // The vocabulary and the URL

  /** A selection made from the vocabulary is written to the `specialities`
      parameter in a form that splits back into the same selection. */
  lemma SelectionRoundTrips(f: FilterState)
    requires |f.specialities| > 0
    requires forall x :: x in f.specialities ==> x in Vocabulary
    ensures Split(Join(f.specialities, ','), ',') == f.specialities
  {
    VocabularyCommaFree();
    SplitJoin(f.specialities, ',');
  }
}
