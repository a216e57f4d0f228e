/** The directory controller: the initial criteria, the derivation of the
    visible doctor list from the loaded list and the criteria, and the
    query parameters the criteria are written to. */
module Directory {
  import opened Types
  import opened Text
  import opened Seqs
  import opened Sorting

  /** The criteria the directory starts from: no query, no consultation
      type, no specialities, no sort. */
  const InitialFilters := FilterState("", AnyMode, [], Unsorted)

  // ---------------------------------------------------------------------
  // The criteria, one predicate each

  /** The doctor's lower-cased name contains the lower-cased query. */
  predicate NameMatches(d: Doctor, query: string)
  {
    Contains(Lower(d.name), Lower(query))
  }

  /** The doctor lists at least one of the selected specialities. */
  predicate HasSomeSpeciality(d: Doctor, selected: seq<string>)
  {
    exists s :: s in selected && s in d.speciality
  }

  predicate SearchOk(f: FilterState, d: Doctor)
  {
    f.searchQuery == "" || NameMatches(d, f.searchQuery)
  }

  predicate ModeOk(f: FilterState, d: Doctor)
  {
    f.consultationType == AnyMode || d.consultationType == f.consultationType.mode
  }

  predicate SpecialitiesOk(f: FilterState, d: Doctor)
  {
    |f.specialities| == 0 || HasSomeSpeciality(d, f.specialities)
  }

  /** The doctor meets every active criterion; an unset criterion lets
      every doctor through. */
  predicate Passes(f: FilterState, d: Doctor)
  {
    SearchOk(f, d) && ModeOk(f, d) && SpecialitiesOk(f, d)
  }

  function NameTest(query: string): Doctor -> bool
  {
    (d: Doctor) => NameMatches(d, query)
  }

  function ConsultationTest(c: Consultation): Doctor -> bool
  {
    (d: Doctor) => d.consultationType == c
  }

  function SpecialityTest(selected: seq<string>): Doctor -> bool
  {
    (d: Doctor) => HasSomeSpeciality(d, selected)
  }

  function SearchStage(f: FilterState): Doctor -> bool
  {
    (d: Doctor) => SearchOk(f, d)
  }

  function ModeStage(f: FilterState): Doctor -> bool
  {
    (d: Doctor) => SearchOk(f, d) && ModeOk(f, d)
  }

  function PassTest(f: FilterState): Doctor -> bool
  {
    (d: Doctor) => Passes(f, d)
  }

  // ---------------------------------------------------------------------
  // The visible list

  /** The doctors that meet the criteria, in the loaded order. */
  function Kept(doctors: seq<Doctor>, f: FilterState): seq<Doctor>
  {
    Filter(doctors, PassTest(f))
  }

  /** The visible list: the kept doctors, stably sorted when a sort is chosen. */
  function Visible(doctors: seq<Doctor>, f: FilterState): seq<Doctor>
  {
    match f.sortBy
    case Unsorted => Kept(doctors, f)
    case SortBy(key) => StableSort(Kept(doctors, f), key)
  }

  /** A doctor is visible exactly when it was loaded and meets every active
      criterion: nothing that passes is dropped, nothing that fails is shown. */
  lemma VisibleMembers(doctors: seq<Doctor>, f: FilterState, d: Doctor)
    ensures d in Visible(doctors, f) <==> d in doctors && Passes(f, d)
  {
    FilterMembership(doctors, PassTest(f), d);
    if f.sortBy.SortBy? {
      var kept := Kept(doctors, f);
      StableSortPermutes(kept, f.sortBy.key);
      assert d in Visible(doctors, f) <==> d in multiset(Visible(doctors, f));
      assert d in kept <==> d in multiset(kept);
    }
  }

  /** The visible list rearranges a subsequence of the loaded list: no
      doctor is added, duplicated or altered. */
  lemma VisiblePermutesSubsequence(doctors: seq<Doctor>, f: FilterState)
    ensures IsSubseq(Kept(doctors, f), doctors)
    ensures multiset(Visible(doctors, f)) == multiset(Kept(doctors, f))
  {
    FilterIsSubseq(doctors, PassTest(f));
    if f.sortBy.SortBy? {
      StableSortPermutes(Kept(doctors, f), f.sortBy.key);
    }
  }

  /** Without a sort the visible list keeps the loaded order. */
  lemma UnsortedKeepsOrder(doctors: seq<Doctor>, f: FilterState)
    requires f.sortBy == Unsorted
    ensures IsSubseq(Visible(doctors, f), doctors)
  {
    FilterIsSubseq(doctors, PassTest(f));
  }

  /** Sorting by fee gives fees in ascending order; sorting by experience
      gives experience in descending order. */
  lemma VisibleSorted(doctors: seq<Doctor>, f: FilterState)
    ensures f.sortBy == SortBy(Fees) ==>
      forall i, j :: 0 <= i < j < |Visible(doctors, f)| ==> Visible(doctors, f)[i].fee <= Visible(doctors, f)[j].fee
    ensures f.sortBy == SortBy(Experience) ==>
      forall i, j :: 0 <= i < j < |Visible(doctors, f)| ==> Visible(doctors, f)[i].experience >= Visible(doctors, f)[j].experience
  {
    if f.sortBy.SortBy? {
      StableSortSorted(Kept(doctors, f), f.sortBy.key);
    }
  }

  /** Doctors the comparator ranks equal keep their relative order. */
  lemma VisibleStable(doctors: seq<Doctor>, f: FilterState)
    requires f.sortBy.SortBy?
    ensures StableWrt(Visible(doctors, f), Kept(doctors, f), f.sortBy.key)
  {
    StableSortStable(Kept(doctors, f), f.sortBy.key);
  }

  /** Any stable sort of the kept doctors by the same comparator, which is
      what Array.prototype.sort is required to be, yields the visible list. */
  lemma AnyStableSortAgrees(doctors: seq<Doctor>, f: FilterState, t: seq<Doctor>)
    requires f.sortBy.SortBy?
    requires Sorted(t, f.sortBy.key) && StableWrt(t, Kept(doctors, f), f.sortBy.key)
    ensures t == Visible(doctors, f)
  {
    var key, kept := f.sortBy.key, Kept(doctors, f);
    StableSortSorted(kept, key);
    StableSortStable(kept, key);
    SortedStableUnique(t, StableSort(kept, key), key);
  }

  /** With the initial criteria every loaded doctor is shown, in the loaded order. */
  lemma InitialShowsAll(doctors: seq<Doctor>)
    ensures Visible(doctors, InitialFilters) == doctors
  {
    FilterAllPass(doctors, PassTest(InitialFilters));
  }

  /** Selecting specialities only narrows what the other criteria let through. */
  lemma SpecialitiesNarrow(doctors: seq<Doctor>, f: FilterState)
    ensures IsSubseq(Kept(doctors, f), Kept(doctors, f.(specialities := [])))
  {
    var g := f.(specialities := []);
    FilterFilter(doctors, PassTest(g), PassTest(f), PassTest(f));
    FilterIsSubseq(Kept(doctors, g), PassTest(f));
  }

  /** The speciality criterion is an OR: selecting `a + b` lets through the
      doctors that `a` or `b` lets through. */
  lemma SpecialitiesUnion(d: Doctor, a: seq<string>, b: seq<string>)
    ensures HasSomeSpeciality(d, a + b) <==> HasSomeSpeciality(d, a) || HasSomeSpeciality(d, b)
  {
    if HasSomeSpeciality(d, a + b) {
      var s :| s in a + b && s in d.speciality;
      assert s in a || s in b;
    }
    if HasSomeSpeciality(d, a) {
      var s :| s in a && s in d.speciality;
      assert s in a + b;
    }
    if HasSomeSpeciality(d, b) {
      var s :| s in b && s in d.speciality;
      assert s in a + b;
    }
  }

  /** The search stage of `filterDoctors` keeps the doctors the search criterion lets through. */
  lemma SearchStep(doctors: seq<Doctor>, f: FilterState)
    ensures (if f.searchQuery != "" then Filter(doctors, NameTest(f.searchQuery)) else doctors)
      == Filter(doctors, SearchStage(f))
  {
    if f.searchQuery != "" {
      FilterCongruent(doctors, NameTest(f.searchQuery), SearchStage(f));
    } else {
      FilterAllPass(doctors, SearchStage(f));
    }
  }

  /** After the consultation stage the doctors kept are those the search and
      consultation criteria let through. */
  lemma ModeStep(doctors: seq<Doctor>, f: FilterState)
    ensures (if f.consultationType != AnyMode
             then Filter(Filter(doctors, SearchStage(f)), ConsultationTest(f.consultationType.mode))
             else Filter(doctors, SearchStage(f)))
      == Filter(doctors, ModeStage(f))
  {
    if f.consultationType != AnyMode {
      FilterFilter(doctors, SearchStage(f), ConsultationTest(f.consultationType.mode), ModeStage(f));
    } else {
      FilterCongruent(doctors, SearchStage(f), ModeStage(f));
    }
  }

  /** After the speciality stage the doctors kept are those every criterion lets through. */
  lemma SpecialityStep(doctors: seq<Doctor>, f: FilterState)
    ensures (if |f.specialities| > 0
             then Filter(Filter(doctors, ModeStage(f)), SpecialityTest(f.specialities))
             else Filter(doctors, ModeStage(f)))
      == Kept(doctors, f)
  {
    if |f.specialities| > 0 {
      FilterFilter(doctors, ModeStage(f), SpecialityTest(f.specialities), PassTest(f));
    } else {
      FilterCongruent(doctors, ModeStage(f), PassTest(f));
    }
  }

  /** Derives the visible list as `filterDoctors` does: copy the loaded list,
      narrow it by each active criterion in turn, then sort it in place. */
  method FilterDoctors(doctors: seq<Doctor>, filters: FilterState) returns (result: seq<Doctor>)
    ensures result == Visible(doctors, filters)
  {
    result := doctors;
    SearchStep(doctors, filters);
    result := if filters.searchQuery != "" then Filter(result, NameTest(filters.searchQuery)) else result;
    ModeStep(doctors, filters);
    result := if filters.consultationType != AnyMode
      then Filter(result, ConsultationTest(filters.consultationType.mode)) else result;
    SpecialityStep(doctors, filters);
    result := if |filters.specialities| > 0
      then Filter(result, SpecialityTest(filters.specialities)) else result;
    match filters.sortBy {
      case Unsorted =>
      case SortBy(key) =>
        result := SortCopy(result, key);
    }
  }

  // ---------------------------------------------------------------------
  // The query parameters

  /** The names of the query parameters, in the order the source sets them. */
  datatype ParamName = Search | Type | Specialities | Sort

  /** The name as it appears in the query string. */
  function NameString(n: ParamName): (r: string)
    ensures r in ["search", "type", "specialities", "sort"]
  {
    match n
    case Search => "search"
    case Type => "type"
    case Specialities => "specialities"
    case Sort => "sort"
  }

  /** Distinct names have distinct key strings, so comparing names decides
      what comparing the keys decides. */
  lemma NameStringInjective(a: ParamName, b: ParamName)
    ensures NameString(a) == NameString(b) <==> a == b
  {
  }

  function Position(n: ParamName): nat
  {
    match n
    case Search => 0
    case Type => 1
    case Specialities => 2
    case Sort => 3
  }

  datatype Param = Param(name: ParamName, value: string)

  /** The value of the first parameter named `name`. */
  function Lookup(params: seq<Param>, name: ParamName): Option<string>
  {
    if params == [] then None
    else if params[0].name == name then Some(params[0].value)
    else Lookup(params[1..], name)
  }

  function Other(name: ParamName): Param -> bool
  {
    (p: Param) => p.name != name
  }

  /** Dropping the parameters named `name` leaves every other name's value alone. */
  lemma {:induction false} LookupOther(params: seq<Param>, name: ParamName, n: ParamName)
    requires n != name
    ensures Lookup(Filter(params, Other(name)), n) == Lookup(params, n)
    decreases |params|
  {
    if params != [] {
      LookupOther(params[1..], name, n);
      assert params == [params[0]] + params[1..];
      if params[0].name != name {
        assert Filter(params, Other(name)) == [params[0]] + Filter(params[1..], Other(name));
      } else {
        assert Filter(params, Other(name)) == Filter(params[1..], Other(name));
      }
    }
  }

  lemma LookupOthers(params: seq<Param>, name: ParamName)
    ensures forall n :: n != name ==> Lookup(Filter(params, Other(name)), n) == Lookup(params, n)
  {
    forall n | n != name {
      LookupOther(params, name, n);
    }
  }

  /** URLSearchParams.set: overwrite the value of the first parameter named
      `name` and drop the later ones, or append a new parameter when there is
      none. The parameters of every other name keep their values. */
  function SetParam(params: seq<Param>, name: ParamName, value: string): (r: seq<Param>)
    ensures Lookup(r, name) == Some(value)
    ensures forall n :: n != name ==> Lookup(r, n) == Lookup(params, n)
    ensures Filter(r, Other(name)) == Filter(params, Other(name))
    decreases |params|
  {
    if params == [] then [Param(name, value)]
    else if params[0].name == name then
      LookupOthers(params[1..], name);
      DropNameAgain(params, name, value);
      [Param(name, value)] + Filter(params[1..], Other(name))
    else
      var r := [params[0]] + SetParam(params[1..], name, value);
      assert params == [params[0]] + params[1..];
      assert r[1..] == SetParam(params[1..], name, value);
      r
  }

  function Named(name: ParamName): Param -> bool
  {
    (p: Param) => p.name == name
  }

  /** After `set`, exactly one pair carries the name, and it holds the new value. */
  lemma {:induction false} SetParamSingle(params: seq<Param>, name: ParamName, value: string)
    ensures Filter(SetParam(params, name, value), Named(name)) == [Param(name, value)]
    decreases |params|
  {
    var r := SetParam(params, name, value);
    if params == [] {
      assert r[1..] == [];
    } else if params[0].name == name {
      var rest := Filter(params[1..], Other(name));
      FilterNonePass(rest, Named(name));
      assert r[1..] == rest;
    } else {
      SetParamSingle(params[1..], name, value);
      assert r[1..] == SetParam(params[1..], name, value);
    }
  }

  /** When the name is absent, `set` appends the pair at the end. */
  lemma {:induction false} SetParamAbsent(params: seq<Param>, name: ParamName, value: string)
    requires Lookup(params, name) == None
    ensures SetParam(params, name, value) == params + [Param(name, value)]
    decreases |params|
  {
    if params != [] {
      assert params[0].name != name;
      SetParamAbsent(params[1..], name, value);
      AppendCons(params, Param(name, value));
    }
  }

  /** `set` passes over a prefix in which the name does not occur. */
  lemma {:induction false} SetParamSkips(params: seq<Param>, name: ParamName, value: string, i: nat)
    requires i <= |params|
    requires forall j :: 0 <= j < i ==> params[j].name != name
    ensures SetParam(params, name, value) == params[..i] + SetParam(params[i..], name, value)
    decreases i
  {
    if i > 0 {
      var rest := params[1..];
      forall j | 0 <= j < i - 1 ensures rest[j].name != name {
        assert rest[j] == params[j + 1];
      }
      SetParamSkips(rest, name, value, i - 1);
      assert rest[i - 1..] == params[i..];
      assert params[0].name != name;
      PrefixCons(params, i, SetParam(params[i..], name, value));
    } else {
      assert params[..i] == [] && params[i..] == params;
    }
  }

  /** When the name is present, the new pair takes the place of its first
      pair, the pairs before it stay, and later pairs of the name are dropped. */
  lemma SetParamInPlace(params: seq<Param>, name: ParamName, value: string, i: nat)
    requires i < |params| && params[i].name == name
    requires forall j :: 0 <= j < i ==> params[j].name != name
    ensures SetParam(params, name, value) ==
      params[..i] + [Param(name, value)] + Filter(params[i + 1..], Other(name))
  {
    SetParamSkips(params, name, value, i);
    assert params[i..][1..] == params[i + 1..];
  }

  /** Replacing a leading pair of `name` and dropping its later ones leaves
      the pairs of every other name as they were, in order. */
  lemma DropNameAgain(params: seq<Param>, name: ParamName, value: string)
    requires params != [] && params[0].name == name
    ensures Filter([Param(name, value)] + Filter(params[1..], Other(name)), Other(name)) == Filter(params, Other(name))
  {
    var rest := Filter(params[1..], Other(name));
    assert params == [params[0]] + params[1..];
    assert ([Param(name, value)] + rest)[1..] == rest;
    forall x | x in rest ensures Other(name)(x) {
      FilterMembership(params[1..], Other(name), x);
    }
    FilterAllPass(rest, Other(name));
  }

  /** Setting a parameter that comes after every present one appends it. */
  lemma {:induction false} SetParamAppends(params: seq<Param>, name: ParamName, value: string)
    requires forall i :: 0 <= i < |params| ==> Position(params[i].name) < Position(name)
    ensures SetParam(params, name, value) == params + [Param(name, value)]
    decreases |params|
  {
    if params != [] {
      SetParamAppends(params[1..], name, value);
      AppendCons(params, Param(name, value));
    }
  }

  /** The parameter for one criterion: absent when the criterion is at its default. */
  function Entry(present: bool, name: ParamName, value: string): seq<Param>
  {
    if present then [Param(name, value)] else []
  }

  /** The query parameters the criteria are written to: one per criterion
      that is not at its default, in the order search, type, specialities, sort. */
  function ParamsOf(filters: FilterState): seq<Param>
  {
    Entry(filters.searchQuery != "", Search, filters.searchQuery)
    + Entry(filters.consultationType != AnyMode, Type, ModeValue(filters.consultationType))
    + Entry(|filters.specialities| > 0, Specialities, Join(filters.specialities, ','))
    + Entry(filters.sortBy != Unsorted, Sort, SortValue(filters.sortBy))
  }

  /** Looking up a name in a concatenation finds it in the first part if it is there. */
  lemma {:induction false} LookupConcat(a: seq<Param>, b: seq<Param>, name: ParamName)
    ensures Lookup(a + b, name) == if Lookup(a, name).Some? then Lookup(a, name) else Lookup(b, name)
    decreases |a|
  {
    if a != [] {
      LookupConcat(a[1..], b, name);
      assert (a + b)[1..] == a[1..] + b;
    } else {
      assert a + b == b;
    }
  }

  /** The entry for one criterion holds that criterion's value and no other name. */
  lemma LookupEntry(present: bool, name: ParamName, value: string, n: ParamName)
    ensures Lookup(Entry(present, name, value), n) == if present && n == name then Some(value) else None
  {
  }

  lemma LookupThrough(e1: seq<Param>, e2: seq<Param>, e3: seq<Param>, e4: seq<Param>, name: ParamName)
    ensures Lookup(e1 + e2 + e3 + e4, name) ==
      if Lookup(e1, name).Some? then Lookup(e1, name)
      else if Lookup(e2, name).Some? then Lookup(e2, name)
      else if Lookup(e3, name).Some? then Lookup(e3, name)
      else Lookup(e4, name)
  {
    LookupConcat(e1 + e2 + e3, e4, name);
    LookupConcat(e1 + e2, e3, name);
    LookupConcat(e1, e2, name);
  }

  /** The value a criterion stands for in the query string: None while the
      criterion is at its default. */
  function CriterionValue(filters: FilterState, n: ParamName): Option<string>
  {
    match n
    case Search => if filters.searchQuery != "" then Some(filters.searchQuery) else None
    case Type => if filters.consultationType != AnyMode then Some(ModeValue(filters.consultationType)) else None
    case Specialities => if |filters.specialities| > 0 then Some(Join(filters.specialities, ',')) else None
    case Sort => if filters.sortBy != Unsorted then Some(SortValue(filters.sortBy)) else None
  }

  /** Each criterion can be read back from its own parameter, and a criterion
      at its default has no parameter. */
  lemma ParamsOfLookup(filters: FilterState, n: ParamName)
    ensures Lookup(ParamsOf(filters), n) == CriterionValue(filters, n)
  {
    var e1 := Entry(filters.searchQuery != "", Search, filters.searchQuery);
    var e2 := Entry(filters.consultationType != AnyMode, Type, ModeValue(filters.consultationType));
    var e3 := Entry(|filters.specialities| > 0, Specialities, Join(filters.specialities, ','));
    var e4 := Entry(filters.sortBy != Unsorted, Sort, SortValue(filters.sortBy));
    LookupThrough(e1, e2, e3, e4, n);
    LookupEntry(filters.searchQuery != "", Search, filters.searchQuery, n);
    LookupEntry(filters.consultationType != AnyMode, Type, ModeValue(filters.consultationType), n);
    LookupEntry(|filters.specialities| > 0, Specialities, Join(filters.specialities, ','), n);
    LookupEntry(filters.sortBy != Unsorted, Sort, SortValue(filters.sortBy), n);
  }

  /** Names strictly increase along the parameters, so none repeats. */
  predicate InOrder(params: seq<Param>)
  {
    forall i, j :: 0 <= i < j < |params| ==> Position(params[i].name) < Position(params[j].name)
  }

  /** Every parameter comes before `name`. */
  predicate Before(params: seq<Param>, name: ParamName)
  {
    forall i :: 0 <= i < |params| ==> Position(params[i].name) < Position(name)
  }

  /** Appending the entry for a name after every present one keeps the order. */
  lemma AppendEntryInOrder(params: seq<Param>, present: bool, name: ParamName, value: string)
    requires InOrder(params) && Before(params, name)
    ensures InOrder(params + Entry(present, name, value))
    ensures forall i :: 0 <= i < |params + Entry(present, name, value)| ==>
      Position((params + Entry(present, name, value))[i].name) <= Position(name)
  {
    var r := params + Entry(present, name, value);
    forall i, j | 0 <= i < j < |r| ensures Position(r[i].name) < Position(r[j].name) {
      assert r[i] == params[i];
      if j < |params| {
        assert r[j] == params[j];
      }
    }
    forall i | 0 <= i < |r| ensures Position(r[i].name) <= Position(name) {
      if i < |params| {
        assert r[i] == params[i];
      }
    }
  }

  /** One conditional `params.set` of `updateURLParams`, on parameters that
      all come before `name`: it appends the parameter when it is present. */
  method SetIf(params: seq<Param>, present: bool, name: ParamName, value: string) returns (r: seq<Param>)
    requires InOrder(params) && Before(params, name)
    ensures r == params + Entry(present, name, value)
    ensures InOrder(r)
    ensures forall i :: 0 <= i < |r| ==> Position(r[i].name) <= Position(name)
  {
    AppendEntryInOrder(params, present, name, value);
    if present {
      SetParamAppends(params, name, value);
      r := SetParam(params, name, value);
    } else {
      r := params;
    }
  }

  /** `updateURLParams`: set one parameter per criterion not at its default.
      The result is the parameter list ParamsOf describes, and its names
      appear in the order search, type, specialities, sort, none twice. */
  method BuildParams(filters: FilterState) returns (params: seq<Param>)
    ensures params == ParamsOf(filters)
    ensures InOrder(params)
  {
    params := [];
    params := SetIf(params, filters.searchQuery != "", Search, filters.searchQuery);
    params := SetIf(params, filters.consultationType != AnyMode, Type, ModeValue(filters.consultationType));
    params := SetIf(params, |filters.specialities| > 0, Specialities, Join(filters.specialities, ','));
    params := SetIf(params, filters.sortBy != Unsorted, Sort, SortValue(filters.sortBy));
  }
}
