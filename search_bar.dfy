/** The search box: typing edits the query and offers up to three doctor
    names; choosing one, by click or by Enter, adopts it as the query. */
module SearchBar {
  import opened Types
  import opened Text
  import opened Seqs
  import opened Directory

  /** The most names the box offers at once. */
  const MaxSuggestions: nat := 3

  /** The doctors' names, in order. */
  function Names(ds: seq<Doctor>): (r: seq<string>)
    ensures |r| == |ds|
    ensures forall i :: 0 <= i < |ds| ==> r[i] == ds[i].name
  {
    if ds == [] then [] else [ds[0].name] + Names(ds[1..])
  }

  /** The doctors whose lower-cased name contains the lower-cased value. */
  function Matching(doctors: seq<Doctor>, value: string): seq<Doctor>
  {
    Filter(doctors, NameTest(value))
  }

  /** The names of the first matching doctors, at most MaxSuggestions of them. */
  function Suggestions(doctors: seq<Doctor>, value: string): (r: seq<string>)
    ensures |r| <= MaxSuggestions
  {
    var names := Names(Matching(doctors, value));
    if |names| <= MaxSuggestions then names else names[..MaxSuggestions]
  }

  /** The suggestions are the names of the first matching doctors in list
      order: as many as match, up to three, and every matching name when
      fewer than three are offered. */
  lemma SuggestionsMeaning(doctors: seq<Doctor>, value: string)
    ensures |Suggestions(doctors, value)| == if |Matching(doctors, value)| < MaxSuggestions then |Matching(doctors, value)| else MaxSuggestions
    ensures forall i :: 0 <= i < |Suggestions(doctors, value)| ==> Suggestions(doctors, value)[i] == Matching(doctors, value)[i].name
    ensures |Suggestions(doctors, value)| < MaxSuggestions ==>
      forall d :: d in doctors && NameMatches(d, value) ==> d.name in Suggestions(doctors, value)
  {
    var m := Matching(doctors, value);
    if |m| < MaxSuggestions {
      forall d | d in doctors && NameMatches(d, value) ensures d.name in Suggestions(doctors, value) {
        FilterMembership(doctors, NameTest(value), d);
        var k :| 0 <= k < |m| && m[k] == d;
        assert Suggestions(doctors, value)[k] == d.name;
      }
    }
  }

  /** Each suggestion is the name of a loaded doctor that matches the typed
      value, and adopting it as the query keeps that doctor in the search results. */
  lemma SuggestionHasDoctor(doctors: seq<Doctor>, value: string, i: nat)
    requires i < |Suggestions(doctors, value)|
    ensures exists d :: (d in doctors && d.name == Suggestions(doctors, value)[i]
                         && NameMatches(d, value) && NameMatches(d, d.name))
  {
    SuggestionsMeaning(doctors, value);
    var d := Matching(doctors, value)[i];
    FilterMembership(doctors, NameTest(value), d);
    ContainsSelf(Lower(d.name));
    assert d in doctors && d.name == Suggestions(doctors, value)[i] && NameMatches(d, d.name);
  }

  /** The search box's state: the shared criteria, the names offered, and
      whether the list of names is open. */
  class SearchBox {
    var filters: FilterState
    var suggestions: seq<string>
    var showSuggestions: bool

    /** At most three names are ever offered. */
    ghost predicate Valid()
      reads this
    {
      |suggestions| <= MaxSuggestions
    }

    /** The list of names is drawn only when it is open and not empty. */
    predicate PanelVisible()
      reads this
    {
      showSuggestions && |suggestions| > 0
    }

    constructor(filters: FilterState)
      ensures Valid()
      ensures this.filters == filters && suggestions == [] && !showSuggestions
    {
      this.filters := filters;
      suggestions := [];
      showSuggestions := false;
    }

    /** Typing `value`: the query becomes `value` as typed, and the names are
        recomputed and opened unless `value` trims to nothing, which happens
        exactly when it is only white space (Text.TrimEmptyIffBlank). */
    method HandleSearch(value: string, doctors: seq<Doctor>)
      requires Valid()
      modifies this
      ensures Valid()
      ensures filters == old(filters).(searchQuery := value)
      ensures suggestions == if Trim(value) == [] then [] else Suggestions(doctors, value)
      ensures showSuggestions <==> Trim(value) != []
    {
      filters := filters.(searchQuery := value);
      var trimmed := Trim(value);
      if trimmed != [] {
        suggestions := Suggestions(doctors, value);
        showSuggestions := true;
      } else {
        suggestions := [];
        showSuggestions := false;
      }
    }

    /** Choosing a name: it becomes the query and the list closes. */
    method HandleSuggestionClick(suggestion: string)
      requires Valid()
      modifies this
      ensures Valid()
      ensures filters == old(filters).(searchQuery := suggestion)
      ensures suggestions == old(suggestions) && !showSuggestions
    {
      filters := filters.(searchQuery := suggestion);
      showSuggestions := false;
    }

    /** A key press: Enter adopts the first name offered, if any; every
        other key, and Enter with no names, changes nothing. */
    method HandleKeyDown(key: string)
      requires Valid()
      modifies this
      ensures Valid()
      ensures key == "Enter" && |old(suggestions)| > 0 ==>
        filters == old(filters).(searchQuery := old(suggestions)[0]) && !showSuggestions
      ensures !(key == "Enter" && |old(suggestions)| > 0) ==>
        filters == old(filters) && showSuggestions == old(showSuggestions)
      ensures suggestions == old(suggestions)
    {
      if key == "Enter" && |suggestions| > 0 {
        HandleSuggestionClick(suggestions[0]);
      }
    }
  }
}
