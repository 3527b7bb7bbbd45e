/**
 * The country drop-down: the list of selectable names (four priority
 * countries, a separator, then the rest of the ISO 3166 registry in registry
 * order) and its search-as-you-type filter.
 */
module Countries {

  import opened Text
  import opened Lists

  /** The names always offered first. */
  const PriorityCountries: seq<string> := ["United Kingdom", "United States", "Canada", "United Arab Emirates"]

  /** The entry between the priority names and the rest; it stands for "no selection". */
  const Separator: string := "------------"

  // ---------------------------------------------------------------------------
  // The list of selectable names

  /** A registry name that is not one of the priority names. */
  predicate NotPriority(name: string)
  {
    name !in PriorityCountries
  }

  /** The drop-down's values: priority names, the separator, then every other registry name in registry order. */
  function CountryList(registryNames: seq<string>): (r: seq<string>)
    ensures 5 <= |r| <= 5 + |registryNames|
    ensures r[4] == Separator
    ensures forall k :: 5 <= k < |r| ==> r[k] in registryNames && r[k] !in PriorityCountries
  {
    var rest := Filter(NotPriority, registryNames);
    forall x | x in rest
      ensures x in registryNames
    {
      FilterMembership(NotPriority, registryNames, x);
    }
    PriorityCountries + [Separator] + rest
  }

  /**
   * The shape of the list: the five fixed entries first; each priority name
   * exactly once, whether or not (and however often) the registry holds it;
   * every other registry name as often as the registry holds it.
   */
  lemma CountryListShape(registryNames: seq<string>, name: string)
    ensures CountryList(registryNames)[..5] == ["United Kingdom", "United States", "Canada", "United Arab Emirates", "------------"]
    ensures name in PriorityCountries ==> multiset(CountryList(registryNames))[name] == 1
    ensures name !in PriorityCountries && name != Separator ==>
              multiset(CountryList(registryNames))[name] == multiset(registryNames)[name]
  {
    var rest := Filter(NotPriority, registryNames);
    FilterCount(NotPriority, registryNames, name);
    assert CountryList(registryNames) == PriorityCountries + [Separator] + rest;
    assert multiset(CountryList(registryNames)) == multiset(PriorityCountries) + multiset{Separator} + multiset(rest);
  }

  /** With unique registry names and no registry name equal to the separator, the list has no duplicates. */
  lemma CountryListNoDuplicates(registryNames: seq<string>)
    requires NoDuplicates(registryNames)
    requires Separator !in registryNames
    ensures NoDuplicates(CountryList(registryNames))
  {
    var rest := Filter(NotPriority, registryNames);
    FilterNoDuplicates(NotPriority, registryNames);
    forall x | x in rest
      ensures x !in PriorityCountries + [Separator]
    {
      FilterMembership(NotPriority, registryNames, x);
    }
    var head := PriorityCountries + [Separator];
    var all := head + rest;
    forall a, b | 0 <= a < b < |all|
      ensures all[a] != all[b]
    {
      if b >= |head| && a < |head| {
        assert all[b] == rest[b - |head|];
        assert all[b] in rest;
      }
    }
  }

  // ---------------------------------------------------------------------------
  // Search as you type

  /** The test of the search: the typed text occurs in the name, ignoring case. */
  function MatchesTerm(term: string): string -> bool
  {
    name => ContainsIgnoreCase(name, term)
  }

  /** `[c for c in countries if term.lower() in c.lower()]`. */
  function Matching(countries: seq<string>, term: string): (r: seq<string>)
    ensures |r| <= |countries|
    ensures forall k :: 0 <= k < |r| ==> ContainsIgnoreCase(r[k], term)
  {
    Filter(MatchesTerm(term), countries)
  }

  /**
   * The names offered are the names of `countries` containing the term
   * (ignoring case), each as often as in `countries`, in the same relative
   * order.
   */
  lemma MatchingSpec(countries: seq<string>, more: seq<string>, term: string, name: string)
    ensures name in Matching(countries, term) <==> name in countries && ContainsIgnoreCase(name, term)
    ensures multiset(Matching(countries, term))[name] ==
              if ContainsIgnoreCase(name, term) then multiset(countries)[name] else 0
    ensures Matching(countries + more, term) == Matching(countries, term) + Matching(more, term)
  {
    FilterCount(MatchesTerm(term), countries, name);
    FilterAppend(MatchesTerm(term), countries, more);
  }

  /** Every name contains the empty string: an empty search term offers the whole list. */
  lemma MatchingEmptyTerm(countries: seq<string>)
    ensures Matching(countries, "") == countries
  {
    forall k | 0 <= k < |countries|
      ensures MatchesTerm("")(countries[k])
    {
      ContainsEmpty(Lower(countries[k]));
    }
    FilterKeepsAll(MatchesTerm(""), countries);
  }

  /** Searching the search result again with the same key changes nothing. */
  lemma MatchingIdempotent(countries: seq<string>, term: string)
    ensures Matching(Matching(countries, term), term) == Matching(countries, term)
  {
    FilterKeepsAll(MatchesTerm(term), Matching(countries, term));
  }

  /**
   * The country drop-down (a combobox): its full list, which never changes,
   * the list filtered by the last key typed, the values the combobox shows,
   * and the text currently in its entry field.
   */
  class CountrySearchDropdown {
    const countries: seq<string>
    var filteredCountries: seq<string>
    var values: seq<string>
    var selection: string

    constructor (registryNames: seq<string>)
      ensures countries == CountryList(registryNames)
      ensures filteredCountries == countries && values == countries
      ensures selection == ""
    {
      countries := CountryList(registryNames);
      filteredCountries := countries;
      values := countries;
      selection := "";
    }

    /** Put `text` in the entry field, as `set` does. */
    method Set(text: string)
      modifies this`selection
      ensures selection == text
    {
      selection := text;
    }

    /**
     * The key handler: re-filter the FULL list (not the previous result) by
     * the character of the key pressed, and show the result.
     */
    method SearchCountry(key: string)
      modifies this`filteredCountries, this`values
      ensures filteredCountries == Matching(countries, key)
      ensures values == filteredCountries
      ensures multiset(filteredCountries) <= multiset(countries)
    {
      filteredCountries := Matching(countries, key);
      values := filteredCountries;
      forall name {:trigger multiset(countries)[name]}
        ensures multiset(filteredCountries)[name] <= multiset(countries)[name]
      {
        MatchingSpec(countries, [], key, name);
      }
    }
  }
}
