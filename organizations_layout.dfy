/**
 * The state of the organizations page of
 * gsoc-guide/src/components/OrganizationsLayout.tsx. Each React state
 * variable is a field and each event handler a method; the data fetched
 * on mount arrives as the parameters of `LoadSucceeded`, or `LoadFailed`
 * stands for any error while fetching it.
 */
module Layout {
  import opened Text
  import opened Seqs
  import opened Domain
  import opened OrgListing
  import opened Sorting

  /** What `applyFilters` shows: the filtered organizations, sorted by `key`. */
  function Shown(orgs: seq<Organization>, query: string, sel: FilterSelection, key: SortKey): seq<Organization>
  {
    SortOrganizations(Matching(orgs, query, sel), key)
  }

  /**
   * The list `applyFilters` shows holds exactly the organizations passing
   * every filter, proposals first, each group in `key` order.
   */
  lemma ShownContents(orgs: seq<Organization>, query: string, sel: FilterSelection, key: SortKey)
    ensures var r := Shown(orgs, query, sel, key);
      && (forall o :: o in r <==> o in orgs && PassesFilters(query, sel, o))
      && ProposalsFirst(r) && GroupsSortedBy(key, r)
  {
    SortOrganizationsSameElements(Matching(orgs, query, sel), key);
  }

  /** The filter chain of `applyFilters` followed by `sortOrganizations`. */
  method FilterThenSort(orgs: seq<Organization>, query: string, sel: FilterSelection, key: SortKey)
    returns (sorted: seq<Organization>)
    ensures sorted == Shown(orgs, query, sel, key)
  {
    var filtered := FilterOrganizations(orgs, query, sel);
    sorted := SortOrganizations(filtered, key);
  }

  class OrganizationsLayout {
    var organizations: seq<Organization>
    var filteredOrgs: seq<Organization>
    var loading: bool
    var searchQuery: string
    var allTechnologies: seq<string>
    var allTopics: seq<string>
    var proposalsMap: map<string, bool>
    var error: bool
    var sortBy: SortKey
    /**
     * The `sortBy` seen by the memoized `applyFilters` when it was last
     * rebuilt: its dependencies are `organizations` and `searchQuery`
     * only, so changing the sort option alone does not rebuild it.
     */
    var filterSortBy: SortKey

    constructor()
      ensures organizations == [] && filteredOrgs == [] && loading && searchQuery == ""
      ensures allTechnologies == [] && allTopics == [] && proposalsMap == map[] && !error
      ensures sortBy == ByName && filterSortBy == ByName
    {
      organizations, filteredOrgs, loading, searchQuery := [], [], true, "";
      allTechnologies, allTopics, proposalsMap, error := [], [], map[], false;
      sortBy, filterSortBy := ByName, ByName;
    }

    /**
     * The fetch on mount succeeded with `orgs` and the has-proposals map:
     * the flagged organizations are stored, the shown list is their
     * proposals-first name order, and the technology and topic lists hold
     * each value once.
     */
    method LoadSucceeded(orgs: seq<Organization>, proposalsData: map<string, bool>)
      modifies this`organizations, this`filteredOrgs, this`proposalsMap, this`allTechnologies, this`allTopics
      modifies this`loading, this`error, this`filterSortBy
      ensures organizations == MergeProposalFlags(orgs, proposalsData)
      ensures filteredOrgs == SortByProposalsAndName(organizations)
      ensures proposalsMap == proposalsData
      ensures allTechnologies == Dedup(AllTechnologies(orgs)) && allTopics == Dedup(AllTopics(orgs))
      ensures !loading && !error
      ensures filterSortBy == sortBy
    {
      loading, error := false, false;
      // `organizations` changes, so the next render rebuilds `applyFilters`.
      filterSortBy := sortBy;
      StoreFetched(orgs, proposalsData);
    }

    /**
     * The state set from the fetched data: the technology and topic lists,
     * the flagged organizations, the initial shown list and the
     * has-proposals map.
     */
    method StoreFetched(orgs: seq<Organization>, proposalsData: map<string, bool>)
      modifies this`organizations, this`filteredOrgs, this`proposalsMap, this`allTechnologies, this`allTopics
      ensures organizations == MergeProposalFlags(orgs, proposalsData)
      ensures filteredOrgs == SortByProposalsAndName(organizations)
      ensures proposalsMap == proposalsData
      ensures allTechnologies == Dedup(AllTechnologies(orgs)) && allTopics == Dedup(AllTopics(orgs))
    {
      allTechnologies, allTopics := CollectTechnologiesAndTopics(orgs);
      var orgsWithProposalsFlag := MergeProposalFlags(orgs, proposalsData);
      organizations := orgsWithProposalsFlag;
      filteredOrgs := SortByProposalsAndName(orgsWithProposalsFlag);
      proposalsMap := proposalsData;
    }

    /** The fetch on mount failed: an error is shown and both lists are emptied. */
    method LoadFailed()
      modifies this`error, this`loading, this`organizations, this`filteredOrgs, this`filterSortBy
      ensures error && !loading && organizations == [] && filteredOrgs == []
      ensures filterSortBy == sortBy
    {
      error := true;
      organizations, filteredOrgs := [], [];
      loading := false;
      filterSortBy := sortBy;
    }

    /**
     * `applyFilters(query, …)`: the stored organizations that pass every
     * filter, in the proposals-first order of the sort option the
     * memoized callback saw.
     */
    method ApplyFilters(query: string, sel: FilterSelection)
      modifies this`filteredOrgs
      ensures filteredOrgs == Shown(organizations, query, sel, filterSortBy)
    {
      filteredOrgs := FilterThenSort(organizations, query, sel, filterSortBy);
    }

    /**
     * `setSearchQuery`: stores the query; a different query is a changed
     * dependency of `applyFilters`, whose next rebuild sees the current
     * sort option.
     */
    method SetSearchQuery(query: string)
      modifies this`searchQuery, this`filterSortBy
      ensures searchQuery == query
      ensures filterSortBy == if query != old(searchQuery) then sortBy else old(filterSortBy)
    {
      if query != searchQuery {
        filterSortBy := sortBy;
      }
      searchQuery := query;
    }

    /**
     * `handleSearch`: stores the query and applies it with every other
     * filter cleared, through the `applyFilters` of the current render.
     */
    method HandleSearch(query: string)
      modifies this`searchQuery, this`filteredOrgs, this`filterSortBy
      ensures searchQuery == query
      ensures filteredOrgs == Shown(organizations, query, NoFilters, old(filterSortBy))
      ensures filterSortBy == if query != old(searchQuery) then sortBy else old(filterSortBy)
    {
      ApplyFilters(query, NoFilters);
      SetSearchQuery(query);
    }

    /** `handleFilterChange`: applies the reported filters together with the stored query. */
    method HandleFilterChange(sel: FilterSelection)
      modifies this`filteredOrgs
      ensures filteredOrgs == Shown(organizations, searchQuery, sel, filterSortBy)
    {
      ApplyFilters(searchQuery, sel);
    }

    /**
     * `handleSortChange` as written: it stores the new option but re-sorts
     * the shown list with the option of the current render, the previous one.
     */
    method HandleSortChange(option: SortKey)
      modifies this`sortBy, this`filteredOrgs
      ensures sortBy == option
      ensures filteredOrgs == SortOrganizations(old(filteredOrgs), old(sortBy))
    {
      var sorted := SortOrganizations(filteredOrgs, sortBy);
      sortBy := option;
      filteredOrgs := sorted;
    }

    /**
     * The sort change as intended: the shown list is re-sorted by the
     * chosen option, and filtering afterwards uses it too.
     */
    method HandleSortChangeIntended(option: SortKey)
      modifies this`sortBy, this`filterSortBy, this`filteredOrgs
      ensures sortBy == option && filterSortBy == option
      ensures filteredOrgs == SortOrganizations(old(filteredOrgs), option)
    {
      sortBy, filterSortBy := option, option;
      filteredOrgs := SortOrganizations(filteredOrgs, option);
    }
  }

  /** Two organizations without proposals, sorted by either option. */
  lemma SortTwoWithoutProposals(key: SortKey, a: Organization, b: Organization)
    requires !a.hasProposals && !b.hasProposals
    ensures SortOrganizations([a, b], key) == if InOrder(key, a, b) then [a, b] else [b, a]
  {
    var s := [a, b];
    assert s[1..] == [b] && [b][1..] == [];
    assert Filter(HasProposals, [b]) == [];
    assert Filter(HasProposals, s) == [];
    assert Filter(LacksProposals, [b]) == [b];
    assert Filter(LacksProposals, s) == s;
    assert Sort(key, [b]) == [b];
    assert Sort(key, s) == Insert(key, a, [b]);
    if !InOrder(key, a, b) {
      assert Insert(key, a, [b]) == [b] + Insert(key, a, []);
    }
  }

  /**
   * Re-sorting by the previous option does not give the order of the new
   * one: two organizations without proposals, named "a" with 1 project
   * and "b" with 2, stay in name order after "Project Count" is chosen.
   */
  lemma SortChangeKeepsPreviousOrder()
    ensures var a := Organization("a", "", Some(1), [], [], false);
      var b := Organization("b", "", Some(2), [], [], false);
      && SortOrganizations([a, b], ByName) == [a, b]
      && !InOrder(ByProjectCount, a, b)
      && SortOrganizations([a, b], ByProjectCount) == [b, a]
  {
    var a := Organization("a", "", Some(1), [], [], false);
    var b := Organization("b", "", Some(2), [], [], false);
    assert NameLe(a.name, b.name);
    SortTwoWithoutProposals(ByName, a, b);
    SortTwoWithoutProposals(ByProjectCount, a, b);
  }
}
