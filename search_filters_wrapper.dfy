/**
 * The state of the search-and-filter panel of
 * gsoc-guide/src/components/SearchFiltersWrapper.tsx: the same data as
 * the organizations page, but the filtered list is never sorted.
 */
module SearchFilters {
  import opened Seqs
  import opened Domain
  import opened OrgListing

  class SearchFiltersWrapper {
    var organizations: seq<Organization>
    var filteredOrgs: seq<Organization>
    var loading: bool
    var searchQuery: string
    var allTechnologies: seq<string>
    var allTopics: seq<string>
    var proposalsMap: map<string, bool>
    var error: bool

    constructor()
      ensures organizations == [] && filteredOrgs == [] && loading && searchQuery == ""
      ensures allTechnologies == [] && allTopics == [] && proposalsMap == map[] && !error
    {
      organizations, filteredOrgs, loading, searchQuery := [], [], true, "";
      allTechnologies, allTopics, proposalsMap, error := [], [], map[], false;
    }

    /**
     * The fetch on mount succeeded: the flagged organizations are stored
     * and shown in the order received.
     */
    method LoadSucceeded(orgs: seq<Organization>, proposalsData: map<string, bool>)
      modifies this`organizations, this`filteredOrgs, this`proposalsMap, this`allTechnologies, this`allTopics
      modifies this`loading, this`error
      ensures organizations == MergeProposalFlags(orgs, proposalsData) && filteredOrgs == organizations
      ensures proposalsMap == proposalsData
      ensures allTechnologies == Dedup(AllTechnologies(orgs)) && allTopics == Dedup(AllTopics(orgs))
      ensures !loading && !error
    {
      var orgsWithProposalsFlag := MergeProposalFlags(orgs, proposalsData);
      var techs, topics := CollectTechnologiesAndTopics(orgs);
      organizations, filteredOrgs, proposalsMap := orgsWithProposalsFlag, orgsWithProposalsFlag, proposalsData;
      allTechnologies, allTopics := techs, topics;
      loading, error := false, false;
    }

    /** The fetch on mount failed: an error is shown and both lists are emptied. */
    method LoadFailed()
      modifies this`error, this`loading, this`organizations, this`filteredOrgs
      ensures error && !loading && organizations == [] && filteredOrgs == []
    {
      error, loading := true, false;
      organizations, filteredOrgs := [], [];
    }

    /**
     * `applyFilters`: the stored organizations passing every filter, in
     * their stored order.
     */
    method ApplyFilters(query: string, sel: FilterSelection)
      modifies this`filteredOrgs
      ensures filteredOrgs == Matching(organizations, query, sel)
    {
      filteredOrgs := FilterOrganizations(organizations, query, sel);
    }

    /** `handleSearch`: stores the query and applies it with every other filter cleared. */
    method HandleSearch(query: string)
      modifies this`searchQuery, this`filteredOrgs
      ensures searchQuery == query
      ensures filteredOrgs == Matching(organizations, query, NoFilters)
    {
      searchQuery := query;
      ApplyFilters(query, NoFilters);
    }

    /** `handleFilterChange`: applies the reported filters together with the stored query. */
    method HandleFilterChange(sel: FilterSelection)
      modifies this`filteredOrgs
      ensures filteredOrgs == Matching(organizations, searchQuery, sel)
    {
      ApplyFilters(searchQuery, sel);
    }
  }

  /**
   * A search keeps exactly the organizations whose lower-cased name or
   * description contains the lower-cased query, however the filters were
   * set before; an empty query keeps them all.
   */
  lemma SearchResetsFilters(orgs: seq<Organization>, query: string)
    ensures forall o :: o in Matching(orgs, query, NoFilters) <==> o in orgs && PassesQuery(query, o)
    ensures query == "" ==> Matching(orgs, query, NoFilters) == orgs
  {
    if query == "" {
      MatchingNothingSelected(orgs);
    }
  }
}
