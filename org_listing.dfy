/**
 * The listing logic that gsoc-guide/src/components/OrganizationsLayout.tsx
 * and gsoc-guide/src/components/SearchFiltersWrapper.tsx share: merging
 * the has-proposals flag into the organizations, collecting the distinct
 * technologies and topics, and the chain of filters.
 */
module OrgListing {
  import opened Text
  import opened Seqs
  import opened Domain

  // Merging the has-proposals flag

  /** `proposalsData[name.toLowerCase()] || false` */
  predicate FlagFor(proposalsData: map<string, bool>, name: string)
  {
    Lower(name) in proposalsData && proposalsData[Lower(name)]
  }

  /**
   * `orgs.map(org => ({...org, hasProposals: …}))`: the same organizations
   * in the same order, each flagged as the map says for its lower-cased
   * name (false when absent), every other field unchanged.
   */
  function MergeProposalFlags(orgs: seq<Organization>, proposalsData: map<string, bool>): (r: seq<Organization>)
    ensures |r| == |orgs|
    ensures forall i :: 0 <= i < |orgs| ==>
      r[i] == orgs[i].(hasProposals := Lower(orgs[i].name) in proposalsData && proposalsData[Lower(orgs[i].name)])
  {
    seq(|orgs|, i requires 0 <= i < |orgs| => orgs[i].(hasProposals := FlagFor(proposalsData, orgs[i].name)))
  }

  /** Organizations whose names differ only in case get the same flag. */
  lemma MergeIgnoresCase(orgs: seq<Organization>, proposalsData: map<string, bool>, i: int, j: int)
    requires 0 <= i < |orgs| && 0 <= j < |orgs| && Lower(orgs[i].name) == Lower(orgs[j].name)
    ensures MergeProposalFlags(orgs, proposalsData)[i].hasProposals == MergeProposalFlags(orgs, proposalsData)[j].hasProposals
  {
  }

  // Collecting technologies and topics

  /** Every technology of every organization, in order, repetitions included. */
  function AllTechnologies(orgs: seq<Organization>): seq<string>
    decreases |orgs|
  {
    if orgs == [] then [] else AllTechnologies(orgs[..|orgs| - 1]) + orgs[|orgs| - 1].technologies
  }

  /** Every topic of every organization, in order, repetitions included. */
  function AllTopics(orgs: seq<Organization>): seq<string>
    decreases |orgs|
  {
    if orgs == [] then [] else AllTopics(orgs[..|orgs| - 1]) + orgs[|orgs| - 1].topics
  }

  lemma {:induction false} AllTechnologiesMembers(orgs: seq<Organization>, t: string)
    ensures t in AllTechnologies(orgs) <==> exists o :: o in orgs && t in o.technologies
    decreases |orgs|
  {
    if orgs != [] {
      var init := orgs[..|orgs| - 1];
      AllTechnologiesMembers(init, t);
      assert orgs == init + [orgs[|orgs| - 1]];
    }
  }

  lemma {:induction false} AllTopicsMembers(orgs: seq<Organization>, t: string)
    ensures t in AllTopics(orgs) <==> exists o :: o in orgs && t in o.topics
    decreases |orgs|
  {
    if orgs != [] {
      var init := orgs[..|orgs| - 1];
      AllTopicsMembers(init, t);
      assert orgs == init + [orgs[|orgs| - 1]];
    }
  }

  /**
   * `items.forEach(x => set.add(x))` on a `Set` whose contents, in
   * insertion order, are `Dedup(seen)`: each new item is appended once.
   */
  method AddAll(contents: seq<string>, seen: seq<string>, items: seq<string>) returns (r: seq<string>)
    requires contents == Dedup(seen)
    ensures r == Dedup(seen + items)
  {
    r := contents;
    assert seen + items[..0] == seen;
    for j := 0 to |items|
      invariant r == Dedup(seen + items[..j])
    {
      var x := items[j];
      assert seen + items[..j + 1] == (seen + items[..j]) + [x];
      DedupSnoc(seen + items[..j], x);
      if x !in r {
        r := r + [x];
      }
    }
    assert items[..|items|] == items;
  }

  /**
   * The two `Set`s filled by `forEach`/`add`, read back with `Array.from`:
   * each technology (topic) of any organization once, in order of first
   * appearance.
   */
  method CollectTechnologiesAndTopics(orgs: seq<Organization>) returns (techs: seq<string>, topics: seq<string>)
    ensures techs == Dedup(AllTechnologies(orgs)) && topics == Dedup(AllTopics(orgs))
  {
    techs, topics := [], [];
    for i := 0 to |orgs|
      invariant techs == Dedup(AllTechnologies(orgs[..i]))
      invariant topics == Dedup(AllTopics(orgs[..i]))
    {
      var org := orgs[i];
      assert orgs[..i + 1][..i] == orgs[..i];
      techs := AddAll(techs, AllTechnologies(orgs[..i]), org.technologies);
      topics := AddAll(topics, AllTopics(orgs[..i]), org.topics);
    }
    assert orgs[..|orgs|] == orgs;
  }

  /**
   * The collected lists hold each technology (topic) of any organization,
   * and each only once.
   */
  lemma CollectedOnceEach(orgs: seq<Organization>)
    ensures Distinct(Dedup(AllTechnologies(orgs))) && Distinct(Dedup(AllTopics(orgs)))
    ensures forall t :: t in Dedup(AllTechnologies(orgs)) <==> exists o :: o in orgs && t in o.technologies
    ensures forall t :: t in Dedup(AllTopics(orgs)) <==> exists o :: o in orgs && t in o.topics
  {
    DedupContents(AllTechnologies(orgs));
    DedupContents(AllTopics(orgs));
    forall t ensures t in Dedup(AllTechnologies(orgs)) <==> exists o :: o in orgs && t in o.technologies {
      AllTechnologiesMembers(orgs, t);
    }
    forall t ensures t in Dedup(AllTopics(orgs)) <==> exists o :: o in orgs && t in o.topics {
      AllTopicsMembers(orgs, t);
    }
  }

  // Filtering

  /** The lower-cased name or description contains `lowerQuery`. */
  predicate QueryMatches(lowerQuery: string, o: Organization)
  {
    Includes(Lower(o.name), lowerQuery) || Includes(Lower(o.description), lowerQuery)
  }

  /** `selected.some(x => values.includes(x))` */
  predicate SharesAny(selected: seq<string>, values: seq<string>)
  {
    exists x :: x in selected && x in values
  }

  /** The query test; the empty query is falsy and filters nothing. */
  predicate PassesQuery(query: string, o: Organization)
  {
    query == "" || QueryMatches(Lower(query), o)
  }

  /** The technology test; an empty selection filters nothing. */
  predicate PassesTechnologies(sel: FilterSelection, o: Organization)
  {
    sel.technologies == [] || SharesAny(sel.technologies, o.technologies)
  }

  /** The topic test; an empty selection filters nothing. */
  predicate PassesTopics(sel: FilterSelection, o: Organization)
  {
    sel.topics == [] || SharesAny(sel.topics, o.topics)
  }

  /** The proposals-only test. */
  predicate PassesProposals(sel: FilterSelection, o: Organization)
  {
    !sel.hasProposals || o.hasProposals
  }

  /** All four tests: the filters combine as a conjunction. */
  predicate PassesFilters(query: string, sel: FilterSelection, o: Organization)
  {
    PassesQuery(query, o) && PassesTechnologies(sel, o) && PassesTopics(sel, o) && PassesProposals(sel, o)
  }

  /** The tests the chain has applied after its first `stage` steps. */
  function Stage(query: string, sel: FilterSelection, stage: nat): Organization -> bool
  {
    o => PassesQuery(query, o) &&
      (stage >= 2 ==> PassesTechnologies(sel, o)) &&
      (stage >= 3 ==> PassesTopics(sel, o)) &&
      (stage >= 4 ==> PassesProposals(sel, o))
  }

  /** No technology, no topic, proposals-only off: what `handleSearch` passes. */
  const NoFilters := FilterSelection([], [], false)

  /**
   * The organizations passing every test, in their original order: a
   * subsequence of `orgs` that drops nothing passing all four tests.
   */
  function Matching(orgs: seq<Organization>, query: string, sel: FilterSelection): (r: seq<Organization>)
    ensures |r| <= |orgs|
    ensures forall o :: o in r <==> o in orgs && PassesFilters(query, sel, o)
  {
    Filter(Stage(query, sel, 4), orgs)
  }

  /** With no filter active and an empty query every organization passes. */
  lemma MatchingNothingSelected(orgs: seq<Organization>)
    ensures Matching(orgs, "", NoFilters) == orgs
  {
    FilterKeepsAll(Stage("", NoFilters, 4), orgs);
  }

  /**
   * Filtering keeps the listing's order: the matches of a listing split
   * anywhere are the matches of the first part followed by those of the
   * second.
   */
  lemma MatchingKeepsOrder(a: seq<Organization>, b: seq<Organization>, query: string, sel: FilterSelection)
    ensures Matching(a + b, query, sel) == Matching(a, query, sel) + Matching(b, query, sel)
  {
    FilterConcat(Stage(query, sel, 4), a, b);
  }

  /**
   * The body of `applyFilters` up to the sort: `filtered` starts as all
   * organizations and each active filter narrows it in turn. The result
   * keeps, in their original order, exactly the organizations passing
   * every test.
   */
  method FilterOrganizations(orgs: seq<Organization>, query: string, sel: FilterSelection) returns (filtered: seq<Organization>)
    ensures filtered == Matching(orgs, query, sel)
  {
    filtered := orgs;
    if query != "" {
      var lowercaseQuery := Lower(query);
      var byQuery := (o: Organization) => QueryMatches(lowercaseQuery, o);
      filtered := Filter(byQuery, filtered);
      FilterAgree(byQuery, Stage(query, sel, 1), orgs);
    } else {
      FilterKeepsAll(Stage(query, sel, 1), orgs);
    }
    if sel.technologies != [] {
      var technologies := sel.technologies;
      var byTechnology := (o: Organization) => SharesAny(technologies, o.technologies);
      filtered := Filter(byTechnology, filtered);
      FilterCompose(Stage(query, sel, 1), byTechnology, Stage(query, sel, 2), orgs);
    } else {
      FilterAgree(Stage(query, sel, 1), Stage(query, sel, 2), orgs);
    }
    if sel.topics != [] {
      var topics := sel.topics;
      var byTopic := (o: Organization) => SharesAny(topics, o.topics);
      filtered := Filter(byTopic, filtered);
      FilterCompose(Stage(query, sel, 2), byTopic, Stage(query, sel, 3), orgs);
    } else {
      FilterAgree(Stage(query, sel, 2), Stage(query, sel, 3), orgs);
    }
    if sel.hasProposals {
      var byProposals := (o: Organization) => o.hasProposals;
      filtered := Filter(byProposals, filtered);
      FilterCompose(Stage(query, sel, 3), byProposals, Stage(query, sel, 4), orgs);
    } else {
      FilterAgree(Stage(query, sel, 3), Stage(query, sel, 4), orgs);
    }
  }
}
