/**
 * The bundled organization statistics of
 * gsoc-guide/src/utils/organizations.ts: the imported data file, taken as
 * a parameter, holds the per-organization entries (in object order) and
 * two stored totals.
 */
module Organizations {
  import opened Text
  import opened Domain
  import opened Rekey
  import Seqs
  import OrgData

  datatype OrganizationsFile = OrganizationsFile(
    organizations: seq<(string, ProposalStats)>,
    totalProposals: int,
    totalOrganizations: int)

  /** `getOrganizationsData`: the imported data, unchanged. */
  function OrganizationsData(data: OrganizationsFile): (r: OrganizationsFile)
    ensures r == data
  {
    data
  }

  /**
   * `getOrganizationsWithProposals`: every entry under its lower-cased
   * name with its statistics unchanged; of names that differ only in case
   * the later entry wins.
   */
  method OrganizationsWithProposals(data: OrganizationsFile) returns (result: map<string, ProposalStats>)
    ensures result.Keys == LowerNames(data.organizations)
    ensures forall i :: LastWithKey(data.organizations, i) ==>
      result[Lower(data.organizations[i].0)] == data.organizations[i].1
    ensures forall v :: v in result.Values ==> exists e :: e in data.organizations && e.1 == v
  {
    var entries := data.organizations;
    result := WriteLowerKeyed(entries);
    LowerKeyedKeys(entries);
    forall i | LastWithKey(entries, i) ensures result[Lower(entries[i].0)] == entries[i].1 {
      LowerKeyedLastWins(entries, i);
    }
    forall v | v in result.Values ensures exists e :: e in entries && e.1 == v {
      var k :| k in result && result[k] == v;
      var i := LowerKeyedWitness(entries, k);
      assert entries[i] in entries;
    }
  }

  /** `getTotalProposals`: the stored total, not recomputed from the entries. */
  function TotalProposals(data: OrganizationsFile): (r: int)
    ensures r == data.totalProposals
  {
    data.totalProposals
  }

  /** `getTotalOrganizations`: the stored count, not recomputed from the entries. */
  function TotalOrganizations(data: OrganizationsFile): (r: int)
    ensures r == data.totalOrganizations
  {
    data.totalOrganizations
  }

  /**
   * Since nothing is recomputed, the stored totals can disagree with the
   * entries: here one flagged organization with three proposals sits
   * beside stored totals of zero.
   */
  lemma StoredTotalsNotRecomputed()
    ensures exists data :: (TotalProposals(data) != OrgData.TotalProposals(data.organizations) &&
      TotalOrganizations(data) != |data.organizations|)
  {
    var data := OrganizationsFile([("Org", ProposalStats(true, 3))], 0, 0);
    assert OrgData.TotalProposals(data.organizations) == 3 by {
      assert Seqs.Filter(OrgData.Flagged, data.organizations) == data.organizations;
    }
  }
}
