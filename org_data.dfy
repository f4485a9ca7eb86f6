/**
 * The bundled proposal statistics of gsoc-guide/src/utils/orgData.ts: an
 * object mapping organization names to their statistics, taken here as
 * its entries in object order.
 */
module OrgData {
  import opened Text
  import opened Seqs
  import opened Domain
  import opened Rekey

  /**
   * `getOrgProposalsData`: the statistics keyed by lower-cased name; of
   * names that differ only in case the last entry wins.
   */
  method OrgProposalsData(entries: seq<(string, ProposalStats)>) returns (m: map<string, ProposalStats>)
    ensures m.Keys == LowerNames(entries)
    ensures forall i :: LastWithKey(entries, i) ==> m[Lower(entries[i].0)] == entries[i].1
  {
    m := WriteLowerKeyed(entries);
    LowerKeyedKeys(entries);
    forall i | LastWithKey(entries, i) ensures m[Lower(entries[i].0)] == entries[i].1 {
      LowerKeyedLastWins(entries, i);
    }
  }

  /** What one entry adds to the total: its count if it has proposals, else nothing. */
  function Contribution(e: (string, ProposalStats)): int
  {
    if e.1.hasProposals then e.1.proposalCount else 0
  }

  /**
   * `getTotalProposals`: the `reduce` that adds up the contributions, left
   * to right; it counts exactly the proposals of the organizations flagged
   * as having some.
   */
  function TotalProposals(entries: seq<(string, ProposalStats)>): (r: int)
    ensures r == SumCounts(Filter(Flagged, entries))
  {
    TotalFrom(0, entries)
  }

  /** The `reduce` from accumulator `acc` over `entries`: `acc` plus the counts of the flagged entries. */
  function TotalFrom(acc: int, entries: seq<(string, ProposalStats)>): (r: int)
    ensures r == acc + SumCounts(Filter(Flagged, entries))
    decreases |entries|
  {
    if entries == [] then acc
    else
      var rest := Filter(Flagged, entries[1..]);
      assert Filter(Flagged, entries) == if Flagged(entries[0]) then [entries[0]] + rest else rest;
      assert ([entries[0]] + rest)[1..] == rest;
      TotalFrom(acc + Contribution(entries[0]), entries[1..])
  }

  /** The counts of `entries` added up, whatever their flags. */
  function SumCounts(entries: seq<(string, ProposalStats)>): int
    decreases |entries|
  {
    if entries == [] then 0 else entries[0].1.proposalCount + SumCounts(entries[1..])
  }

  predicate Flagged(e: (string, ProposalStats))
  {
    e.1.hasProposals
  }

  /** With no organization flagged the total is zero, whatever the stored counts. */
  lemma TotalZeroWhenNoneFlagged(entries: seq<(string, ProposalStats)>)
    requires forall e :: e in entries ==> !e.1.hasProposals
    ensures TotalProposals(entries) == 0
  {
    FilterKeepsNone(Flagged, entries);
  }

  /**
   * `getOrganizationsWithProposals`: the lower-cased names of the flagged
   * entries, in object order.
   */
  function OrganizationsWithProposals(entries: seq<(string, ProposalStats)>): (r: seq<string>)
    ensures |r| == |Filter(Flagged, entries)|
    ensures forall i :: 0 <= i < |r| ==> r[i] == Lower(Filter(Flagged, entries)[i].0)
    ensures forall n :: n in r <==> exists e :: e in entries && e.1.hasProposals && Lower(e.0) == n
  {
    var flagged := Filter(Flagged, entries);
    var r := seq(|flagged|, i requires 0 <= i < |flagged| => Lower(flagged[i].0));
    assert forall e :: e in entries && e.1.hasProposals ==> Lower(e.0) in r by {
      forall e | e in entries && e.1.hasProposals ensures Lower(e.0) in r {
        assert Flagged(e);
        var i :| 0 <= i < |flagged| && flagged[i] == e;
        assert r[i] == Lower(e.0);
      }
    }
    assert forall n :: n in r ==> exists e :: e in entries && e.1.hasProposals && Lower(e.0) == n by {
      forall n | n in r ensures exists e :: e in entries && e.1.hasProposals && Lower(e.0) == n {
        var i :| 0 <= i < |r| && r[i] == n;
        assert flagged[i] in flagged;
      }
    }
    r
  }
}
