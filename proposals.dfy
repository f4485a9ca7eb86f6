/**
 * The local proposal reader of gsoc-guide/src/utils/proposals.ts: the
 * organization folders of the `Proposals` mirror, the PDF records of one
 * folder, and the has-proposals map over all folders.
 */
module LocalProposals {
  import opened Text
  import opened Seqs
  import opened Domain
  import opened Rekey

  /** `getAvailableOrganizations`: the mirror's folder names, or none when it cannot be read. */
  function AvailableOrganizations(mirror: LocalMirror): (r: seq<string>)
    ensures mirror.root.Unavailable? ==> r == []
    ensures mirror.root.Listed? ==> r == mirror.root.items
  {
    match mirror.root
    case Unavailable => []
    case Listed(names) => names
  }

  /** `file.endsWith('.pdf')`: this reader compares the extension case-sensitively. */
  predicate IsPdfFile(f: LocalFile)
  {
    EndsWith(f.name, ".pdf")
  }

  /** The record built for one file: name and served path only. */
  function ProposalRecord(enc: string -> string, orgName: string, f: LocalFile): Proposal
  {
    Proposal(f.name, PdfApiPath(enc, orgName, f.name), None, None)
  }

  /**
   * `getProposalsForOrganization`: nothing when the folder named `orgName`
   * cannot be read; otherwise one record per file whose name ends in
   * `.pdf`, in listing order, served under the name as given.
   */
  function ProposalsForOrganization(mirror: LocalMirror, enc: string -> string, orgName: string): (r: seq<Proposal>)
    ensures FolderAt(mirror, orgName).Unavailable? ==> r == []
    ensures FolderAt(mirror, orgName).Listed? ==>
      var files := FolderAt(mirror, orgName).items;
      && |r| == |Filter(IsPdfFile, files)|
      && (forall i :: 0 <= i < |r| ==> r[i] == ProposalRecord(enc, orgName, Filter(IsPdfFile, files)[i]))
    ensures forall p :: p in r ==>
      (EndsWith(p.fileName, ".pdf") && p.size.None? && p.sha.None? && p.path == PdfApiPath(enc, orgName, p.fileName))
    ensures |r| > 0 <==> HasPdf(mirror, orgName)
  {
    match FolderAt(mirror, orgName)
    case Unavailable => []
    case Listed(files) =>
      var pdfs := Filter(IsPdfFile, files);
      var r := seq(|pdfs|, i requires 0 <= i < |pdfs| => ProposalRecord(enc, orgName, pdfs[i]));
      FilterNonEmpty(IsPdfFile, files);
      assert forall p :: p in r ==> EndsWith(p.fileName, ".pdf") && p.size.None? && p.sha.None? && p.path == PdfApiPath(enc, orgName, p.fileName) by {
        forall p | p in r
          ensures EndsWith(p.fileName, ".pdf") && p.size.None? && p.sha.None? && p.path == PdfApiPath(enc, orgName, p.fileName)
        {
          var i :| 0 <= i < |r| && r[i] == p;
          assert pdfs[i] in pdfs;
        }
      }
      r
  }

  /** The folder `orgName` can be read and holds a file ending in `.pdf`. */
  predicate HasPdf(mirror: LocalMirror, orgName: string)
  {
    FolderAt(mirror, orgName).Listed? &&
    exists f :: f in FolderAt(mirror, orgName).items && IsPdfFile(f)
  }

  /** Each folder name paired with whether it has proposals, in listing order. */
  function PdfFlags(mirror: LocalMirror, enc: string -> string, names: seq<string>): (r: seq<(string, bool)>)
    ensures |r| == |names|
    ensures forall i :: 0 <= i < |names| ==> r[i] == (names[i], HasPdf(mirror, names[i]))
  {
    seq(|names|, i requires 0 <= i < |names| => (names[i], HasPdf(mirror, names[i])))
  }

  /** The flags of a prefix one longer extend those of the prefix by one pair. */
  lemma PdfFlagsPrefix(mirror: LocalMirror, enc: string -> string, names: seq<string>, i: int)
    requires 0 <= i < |names|
    ensures PdfFlags(mirror, enc, names[..i + 1]) == PdfFlags(mirror, enc, names[..i]) + [(names[i], HasPdf(mirror, names[i]))]
  {
    var a, b := PdfFlags(mirror, enc, names[..i + 1]), PdfFlags(mirror, enc, names[..i]) + [(names[i], HasPdf(mirror, names[i]))];
    assert |a| == |b|;
    forall k | 0 <= k < |a| ensures a[k] == b[k] {
      if k < i {
        assert names[..i + 1][k] == names[..i][k];
      }
    }
  }

  /** The map written from `names`: its keys, and the flag the last spelling of each key leaves. */
  lemma PdfFlagMapProperties(mirror: LocalMirror, enc: string -> string, names: seq<string>)
    ensures LowerKeyed(PdfFlags(mirror, enc, names)).Keys == set i | 0 <= i < |names| :: Lower(names[i])
    ensures forall i :: 0 <= i < |names| && (forall j :: i < j < |names| ==> Lower(names[j]) != Lower(names[i])) ==>
      LowerKeyed(PdfFlags(mirror, enc, names))[Lower(names[i])] == HasPdf(mirror, names[i])
  {
    var entries := PdfFlags(mirror, enc, names);
    LowerKeyedKeys(entries);
    assert LowerNames(entries) == set i | 0 <= i < |names| :: Lower(names[i]);
    forall i | 0 <= i < |names| && (forall j :: i < j < |names| ==> Lower(names[j]) != Lower(names[i]))
      ensures LowerKeyed(entries)[Lower(names[i])] == HasPdf(mirror, names[i])
    {
      LowerKeyedLastWins(entries, i);
    }
  }

  /** The `forEach` over the folder names: each name's flag is written under its lower-cased key, in listing order. */
  method WritePdfFlags(mirror: LocalMirror, enc: string -> string, orgs: seq<string>) returns (result: map<string, bool>)
    ensures result == LowerKeyed(PdfFlags(mirror, enc, orgs))
  {
    result := map[];
    var i := 0;
    while i < |orgs|
      invariant 0 <= i <= |orgs|
      invariant result == LowerKeyed(PdfFlags(mirror, enc, orgs[..i]))
    {
      var org := orgs[i];
      var proposals := ProposalsForOrganization(mirror, enc, org);
      assert (|proposals| > 0) == HasPdf(mirror, org);
      PdfFlagsPrefix(mirror, enc, orgs, i);
      result := result[Lower(org) := |proposals| > 0];
      i := i + 1;
    }
    assert orgs[..i] == orgs;
  }

  /**
   * `getAllOrganizationsWithProposals`: one key per lower-cased folder
   * name; written in listing order, so of several folders whose names
   * differ only in case the last one decides the flag.
   */
  method AllOrganizationsWithProposals(mirror: LocalMirror, enc: string -> string) returns (result: map<string, bool>)
    ensures var orgs := AvailableOrganizations(mirror);
      result.Keys == set i | 0 <= i < |orgs| :: Lower(orgs[i])
    ensures var orgs := AvailableOrganizations(mirror);
      forall i :: 0 <= i < |orgs| && (forall j :: i < j < |orgs| ==> Lower(orgs[j]) != Lower(orgs[i])) ==>
        result[Lower(orgs[i])] == HasPdf(mirror, orgs[i])
  {
    var orgs := AvailableOrganizations(mirror);
    result := WritePdfFlags(mirror, enc, orgs);
    PdfFlagMapProperties(mirror, enc, orgs);
  }
}
