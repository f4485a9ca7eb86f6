/**
 * gsoc-guide/src/utils/github.ts: where an organization's proposal PDFs
 * come from. The GitHub contents API of the archive repository (branch
 * `main`) is asked first; the local `Proposals` mirror is the fallback.
 * Every request and directory read is an input (`RemoteRepo`,
 * `LocalMirror`), and `encodeURIComponent` is the parameter `enc`.
 */
module GitHub {
  import opened Text
  import opened Seqs
  import opened Domain
  import opened Rekey

  // ---------------------------------------------------------------------
  // Local folder names and their case-insensitive resolution

  /** `getLocalOrganizations`: the mirror's folder names, or none when its top directory cannot be read. */
  function LocalOrganizations(mirror: LocalMirror): (r: seq<string>)
    ensures mirror.root.Listed? ==> r == mirror.root.items
    ensures mirror.root.Unavailable? ==> r == []
  {
    if mirror.root.Listed? then mirror.root.items else []
  }

  predicate SameNameIgnoringCase(a: string, b: string)
  {
    Lower(a) == Lower(b)
  }

  /** `folders[i]` is the first folder that equals `input` ignoring case. */
  predicate FirstMatchAt(folders: seq<string>, input: string, i: int)
  {
    0 <= i < |folders| && SameNameIgnoringCase(folders[i], input) &&
    forall j :: 0 <= j < i ==> !SameNameIgnoringCase(folders[j], input)
  }

  /** `folders.find(f => f.toLowerCase() === input.toLowerCase())` */
  function FindIgnoringCase(folders: seq<string>, input: string): (r: Option<string>)
    ensures r.None? <==> forall j :: 0 <= j < |folders| ==> !SameNameIgnoringCase(folders[j], input)
    ensures r.Some? ==> exists i :: FirstMatchAt(folders, input, i) && folders[i] == r.value
    decreases |folders|
  {
    if folders == [] then None
    else if SameNameIgnoringCase(folders[0], input) then
      assert FirstMatchAt(folders, input, 0);
      Some(folders[0])
    else
      var r := FindIgnoringCase(folders[1..], input);
      assert r.Some? ==> exists i :: FirstMatchAt(folders, input, i) && folders[i] == r.value by {
        if r.Some? {
          var i :| FirstMatchAt(folders[1..], input, i) && folders[1..][i] == r.value;
          assert FirstMatchAt(folders, input, i + 1);
        }
      }
      r
  }

  /**
   * `findActualOrgFolderName`: the local folder that `input` names, ignoring
   * case. The source tests the match for truthiness, so an empty match
   * counts as none; that only matters for the empty input.
   */
  function FindActualOrgFolderName(mirror: LocalMirror, input: string): (r: Option<string>)
    ensures r == if input == "" then None else FindIgnoringCase(LocalOrganizations(mirror), input)
  {
    var found := FindIgnoringCase(LocalOrganizations(mirror), input);
    assert found.Some? ==> |found.value| == |input| by {
      if found.Some? {
        assert |Lower(found.value)| == |Lower(input)|;
      }
    }
    if found.Some? && found.value != "" then found else None
  }

  /** The search depends on the input only through its lower-cased form. */
  lemma {:induction false} FindIgnoringCaseOnlyLower(folders: seq<string>, a: string, b: string)
    requires Lower(a) == Lower(b)
    ensures FindIgnoringCase(folders, a) == FindIgnoringCase(folders, b)
    decreases |folders|
  {
    if folders != [] {
      FindIgnoringCaseOnlyLower(folders[1..], a, b);
    }
  }

  /** Names that differ only in case resolve to the same folder. */
  lemma ResolveIgnoresCase(mirror: LocalMirror, a: string, b: string)
    requires Lower(a) == Lower(b)
    ensures FindActualOrgFolderName(mirror, a) == FindActualOrgFolderName(mirror, b)
  {
    FindIgnoringCaseOnlyLower(LocalOrganizations(mirror), a, b);
    assert |a| == |Lower(a)| == |Lower(b)| == |b|;
  }

  /** Resolving a resolved name gives it back. */
  lemma ResolveIdempotent(mirror: LocalMirror, input: string)
    requires FindActualOrgFolderName(mirror, input).Some?
    ensures FindActualOrgFolderName(mirror, FindActualOrgFolderName(mirror, input).value)
         == FindActualOrgFolderName(mirror, input)
  {
    var folders := LocalOrganizations(mirror);
    var m := FindActualOrgFolderName(mirror, input).value;
    var i :| FirstMatchAt(folders, input, i) && folders[i] == m;
    LowerIdempotent(input);
    ResolveIgnoresCase(mirror, input, m);
  }

  // ---------------------------------------------------------------------
  // Organization folders of the repository

  predicate IsDir(e: RemoteEntry)
  {
    e.kind == Dir
  }

  /** `contents.filter(item => item.type === 'dir').map(item => item.name)` */
  function DirNames(entries: seq<RemoteEntry>): (r: seq<string>)
    ensures forall e :: e in entries && IsDir(e) ==> e.name in r
    ensures forall n :: n in r ==> exists e :: e in entries && IsDir(e) && e.name == n
  {
    var dirs := Filter(IsDir, entries);
    var r := seq(|dirs|, i requires 0 <= i < |dirs| => dirs[i].name);
    assert forall e :: e in dirs ==> e.name in r by {
      forall e | e in dirs ensures e.name in r {
        var i :| 0 <= i < |dirs| && dirs[i] == e;
        assert r[i] == e.name;
      }
    }
    r
  }

  /** The names of the folders keep the listing's order. */
  lemma DirNamesConcat(a: seq<RemoteEntry>, b: seq<RemoteEntry>)
    ensures DirNames(a + b) == DirNames(a) + DirNames(b)
  {
    FilterConcat(IsDir, a, b);
  }

  predicate HasDir(entries: seq<RemoteEntry>)
  {
    exists e :: e in entries && IsDir(e)
  }

  /**
   * `getGitHubOrganizations`: the folder names of the repository root; the
   * local folder names instead when the request fails (404 included) or
   * the root has no folder.
   */
  function GitHubOrganizations(root: Remote, local: seq<string>): (r: seq<string>)
    ensures root.Ok? && HasDir(root.entries) ==> r == DirNames(root.entries)
    ensures !(root.Ok? && HasDir(root.entries)) ==> r == local
  {
    match root
    case Ok(entries) =>
      var organizations := DirNames(entries);
      assert HasDir(entries) ==> organizations != [] by {
        if HasDir(entries) {
          var e :| e in entries && IsDir(e);
          assert e.name in organizations;
        }
      }
      assert organizations != [] ==> HasDir(entries) by {
        if organizations != [] {
          assert organizations[0] in organizations;
        }
      }
      if |organizations| == 0 then local else organizations
    case _ => local
  }

  // ---------------------------------------------------------------------
  // Proposal records

  /** `name.toLowerCase().endsWith('.pdf')` */
  predicate IsPdfName(name: string)
  {
    EndsWith(Lower(name), ".pdf")
  }

  predicate IsLocalPdf(f: LocalFile)
  {
    IsPdfName(f.name)
  }

  /** `fs.statSync` succeeds on every PDF of the folder, so the `map` building the records does not throw. */
  predicate PdfsStat(files: seq<LocalFile>)
  {
    forall f :: f in files && IsLocalPdf(f) ==> f.size.Some?
  }

  /** The record `getLocalProposals` builds for one file of `folder`; sha is empty for local files. */
  function LocalRecord(enc: string -> string, folder: string, f: LocalFile): Proposal
    requires f.size.Some?
  {
    Proposal(f.name, PdfApiPath(enc, folder, f.name), Some(f.size.value), Some(""))
  }

  /** One record per PDF of `files` (extension compared after lower-casing), in listing order. */
  function LocalPdfRecords(enc: string -> string, folder: string, files: seq<LocalFile>): (r: seq<Proposal>)
    requires PdfsStat(files)
    ensures |r| == |Filter(IsLocalPdf, files)|
    ensures forall i :: 0 <= i < |r| ==>
      Filter(IsLocalPdf, files)[i] in files && r[i] == LocalRecord(enc, folder, Filter(IsLocalPdf, files)[i])
    ensures forall f :: f in files && IsLocalPdf(f) ==> LocalRecord(enc, folder, f) in r
    ensures forall p :: p in r ==> exists f :: f in files && IsLocalPdf(f) && p == LocalRecord(enc, folder, f)
  {
    var pdfs := Filter(IsLocalPdf, files);
    var r := seq(|pdfs|, i requires 0 <= i < |pdfs| => LocalRecord(enc, folder, pdfs[i]));
    assert forall f :: f in pdfs ==> LocalRecord(enc, folder, f) in r by {
      forall f | f in pdfs ensures LocalRecord(enc, folder, f) in r {
        var i :| 0 <= i < |pdfs| && pdfs[i] == f;
        assert r[i] == LocalRecord(enc, folder, f);
      }
    }
    r
  }

  /** The local folder `orgName` resolves to, if any, has at least one PDF. */
  predicate LocalHasPdf(mirror: LocalMirror, orgName: string)
  {
    var actual := FindActualOrgFolderName(mirror, orgName);
    actual.Some? && FolderAt(mirror, actual.value).Listed? &&
    (exists f :: f in FolderAt(mirror, actual.value).items && IsLocalPdf(f)) &&
    PdfsStat(FolderAt(mirror, actual.value).items)
  }

  /**
   * `getLocalProposals`: nothing when no local folder matches `orgName`
   * ignoring case, the folder cannot be read or `fs.statSync` throws on
   * one of its PDFs; otherwise the records of its PDFs, named after the
   * folder's actual spelling.
   */
  function LocalProposals(mirror: LocalMirror, enc: string -> string, orgName: string): (r: seq<Proposal>)
    ensures FindActualOrgFolderName(mirror, orgName).None? ==> r == []
    ensures FindActualOrgFolderName(mirror, orgName).Some? ==>
      var folder := FindActualOrgFolderName(mirror, orgName).value;
      match FolderAt(mirror, folder)
      case Unavailable => r == []
      case Listed(files) => r == if PdfsStat(files) then LocalPdfRecords(enc, folder, files) else []
    ensures |r| > 0 <==> LocalHasPdf(mirror, orgName)
  {
    match FindActualOrgFolderName(mirror, orgName)
    case None => []
    case Some(folder) =>
      match FolderAt(mirror, folder)
      case Unavailable => []
      case Listed(files) =>
        if !PdfsStat(files) then [] else
        var r := LocalPdfRecords(enc, folder, files);
        FilterNonEmpty(IsLocalPdf, files);
        r
  }

  predicate IsRemotePdf(e: RemoteEntry)
  {
    e.kind == File && IsPdfName(e.name)
  }

  /** The record for a repository file: its download URL, or "" when the API gives none. */
  function RemoteRecord(e: RemoteEntry): Proposal
  {
    Proposal(e.name, if e.downloadUrl.Some? then e.downloadUrl.value else "", Some(e.size), Some(e.sha))
  }

  /** One record per PDF file of the listing (folders skipped), in listing order. */
  function RemotePdfRecords(entries: seq<RemoteEntry>): (r: seq<Proposal>)
    ensures |r| == |Filter(IsRemotePdf, entries)|
    ensures forall i :: 0 <= i < |r| ==> r[i] == RemoteRecord(Filter(IsRemotePdf, entries)[i])
    ensures forall e :: e in entries && IsRemotePdf(e) ==> RemoteRecord(e) in r
    ensures forall p :: p in r ==> exists e :: e in entries && IsRemotePdf(e) && p == RemoteRecord(e)
  {
    var pdfs := Filter(IsRemotePdf, entries);
    var r := seq(|pdfs|, i requires 0 <= i < |pdfs| => RemoteRecord(pdfs[i]));
    assert forall e :: e in pdfs ==> RemoteRecord(e) in r by {
      forall e | e in pdfs ensures RemoteRecord(e) in r {
        var i :| 0 <= i < |pdfs| && pdfs[i] == e;
        assert r[i] == RemoteRecord(e);
      }
    }
    r
  }

  // ---------------------------------------------------------------------
  // The remote-then-local fallback

  /** The folder name put in the request URL: the local spelling when there is one, else the caller's name. */
  function QueryFolder(mirror: LocalMirror, orgName: string): (folder: string)
    ensures FindActualOrgFolderName(mirror, orgName).Some? ==>
      folder == FindActualOrgFolderName(mirror, orgName).value && SameNameIgnoringCase(folder, orgName)
    ensures FindActualOrgFolderName(mirror, orgName).None? ==> folder == orgName
  {
    var actual := FindActualOrgFolderName(mirror, orgName);
    if actual.Some? then
      assert exists i :: FirstMatchAt(LocalOrganizations(mirror), orgName, i) && LocalOrganizations(mirror)[i] == actual.value;
      actual.value
    else orgName
  }

  /** The repository folder queried for `orgName` lists at least one PDF file. */
  predicate RemoteHasPdf(repo: RemoteRepo, mirror: LocalMirror, orgName: string)
  {
    var response := RemoteAt(repo, QueryFolder(mirror, orgName));
    response.Ok? && exists e :: e in response.entries && IsRemotePdf(e)
  }

  /**
   * `getProposalsForGitHubOrganization`: the PDFs the repository lists for
   * the organization when there is at least one; after a 404, any other
   * failure, or a listing without PDFs, the local proposals instead.
   */
  function ProposalsForGitHubOrganization(repo: RemoteRepo, mirror: LocalMirror, enc: string -> string, orgName: string): (r: seq<Proposal>)
    ensures RemoteHasPdf(repo, mirror, orgName) ==>
      r == RemotePdfRecords(RemoteAt(repo, QueryFolder(mirror, orgName)).entries) && |r| > 0
    ensures !RemoteHasPdf(repo, mirror, orgName) ==> r == LocalProposals(mirror, enc, orgName)
  {
    var folder := QueryFolder(mirror, orgName);
    match RemoteAt(repo, folder)
    case NotFound => LocalProposals(mirror, enc, orgName)
    case Failure => LocalProposals(mirror, enc, orgName)
    case Ok(entries) =>
      var proposals := RemotePdfRecords(entries);
      assert (exists e :: e in entries && IsRemotePdf(e)) ==> |proposals| > 0 by {
        if exists e :: e in entries && IsRemotePdf(e) {
          var e :| e in entries && IsRemotePdf(e);
          assert RemoteRecord(e) in proposals;
        }
      }
      assert |proposals| > 0 ==> exists e :: e in entries && IsRemotePdf(e) by {
        if |proposals| > 0 {
          assert proposals[0] in proposals;
        }
      }
      if |proposals| == 0 then LocalProposals(mirror, enc, orgName) else proposals
  }

  /** An organization has proposals exactly when the repository or the local mirror holds a PDF for it. */
  lemma HasProposalsIff(repo: RemoteRepo, mirror: LocalMirror, enc: string -> string, orgName: string)
    ensures |ProposalsForGitHubOrganization(repo, mirror, enc, orgName)| > 0
        <==> RemoteHasPdf(repo, mirror, orgName) || LocalHasPdf(mirror, orgName)
  {
  }

  /** When a local folder matches, every case variant of the name gets the same proposals. */
  lemma ProposalsIgnoreCaseWhenLocal(repo: RemoteRepo, mirror: LocalMirror, enc: string -> string, a: string, b: string)
    requires Lower(a) == Lower(b)
    requires FindActualOrgFolderName(mirror, a).Some?
    ensures ProposalsForGitHubOrganization(repo, mirror, enc, a) == ProposalsForGitHubOrganization(repo, mirror, enc, b)
  {
    ResolveIgnoresCase(mirror, a, b);
  }

  // ---------------------------------------------------------------------
  // The organization -> has-proposals map

  /** `[...new Set([...githubOrgs, ...localOrgs])]`: repository names first, then local ones, without repeats. */
  function OrganizationNames(repo: RemoteRepo, mirror: LocalMirror): (names: seq<string>)
    ensures Distinct(names)
    ensures forall n :: n in names <==> n in GitHubOrganizations(repo.root, LocalOrganizations(mirror)) || n in LocalOrganizations(mirror)
  {
    var all := GitHubOrganizations(repo.root, LocalOrganizations(mirror)) + LocalOrganizations(mirror);
    DedupContents(all);
    Dedup(all)
  }

  /** Each name paired with whether it has proposals, in the order the names are written. */
  function Flags(repo: RemoteRepo, mirror: LocalMirror, enc: string -> string, names: seq<string>): (r: seq<(string, bool)>)
    ensures |r| == |names|
    ensures forall i :: 0 <= i < |names| ==> r[i] == (names[i], |ProposalsForGitHubOrganization(repo, mirror, enc, names[i])| > 0)
  {
    seq(|names|, i requires 0 <= i < |names| => (names[i], |ProposalsForGitHubOrganization(repo, mirror, enc, names[i])| > 0))
  }

  /** Every name has its lower-cased key in the has-proposals map written from `names`. */
  lemma FlagMapKeys(repo: RemoteRepo, mirror: LocalMirror, enc: string -> string, names: seq<string>)
    ensures forall n :: n in names ==> Lower(n) in LowerKeyed(Flags(repo, mirror, enc, names))
  {
    var entries := Flags(repo, mirror, enc, names);
    LowerKeyedKeys(entries);
    forall n | n in names ensures Lower(n) in LowerKeyed(entries) {
      var j :| 0 <= j < |names| && names[j] == n;
      assert Lower(entries[j].0) in LowerNames(entries);
    }
  }

  /** Every key of that map holds the flag of some name with that key. */
  lemma FlagMapValues(repo: RemoteRepo, mirror: LocalMirror, enc: string -> string, names: seq<string>)
    ensures var m := LowerKeyed(Flags(repo, mirror, enc, names));
      forall k :: k in m ==> exists n :: (n in names && Lower(n) == k &&
        m[k] == (|ProposalsForGitHubOrganization(repo, mirror, enc, n)| > 0))
  {
    var entries := Flags(repo, mirror, enc, names);
    var m := LowerKeyed(entries);
    forall k | k in m
      ensures exists n :: (n in names && Lower(n) == k &&
        m[k] == (|ProposalsForGitHubOrganization(repo, mirror, enc, n)| > 0))
    {
      var j := LowerKeyedWitness(entries, k);
      assert names[j] in names;
    }
  }

  /** For a name with a local folder the value is exact, whatever the order of the writes among its case variants. */
  lemma FlagMapExactWhenLocal(repo: RemoteRepo, mirror: LocalMirror, enc: string -> string, names: seq<string>)
    ensures var m := LowerKeyed(Flags(repo, mirror, enc, names));
      forall n :: n in names && FindActualOrgFolderName(mirror, n).Some? ==>
        Lower(n) in m && m[Lower(n)] == (|ProposalsForGitHubOrganization(repo, mirror, enc, n)| > 0)
  {
    var entries := Flags(repo, mirror, enc, names);
    var m := LowerKeyed(entries);
    FlagMapKeys(repo, mirror, enc, names);
    forall n | n in names && FindActualOrgFolderName(mirror, n).Some?
      ensures m[Lower(n)] == (|ProposalsForGitHubOrganization(repo, mirror, enc, n)| > 0)
    {
      var j := LowerKeyedWitness(entries, Lower(n));
      ProposalsIgnoreCaseWhenLocal(repo, mirror, enc, n, names[j]);
    }
  }

  /**
   * `getAllOrganizationsWithGitHubProposals`: one key per lower-cased
   * organization name. The source writes the entries concurrently, so of
   * several names with one key it promises the value of one of them; the
   * value is exact for every name that resolves to a local folder, because
   * all its case variants resolve alike. (Every error is caught further
   * down, so the `{}` of the outer `catch` cannot occur here.)
   */
  method AllOrganizationsWithGitHubProposals(repo: RemoteRepo, mirror: LocalMirror, enc: string -> string)
    returns (result: map<string, bool>)
    ensures forall n :: n in OrganizationNames(repo, mirror) ==> Lower(n) in result
    ensures forall k :: k in result ==> exists n :: (n in OrganizationNames(repo, mirror) && Lower(n) == k &&
      result[k] == (|ProposalsForGitHubOrganization(repo, mirror, enc, n)| > 0))
    ensures forall n :: n in OrganizationNames(repo, mirror) && FindActualOrgFolderName(mirror, n).Some? ==>
      result[Lower(n)] == (|ProposalsForGitHubOrganization(repo, mirror, enc, n)| > 0)
  {
    var organizations := GitHubOrganizations(repo.root, LocalOrganizations(mirror));
    var localOrgs := LocalOrganizations(mirror);
    organizations := Dedup(organizations + localOrgs);
    assert organizations == OrganizationNames(repo, mirror);
    result := WriteLowerKeyed(Flags(repo, mirror, enc, organizations));
    FlagMapKeys(repo, mirror, enc, OrganizationNames(repo, mirror));
    FlagMapValues(repo, mirror, enc, OrganizationNames(repo, mirror));
    FlagMapExactWhenLocal(repo, mirror, enc, OrganizationNames(repo, mirror));
  }
}
