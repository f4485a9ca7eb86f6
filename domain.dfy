/**
 * The values the application passes around (the `Organization` and
 * `Proposal` shapes of gsoc-guide/src/types/index.ts), and the results of
 * the I/O it performs, which the model takes as inputs: directory listings
 * of the local `Proposals` mirror and responses of the GitHub contents API.
 */
module Domain {

  datatype Option<T> = None | Some(value: T)

  /**
   * An organization as listed by the GSoC API. `numProjects` is `None` when
   * the field is absent; `hasProposals` is the flag the pages merge in.
   * Fields that no core operation reads (images, URLs, contacts) are left out.
   */
  datatype Organization = Organization(
    name: string,
    description: string,
    numProjects: Option<int>,
    technologies: seq<string>,
    topics: seq<string>,
    hasProposals: bool)

  /**
   * The filters the filter bar reports: the selected technologies and
   * topics, and whether only organizations with proposals are wanted.
   */
  datatype FilterSelection = FilterSelection(technologies: seq<string>, topics: seq<string>, hasProposals: bool)

  /** A proposal PDF: its file name, the URL it is served from, and optional size and sha. */
  datatype Proposal = Proposal(fileName: string, path: string, size: Option<int>, sha: Option<string>)

  /** The per-organization entry of the bundled proposal statistics. */
  datatype ProposalStats = ProposalStats(hasProposals: bool, proposalCount: int)

  /**
   * The outcome of reading a local directory: `Unavailable` stands for a
   * path that does not exist and for any error while reading it, which the
   * code treats alike.
   */
  datatype Listing<T> = Unavailable | Listed(items: seq<T>)

  /**
   * A file in a local organization folder, with the size `fs.statSync`
   * reports for it, or `None` when `fs.statSync` throws on it (a broken
   * link, a file removed after the folder was listed).
   */
  datatype LocalFile = LocalFile(name: string, size: Option<nat>)

  /**
   * The local `Proposals` mirror: the listing of its top directory (one
   * folder per organization) and the listing of each folder by name.
   */
  datatype LocalMirror = LocalMirror(root: Listing<string>, folders: map<string, Listing<LocalFile>>)

  /** What reading the folder `name` of the mirror yields. */
  function FolderAt(mirror: LocalMirror, name: string): Listing<LocalFile>
  {
    if name in mirror.folders then mirror.folders[name] else Unavailable
  }

  datatype EntryKind = Dir | File

  /** One item of a GitHub contents-API directory listing. */
  datatype RemoteEntry = RemoteEntry(name: string, kind: EntryKind, downloadUrl: Option<string>, sha: string, size: int)

  /**
   * A contents-API request: HTTP 404, any other failure (non-2xx status,
   * network error, bad JSON), or the listing.
   */
  datatype Remote = NotFound | Failure | Ok(entries: seq<RemoteEntry>)

  /**
   * The repository as the contents API shows it while one request is
   * served: the response for the root, and for each folder path.
   */
  datatype RemoteRepo = RemoteRepo(root: Remote, folders: map<string, Remote>)

  /** The response for the folder `name`; a path the API does not know is a 404. */
  function RemoteAt(repo: RemoteRepo, name: string): Remote
  {
    if name in repo.folders then repo.folders[name] else NotFound
  }

  /** The URL under which the application serves a local proposal. */
  function PdfApiPath(enc: string -> string, org: string, file: string): string
  {
    "/api/pdf?org=" + enc(org) + "&file=" + enc(file)
  }

  /**
   * The path determines both encoded parameters, as long as the encoded
   * organization name holds no `&` (`encodeURIComponent` escapes it).
   */
  lemma PdfApiPathDeterminesParameters(enc: string -> string, o1: string, f1: string, o2: string, f2: string)
    requires '&' !in enc(o1) && '&' !in enc(o2)
    requires PdfApiPath(enc, o1, f1) == PdfApiPath(enc, o2, f2)
    ensures enc(o1) == enc(o2) && enc(f1) == enc(f2)
  {
    var prefix, sep := "/api/pdf?org=", "&file=";
    var a1, b1, a2, b2 := enc(o1), enc(f1), enc(o2), enc(f2);
    var x, y := a1 + sep + b1, a2 + sep + b2;
    assert PdfApiPath(enc, o1, f1) == prefix + x;
    assert PdfApiPath(enc, o2, f2) == prefix + y;
    assert x == (prefix + x)[|prefix|..];
    assert y == (prefix + y)[|prefix|..];
    assert x == y;
    assert x[|a1|] == '&' && y[|a2|] == '&';
    assert forall k :: 0 <= k < |a1| ==> x[k] == a1[k] && x[k] != '&';
    assert forall k :: 0 <= k < |a2| ==> y[k] == a2[k] && y[k] != '&';
    assert |a1| == |a2|;
    assert a1 == x[..|a1|] && a2 == y[..|a2|];
    assert b1 == x[|a1| + |sep|..] && b2 == y[|a2| + |sep|..];
  }
}
