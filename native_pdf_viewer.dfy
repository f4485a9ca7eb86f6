/**
 * The browser-native viewer of gsoc-guide/src/components/NativePDFViewer.tsx:
 * an iframe showing the PDF (through Google's viewer for files hosted on
 * GitHub), a spinner while it loads, and a download fallback when the
 * iframe fails or takes too long.
 */
module NativeViewer {
  import opened Text
  import opened Domain

  const EmbeddedViewer := "https://docs.google.com/viewer?url="
  const EmbeddedFlag := "&embedded=true"
  const StandaloneViewer := "https://docs.google.com/viewerng/viewer?url="

  /** The file is served by GitHub, which makes browsers download it rather than show it. */
  predicate HostedOnGitHub(fileUrl: string)
  {
    Includes(fileUrl, "github.com") || Includes(fileUrl, "raw.githubusercontent.com")
  }

  /**
   * Reads the file URL back out of an embedded-viewer address: `Some` of
   * what sits between the viewer prefix and the `&embedded=true` suffix.
   */
  function ViewerParameter(src: string): Option<string>
  {
    if |src| >= |EmbeddedViewer| + |EmbeddedFlag|
       && src[..|EmbeddedViewer|] == EmbeddedViewer
       && src[|src| - |EmbeddedFlag|..] == EmbeddedFlag
    then Some(src[|EmbeddedViewer|..|src| - |EmbeddedFlag|])
    else None
  }

  /**
   * `getOptimizedFileUrl`: the iframe's source. A GitHub-hosted file is
   * shown through the embedded viewer, which carries exactly the encoded
   * file URL; any other URL is used as it is.
   */
  function OptimizedFileUrl(enc: string -> string, fileUrl: string): (r: string)
    ensures HostedOnGitHub(fileUrl) ==> ViewerParameter(r) == Some(enc(fileUrl))
    ensures !HostedOnGitHub(fileUrl) ==> r == fileUrl
  {
    if HostedOnGitHub(fileUrl) then
      var r := EmbeddedViewer + enc(fileUrl) + EmbeddedFlag;
      assert r[..|EmbeddedViewer|] == EmbeddedViewer;
      assert r[|r| - |EmbeddedFlag|..] == EmbeddedFlag;
      assert r[|EmbeddedViewer|..|r| - |EmbeddedFlag|] == enc(fileUrl);
      r
    else fileUrl
  }

  /**
   * `getGoogleViewerUrl`: the link of the fallback panel, for every host;
   * it starts with the standalone viewer's address and ends with the
   * encoded file URL.
   */
  function GoogleViewerUrl(enc: string -> string, fileUrl: string): (r: string)
    ensures |r| == |StandaloneViewer| + |enc(fileUrl)|
    ensures r[..|StandaloneViewer|] == StandaloneViewer && r[|StandaloneViewer|..] == enc(fileUrl)
  {
    StandaloneViewer + enc(fileUrl)
  }

  class NativePdfViewer {
    var iframeSupported: bool
    var loading: bool
    var error: bool

    /** An error always comes with the iframe given up, and only the iframe is ever loading. */
    predicate Valid()
      reads this
    {
      (error ==> !iframeSupported) && (loading ==> iframeSupported)
    }

    /** `loading && !error`: the spinner. */
    predicate SpinnerShown()
      reads this
      ensures Valid() ==> (SpinnerShown() <==> loading)
      ensures Valid() && SpinnerShown() ==> IframeShown()
    {
      loading && !error
    }

    /** `iframeSupported && !error`: the iframe. */
    predicate IframeShown()
      reads this
      ensures Valid() ==> (IframeShown() <==> iframeSupported)
    {
      iframeSupported && !error
    }

    /** The fallback panel, rendered only in the iframe's absence and when `!iframeSupported`. */
    predicate FallbackShown()
      reads this
      ensures FallbackShown() <==> !iframeSupported
    {
      !IframeShown() && !iframeSupported
    }

    constructor()
      ensures iframeSupported && loading && !error
      ensures Valid() && IframeShown() && SpinnerShown()
    {
      iframeSupported, loading, error := true, true, false;
    }

    /** Exactly one of the iframe and the fallback panel is on screen. */
    lemma ExactlyOnePanel()
      requires Valid()
      ensures IframeShown() != FallbackShown()
    {
    }

    /** `handleIframeLoad`: the spinner goes; nothing else changes. */
    method HandleIframeLoad()
      requires Valid()
      modifies this`loading
      ensures !loading && !SpinnerShown()
      ensures Valid()
    {
      loading := false;
    }

    /** `handleIframeError`: the fallback panel replaces the iframe. */
    method HandleIframeError()
      modifies this
      ensures error && !loading && !iframeSupported
      ensures Valid() && FallbackShown() && !SpinnerShown()
    {
      error := true;
      loading := false;
      iframeSupported := false;
    }

    /**
     * The five-second timer: when it fires while still loading, the
     * iframe is given up for the fallback panel; once loading has
     * finished it does nothing.
     */
    method Timeout()
      requires Valid()
      modifies this`iframeSupported, this`loading
      ensures old(loading) ==> !iframeSupported && !loading && FallbackShown()
      ensures !old(loading) ==> iframeSupported == old(iframeSupported) && !loading
      ensures Valid()
    {
      if loading {
        iframeSupported := false;
        loading := false;
      }
    }
  }
}
