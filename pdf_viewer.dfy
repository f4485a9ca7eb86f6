/**
 * The pager of gsoc-guide/src/components/PDFViewer.tsx: the page count
 * the PDF library reports, the current page, and the loading and error
 * flags, changed by the library's load callbacks and the two buttons.
 */
module Pager {
  import opened Domain

  class PdfViewer {
    /** `None` until the document has loaded. */
    var numPages: Option<nat>
    var pageNumber: int
    var loading: bool
    var error: bool

    /** The page is at least 1, and at most the page count once a non-empty document has loaded. */
    predicate Valid()
      reads this
    {
      pageNumber >= 1 && (PageCountKnown() ==> pageNumber <= numPages.value)
    }

    /** `numPages` is truthy: known and not 0. */
    predicate PageCountKnown()
      reads this
    {
      numPages.Some? && numPages.value != 0
    }

    /**
     * The navigation bar is shown exactly when the page count is known;
     * its "Page x of n" then names a page of the document.
     */
    predicate NavigationShown()
      reads this
      ensures Valid() && NavigationShown() ==> numPages.Some? && 1 <= pageNumber <= numPages.value
    {
      PageCountKnown()
    }

    /** `disabled={pageNumber <= 1}` on "Previous": disabled exactly on the first page. */
    predicate PreviousDisabled()
      reads this
      ensures Valid() ==> (PreviousDisabled() <==> pageNumber == 1)
    {
      pageNumber <= 1
    }

    /**
     * `disabled={!numPages || pageNumber >= numPages}` on "Next": before a
     * non-empty document has loaded, and on its last page.
     */
    predicate NextDisabled()
      reads this
      ensures !PageCountKnown() ==> NextDisabled()
      ensures Valid() && PageCountKnown() ==> (NextDisabled() <==> pageNumber == numPages.value)
    {
      !PageCountKnown() || pageNumber >= numPages.value
    }

    constructor()
      ensures numPages == None && pageNumber == 1 && loading && !error
      ensures Valid() && PreviousDisabled() && NextDisabled()
    {
      numPages, pageNumber, loading, error := None, 1, true, false;
    }

    /** `onDocumentLoadSuccess`: the page count is stored and the first page shown. */
    method OnDocumentLoadSuccess(n: nat)
      modifies this`numPages, this`pageNumber, this`loading
      ensures numPages == Some(n) && pageNumber == 1 && !loading
      ensures Valid() && PreviousDisabled()
      ensures NextDisabled() <==> n <= 1
    {
      numPages, pageNumber, loading := Some(n), 1, false;
    }

    /** `onDocumentLoadError`: the error is shown; the page is left as it was. */
    method OnDocumentLoadError()
      requires Valid()
      modifies this`error, this`loading
      ensures error && !loading
      ensures Valid()
    {
      error, loading := true, false;
    }

    /** `previousPage`: one page back, unless already on the first page. */
    method PreviousPage()
      requires Valid()
      modifies this`pageNumber
      ensures Valid()
      ensures pageNumber == if old(PreviousDisabled()) then old(pageNumber) else old(pageNumber) - 1
    {
      if pageNumber > 1 {
        pageNumber := pageNumber - 1;
      }
    }

    /** `nextPage`: one page on, only when the page count is known and not yet reached. */
    method NextPage()
      requires Valid()
      modifies this`pageNumber
      ensures Valid()
      ensures pageNumber == if old(NextDisabled()) then old(pageNumber) else old(pageNumber) + 1
    {
      if numPages.Some? && numPages.value != 0 && pageNumber < numPages.value {
        pageNumber := pageNumber + 1;
      }
    }

    /** Before the document loads, "Next" does nothing. */
    lemma NextBeforeLoadDoesNothing()
      requires numPages.None?
      ensures NextDisabled() && !NavigationShown()
    {
    }
  }
}
