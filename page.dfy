/**
 * The page the extension runs in: the PDF.js viewer object
 * (`window.PDFViewerApplication`) as a value, the viewer's DOM fields the
 * extension writes, and the window globals the scripts share, as one object.
 */
module Page {
  import opened Common

  /** A parsed document as pdfjsLib hands it back. */
  datatype Doc = Doc(id: nat, numPages: nat)

  /**
   * `window.PDFViewerApplication` as far as the extension touches it.
   * `held` counts documents assigned to the viewer and not closed since;
   * `setDocumentThrows` says whether the native page viewer's `setDocument`
   * throws when it is handed a document; the log fields record the calls
   * made on the viewer, in order.
   */
  datatype Viewer = Viewer(
    pdfDocument: Option<Doc>,
    url: string,
    pagesCount: nat,
    closes: nat,
    held: nat,
    hasEventBus: bool,
    hasPdfViewer: bool,
    setDocumentThrows: bool,
    shownDoc: Option<Doc>,
    events: seq<string>,
    opens: seq<string>,
    loaded: seq<string>,
    loadedDocs: seq<Doc>,
    runs: seq<string>)

  /** A viewer that has just finished its own initialisation. */
  function FreshViewer(): (v: Viewer)
    ensures v.pdfDocument == None && v.held == 0
  {
    Viewer(None, "", 0, 0, 0, true, true, false, None, [], [], [], [], [])
  }

  /** The viewer never holds more than the one document in its slot. */
  predicate OneHeld(v: Viewer) {
    v.held == (if v.pdfDocument.Some? then 1 else 0)
  }

  /** `PDFViewerApplication.close()`: the document slot is released. */
  function Close(v: Viewer): (r: Viewer)
    ensures r.pdfDocument == None && r.held == 0 && r.closes == v.closes + 1
    ensures OneHeld(r)
  {
    v.(pdfDocument := None, held := 0, closes := v.closes + 1)
  }

  /** `if (app.pdfDocument) app.close()` */
  function CloseIfOpen(v: Viewer): (r: Viewer)
    ensures r.pdfDocument == None
    ensures r.closes == v.closes + (if v.pdfDocument.Some? then 1 else 0)
    ensures OneHeld(v) ==> OneHeld(r)
  {
    if v.pdfDocument.Some? then Close(v) else v
  }

  /** `app.pdfDocument = pdf` */
  function Assign(v: Viewer, doc: Doc): Viewer {
    v.(pdfDocument := Some(doc), held := v.held + 1)
  }

  /** Closing first keeps one document held; assigning over an open one would hold two. */
  lemma CloseBeforeAssign(v: Viewer, doc: Doc)
    requires OneHeld(v)
    ensures OneHeld(Assign(CloseIfOpen(v), doc))
    ensures v.pdfDocument.Some? ==> Assign(v, doc).held == 2
  {
  }

  /** A text input: its value and its `max` attribute. */
  datatype PageInput = PageInput(value: string, max: nat)

  /** What the `#viewer` area shows. */
  datatype Area = Untouched | FirstPageCanvas | ErrorShown(message: string)

  /**
   * The viewer's DOM fields the extension writes; `None` stands for an element
   * that is not in the page.
   */
  datatype Ui = Ui(
    numPages: Option<string>,
    pageNumber: Option<PageInput>,
    loadingBarHidden: Option<bool>,
    viewerArea: Option<Area>)

  /** `window.AppOptions`: the two options the extension sets. */
  datatype AppOptions = AppOptions(defaultUrl: Option<string>, file: Option<string>)

  /** The window globals the extension's scripts read and write. */
  class Window {
    /** `window.PDFViewerApplication` */
    var viewer: Option<Viewer>
    /** `window.PDFJSExtensionDirectLoader` is registered */
    var directLoaderPresent: bool
    /** `window.pdfjsLib && window.pdfjsLib.getDocument` */
    var pdfjsLibReady: bool
    /** `window.webViewerLoad` exists */
    var webViewerLoadPresent: bool
    /** `window.PDFJSExtensionFileURL` (null and undefined are `None`) */
    var fileURL: Option<string>
    /** `window.PDFJSExtensionOriginalURL` */
    var originalURL: Option<string>
    /** `document.title` */
    var title: string
    /** `window.AppOptions`, when it exists */
    var appOptions: Option<AppOptions>
    /** the parameters of `location.search`, as `history.replaceState` leaves them */
    var query: Query
    /** `document.body` exists */
    var bodyPresent: bool
    /** style elements appended to `document.head` by the file pickers */
    var headStyles: nat
    /** the viewer's DOM fields */
    var ui: Ui

    constructor (query: Query)
      ensures this.query == query && viewer == None && fileURL == None
      ensures !directLoaderPresent && !pdfjsLibReady && !webViewerLoadPresent
      ensures title == "PDF.js Viewer" && appOptions == None && bodyPresent && headStyles == 0
    {
      this.query := query;
      viewer := None;
      directLoaderPresent, pdfjsLibReady, webViewerLoadPresent := false, false, false;
      fileURL, originalURL := None, None;
      title := "PDF.js Viewer";
      appOptions := None;
      bodyPresent := true;
      headStyles := 0;
      ui := Ui(None, None, None, None);
    }
  }
}
