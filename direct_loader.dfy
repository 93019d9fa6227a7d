/**
 * The direct loader: it opens a document with pdfjsLib itself and injects it
 * into the viewer, bypassing the viewer's own file validation. The outcome of
 * `pdfjsLib.getDocument` (a document or an error) is an input.
 */
module DirectLoader {
  import opened Common
  import opened Page

  const ErrorPrefix := "Error cargando el archivo PDF: "
  const RetryDelay := 200

  /** How `getDocument(...).promise` settles. */
  datatype LoadOutcome = Loaded(doc: Doc) | Failed(message: string)

  /**
   * The viewer after a loaded document is injected: any open document is
   * closed first, the new one takes the slot, `pagesCount` and `url` report
   * it, `documentloaded` is dispatched when there is an event bus, and the
   * native page viewer shows it when there is one whose `setDocument` does
   * not throw.
   */
  function Inject(v: Viewer, doc: Doc, url: string): (r: Viewer)
    ensures r.pdfDocument == Some(doc) && r.pagesCount == doc.numPages && r.url == url
    ensures r.closes == v.closes + (if v.pdfDocument.Some? then 1 else 0)
    ensures r.events == v.events + (if v.hasEventBus then ["documentloaded"] else [])
    ensures r.shownDoc == (if NativeShows(v) then Some(doc) else v.shownDoc)
    ensures r.opens == v.opens && r.loaded == v.loaded && r.runs == v.runs
    ensures OneHeld(v) ==> OneHeld(r)
  {
    var c := Assign(CloseIfOpen(v), doc);
    c.(pagesCount := doc.numPages,
       events := c.events + (if c.hasEventBus then ["documentloaded"] else []),
       url := url,
       shownDoc := if NativeShows(c) then Some(doc) else c.shownDoc)
  }

  /** `renderAllPages` keeps to the native page viewer: it exists and its `setDocument` returns. */
  predicate NativeShows(v: Viewer) {
    v.hasPdfViewer && !v.setDocumentThrows
  }

  /**
   * `updatePDFViewer`: each control that exists shows the document's page
   * count, the first page and a hidden loading bar; a missing one stays missing.
   */
  function UpdateUi(ui: Ui, numPages: nat): (r: Ui)
    ensures r.numPages.Some? == ui.numPages.Some? && r.pageNumber.Some? == ui.pageNumber.Some?
    ensures r.loadingBarHidden.Some? == ui.loadingBarHidden.Some? && r.viewerArea == ui.viewerArea
    ensures r.numPages.Some? ==> r.numPages.value == "de " + NatToString(numPages)
    ensures r.pageNumber.Some? ==> r.pageNumber.value == PageInput("1", numPages)
    ensures r.loadingBarHidden.Some? ==> r.loadingBarHidden.value
  {
    ui.(numPages := if ui.numPages.Some? then Some("de " + NatToString(numPages)) else None,
        pageNumber := if ui.pageNumber.Some? then Some(PageInput("1", numPages)) else None,
        loadingBarHidden := if ui.loadingBarHidden.Some? then Some(true) else None)
  }

  /** Updating twice for the same document changes nothing the first update did not. */
  lemma UpdateUiIdempotent(ui: Ui, n: nat)
    ensures UpdateUi(UpdateUi(ui, n), n) == UpdateUi(ui, n)
  {
  }

  /**
   * `renderAllPages`: when the native page viewer takes the document
   * (`nativeShows`) the controls are updated at once; when there is none, or
   * its `setDocument` throws and the `catch` falls through, the first page is
   * drawn on a canvas in `#viewer` and the controls are updated after it, or
   * nothing happens when `#viewer` is missing.
   */
  function RenderAllPages(ui: Ui, nativeShows: bool, numPages: nat): (r: Ui)
    ensures nativeShows ==> r == UpdateUi(ui, numPages)
    ensures !nativeShows && ui.viewerArea.None? ==> r == ui
    ensures !nativeShows && ui.viewerArea.Some? ==>
      r.viewerArea == Some(FirstPageCanvas) && r == UpdateUi(ui, numPages).(viewerArea := Some(FirstPageCanvas))
  {
    if nativeShows then UpdateUi(ui, numPages)
    else if ui.viewerArea.Some? then UpdateUi(ui.(viewerArea := Some(FirstPageCanvas)), numPages)
    else ui
  }

  /** `showErrorMessage`: the message replaces the content of `#viewer` when it exists. */
  function ShowError(ui: Ui, message: string): (r: Ui)
    ensures r.viewerArea == (if ui.viewerArea.Some? then Some(ErrorShown(message)) else None)
    ensures r.numPages == ui.numPages && r.pageNumber == ui.pageNumber && r.loadingBarHidden == ui.loadingBarHidden
  {
    if ui.viewerArea.Some? then ui.(viewerArea := Some(ErrorShown(message))) else ui
  }

  /** The viewer once the loading task settles; without a viewer the document is dropped. */
  function ViewerAfterLoad(v: Option<Viewer>, url: string, outcome: LoadOutcome): (r: Option<Viewer>)
    ensures r.Some? == v.Some?
    ensures outcome.Failed? ==> r == v
    ensures outcome.Loaded? && v.Some? ==> r.value.pdfDocument == Some(outcome.doc) && r.value.url == url
  {
    match outcome
    case Loaded(doc) => if v.Some? then Some(Inject(v.value, doc, url)) else None
    case Failed(_) => v
  }

  /** The controls once the loading task settles. */
  function UiAfterLoad(v: Option<Viewer>, ui: Ui, outcome: LoadOutcome): (r: Ui)
    ensures outcome.Failed? ==> r == ShowError(ui, ErrorPrefix + outcome.message)
    ensures outcome.Loaded? && v.None? ==> r == ui
    ensures outcome.Loaded? && v.Some? ==> r == RenderAllPages(ui, NativeShows(v.value), outcome.doc.numPages)
  {
    match outcome
    case Loaded(doc) => if v.Some? then RenderAllPages(ui, NativeShows(v.value), doc.numPages) else ui
    case Failed(m) => ShowError(ui, ErrorPrefix + m)
  }

  /** Injecting never lets the viewer hold two documents. */
  lemma LoadKeepsOneHeld(v: Option<Viewer>, url: string, outcome: LoadOutcome)
    requires v.Some? && OneHeld(v.value)
    ensures OneHeld(ViewerAfterLoad(v, url, outcome).value)
  {
  }

  /**
   * Loading twice into the same viewer closes the first document exactly once
   * and leaves the second one in the slot.
   */
  lemma SecondLoadClosesFirst(v: Viewer, d1: Doc, d2: Doc, url: string)
    requires OneHeld(v)
    ensures var once := Inject(v, d1, url);
      var twice := Inject(once, d2, url);
      twice.closes == once.closes + 1 && twice.pdfDocument == Some(d2) && OneHeld(twice)
  {
  }

  /**
   * `loadPDFDirectly(url)`. Reading `pdfjsLib.getDocument` throws when the
   * library is not there yet; otherwise the document is injected, or the
   * error is shown in `#viewer`.
   */
  method LoadPDFDirectly(w: Window, url: string, outcome: LoadOutcome) returns (threw: bool)
    modifies w`viewer, w`ui
    ensures threw <==> !w.pdfjsLibReady
    ensures threw ==> w.viewer == old(w.viewer) && w.ui == old(w.ui)
    ensures !threw ==> w.viewer == ViewerAfterLoad(old(w.viewer), url, outcome)
    ensures !threw ==> w.ui == UiAfterLoad(old(w.viewer), old(w.ui), outcome)
  {
    if !w.pdfjsLibReady {
      return true;
    }
    var v := w.viewer;
    w.viewer := ViewerAfterLoad(v, url, outcome);
    w.ui := UiAfterLoad(v, w.ui, outcome);
    return false;
  }

  /**
   * `checkPDFJS`: the check is repeated every 200 ms until pdfjsLib is there.
   * `available[k]` says whether it is there at check `k`; the source retries
   * without bound, the model stops when the sequence runs out.
   */
  method CheckPDFJS(available: seq<bool>) returns (checks: nat, ready: bool, waited: nat)
    ensures ready <==> exists k :: 0 <= k < |available| && available[k]
    ensures ready ==> checks == FirstTrue(available) + 1 && available[checks - 1]
    ensures !ready ==> checks == |available|
    ensures forall k :: 0 <= k < checks - 1 ==> !available[k]
    ensures waited == RetryDelay * (if ready then checks - 1 else checks)
  {
    checks, waited := 0, 0;
    ready := false;
    while checks < |available| && !ready
      invariant checks <= |available|
      invariant forall k :: 0 <= k < checks - 1 ==> !available[k]
      invariant ready ==> checks >= 1 && available[checks - 1]
      invariant !ready ==> forall k :: 0 <= k < checks ==> !available[k]
      invariant waited == RetryDelay * (if ready then checks - 1 else checks)
      decreases |available| - checks, if ready then 0 else 1
    {
      ready := available[checks];
      checks := checks + 1;
      if !ready {
        waited := waited + RetryDelay;
      }
    }
  }

  /**
   * The callback run 500 ms after pdfjsLib is found: it loads the configured
   * URL when there is a non-empty one, and does nothing otherwise.
   */
  method AfterSettle(w: Window, outcome: LoadOutcome) returns (started: bool)
    requires w.pdfjsLibReady
    modifies w`viewer, w`ui
    ensures started <==> Truthy(w.fileURL)
    ensures !started ==> w.viewer == old(w.viewer) && w.ui == old(w.ui)
    ensures started ==> w.viewer == ViewerAfterLoad(old(w.viewer), w.fileURL.value, outcome)
    ensures started ==> w.ui == UiAfterLoad(old(w.viewer), old(w.ui), outcome)
  {
    started := w.fileURL.Some? && w.fileURL.value != "";
    if started {
      var threw := LoadPDFDirectly(w, w.fileURL.value, outcome);
    }
  }
}
