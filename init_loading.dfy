/**
 * How the initialisation script pushes a configured URL into the viewer:
 * `forceLoadPDF` (at most ten attempts with a growing delay),
 * `loadPDFWithDirectLoader` (two polling chains), `forceLoadLocalPDF` and the
 * strategy chain of `forceDirectLocalLoad` (XHR, hidden iframe, pdfjsLib,
 * manual pick).
 *
 * The window as each timer tick finds it is an input (`Surfaces`), and so is
 * the outcome of every request, load task and iframe.
 */
module InitLoading {
  import opened Common
  import opened Uri
  import opened Page
  import DirectLoader
  import InitConfigure

  // ---------------------------------------------------------------------------
  // forceLoadPDF

  const MaxAttempts := 10
  const BackoffStep := 200

  /** The injection surfaces as one attempt finds them. */
  datatype Surfaces = Surfaces(
    directLoader: bool,          // window.PDFJSExtensionDirectLoader
    libReady: bool,              // pdfjsLib.getDocument exists, so loadPDF does not throw
    viewer: Option<Viewer>,      // window.PDFViewerApplication
    hasOpen: bool,               // PDFViewerApplication.open exists
    openThrows: bool,
    webViewerLoad: bool,         // window.webViewerLoad exists
    webViewerLoadThrows: bool)

  /** A tick past the end of the input finds nothing registered. */
  function EnvAt(env: seq<Surfaces>, k: nat): Surfaces {
    if k < |env| then env[k] else Surfaces(false, false, None, false, false, false, false)
  }

  /** The surface whose call did not throw and so ended the attempt. */
  datatype Surface = ByDirectLoader | ByViewerOpen | ByWebViewerLoad | NoSurface

  predicate DirectLoads(s: Surfaces) {
    s.directLoader && s.libReady
  }

  predicate OpenSucceeds(s: Surfaces) {
    s.viewer.Some? && s.hasOpen && !s.openThrows
  }

  /** One attempt: the direct loader, then the viewer's `open`, then `webViewerLoad`. */
  function AttemptEnding(s: Surfaces): (r: Surface)
    ensures r == ByDirectLoader <==> DirectLoads(s)
    ensures r == ByViewerOpen <==> !DirectLoads(s) && OpenSucceeds(s)
    ensures r == ByWebViewerLoad <==>
      !DirectLoads(s) && !OpenSucceeds(s) && s.webViewerLoad && !s.webViewerLoadThrows
  {
    if DirectLoads(s) then ByDirectLoader
    else if OpenSucceeds(s) then ByViewerOpen
    else if s.webViewerLoad && !s.webViewerLoadThrows then ByWebViewerLoad
    else NoSurface
  }

  /**
   * The viewer after one attempt. Method 2 closes an open document before it
   * calls `open`, whether `open` then succeeds or throws; the call is logged
   * in `opens` when `open` exists.
   */
  function AttemptViewer(s: Surfaces, url: string): (r: Option<Viewer>)
    ensures r.Some? == s.viewer.Some?
    ensures DirectLoads(s) ==> r == s.viewer
    ensures !DirectLoads(s) && s.viewer.Some? ==>
      r.value.pdfDocument == None &&
      r.value.closes == s.viewer.value.closes + (if s.viewer.value.pdfDocument.Some? then 1 else 0) &&
      r.value.opens == s.viewer.value.opens + (if s.hasOpen then [url] else [])
    ensures s.viewer.Some? && OneHeld(s.viewer.value) ==> OneHeld(r.value)
  {
    if DirectLoads(s) || s.viewer.None? then s.viewer
    else
      var v := CloseIfOpen(s.viewer.value);
      Some(if s.hasOpen then v.(opens := v.opens + [url]) else v)
  }

  /** `open` is only ever called on a viewer that holds no document. */
  lemma OpenAfterClose(s: Surfaces, url: string)
    requires AttemptEnding(s) == ByViewerOpen
    ensures AttemptViewer(s, url).value.pdfDocument == None
    ensures AttemptViewer(s, url).value.opens == s.viewer.value.opens + [url]
  {
  }

  /** The delay before attempt `n` is scheduled: 200 ms times the attempts made so far, summed. */
  function Backoff(n: nat): nat {
    if n <= 1 then 0 else Backoff(n - 1) + BackoffStep * (n - 1)
  }

  lemma {:induction false} BackoffClosedForm(n: nat)
    ensures Backoff(n) == 100 * n * (n - 1)
  {
    if n > 1 {
      BackoffClosedForm(n - 1);
      assert 100 * (n - 1) * (n - 2) + 200 * (n - 1) == 100 * n * (n - 1);
    }
  }

  lemma {:induction false} BackoffGrows(m: nat, n: nat)
    requires m <= n
    ensures Backoff(m) <= Backoff(n)
  {
    if m < n {
      BackoffGrows(m, n - 1);
    }
  }

  /** Ten failed attempts take 9 s in all: the last retry waits 1.8 s. */
  lemma WorstCaseWait()
    ensures Backoff(MaxAttempts) == 9000
  {
    BackoffClosedForm(MaxAttempts);
  }

  /**
   * `forceLoadPDF(url)`: attempt `k` (from 1) reads `env[k - 1]`, which
   * holds that attempt's own viewer (a fresh input each time); a failed
   * attempt below the tenth schedules the next one after 200·k ms.
   * `waited` is the time from the first attempt to the last one.
   */
  method ForceLoadPDF(env: seq<Surfaces>, url: string) returns (attempts: nat, ending: Surface, waited: nat, viewer: Option<Viewer>)
    ensures 1 <= attempts <= MaxAttempts
    ensures forall k :: 0 <= k < attempts - 1 ==> AttemptEnding(EnvAt(env, k)) == NoSurface
    ensures ending == AttemptEnding(EnvAt(env, attempts - 1))
    ensures ending == NoSurface ==> attempts == MaxAttempts
    ensures waited == Backoff(attempts) && waited <= 9000
    ensures viewer == AttemptViewer(EnvAt(env, attempts - 1), url)
  {
    attempts := 1;
    ending := AttemptEnding(EnvAt(env, 0));
    viewer := AttemptViewer(EnvAt(env, 0), url);
    waited := 0;
    while ending == NoSurface && attempts < MaxAttempts
      invariant 1 <= attempts <= MaxAttempts
      invariant forall k :: 0 <= k < attempts - 1 ==> AttemptEnding(EnvAt(env, k)) == NoSurface
      invariant ending == AttemptEnding(EnvAt(env, attempts - 1))
      invariant viewer == AttemptViewer(EnvAt(env, attempts - 1), url)
      invariant waited == Backoff(attempts)
      decreases MaxAttempts - attempts
    {
      waited := waited + BackoffStep * attempts;
      attempts := attempts + 1;
      ending := AttemptEnding(EnvAt(env, attempts - 1));
      viewer := AttemptViewer(EnvAt(env, attempts - 1), url);
    }
    BackoffGrows(attempts, MaxAttempts);
    WorstCaseWait();
  }

  // ---------------------------------------------------------------------------
  // loadPDFWithDirectLoader

  /** A call of `tryLoadPDF` ends its chain when the direct loader takes the URL or the viewer has `open`. */
  predicate TryEnds(s: Surfaces) {
    DirectLoads(s) || (s.viewer.Some? && s.hasOpen)
  }

  datatype TryEnd = LoadedByDirectLoader | OpenedByViewer | StillWaiting

  /** The first tick of a chain at which `tryLoadPDF` ends it (`|ticks|` when none does). */
  function EndTick(ticks: seq<Surfaces>): (k: nat)
    ensures k <= |ticks|
    ensures forall j :: 0 <= j < k ==> !TryEnds(ticks[j])
    ensures k < |ticks| ==> TryEnds(ticks[k])
  {
    var s := seq(|ticks|, j requires 0 <= j < |ticks| => TryEnds(ticks[j]));
    assert forall j :: 0 <= j < |ticks| ==> s[j] == TryEnds(ticks[j]);
    FirstTrue(s)
  }

  /** How one chain ends: a direct loader whose `loadPDF` throws hands over to the viewer's `open`. */
  function TryChainEnd(ticks: seq<Surfaces>): (r: TryEnd)
    ensures r == StillWaiting <==> forall j :: 0 <= j < |ticks| ==> !TryEnds(ticks[j])
    ensures r == LoadedByDirectLoader <==> EndTick(ticks) < |ticks| && DirectLoads(ticks[EndTick(ticks)])
  {
    var k := EndTick(ticks);
    if k == |ticks| then StillWaiting
    else if DirectLoads(ticks[k]) then LoadedByDirectLoader
    else OpenedByViewer
  }

  /**
   * One `tryLoadPDF` chain: it calls itself again every 100 ms while neither
   * surface is there. The source polls without bound; the model stops when
   * the ticks run out.
   */
  method TryLoadPDF(ticks: seq<Surfaces>) returns (calls: nat, end: TryEnd)
    ensures end == TryChainEnd(ticks)
    ensures calls == (if end == StillWaiting then |ticks| else EndTick(ticks) + 1)
  {
    calls := 0;
    end := StillWaiting;
    while calls < |ticks| && end == StillWaiting
      invariant calls <= |ticks|
      invariant end == StillWaiting ==> EndTick(ticks) >= calls
      invariant end != StillWaiting ==>
        (calls >= 1 && EndTick(ticks) == calls - 1 &&
         end == (if DirectLoads(ticks[calls - 1]) then LoadedByDirectLoader else OpenedByViewer))
      decreases |ticks| - calls, if end == StillWaiting then 1 else 0
    {
      var s := ticks[calls];
      calls := calls + 1;
      if DirectLoads(s) {
        end := LoadedByDirectLoader;
      } else if s.viewer.Some? && s.hasOpen {
        end := OpenedByViewer;
      }
    }
  }

  /**
   * `loadPDFWithDirectLoader(url)`: one chain starts at once and a second,
   * independent one after 1000 ms; neither looks at what the other did.
   */
  method LoadPDFWithDirectLoader(now: seq<Surfaces>, later: seq<Surfaces>) returns (first: TryEnd, second: TryEnd)
    ensures first == TryChainEnd(now) && second == TryChainEnd(later)
  {
    var c1, c2;
    c1, first := TryLoadPDF(now);
    c2, second := TryLoadPDF(later);
  }

  /**
   * When the direct loader is ready at both starts, the URL is loaded twice,
   * and the second injection closes the first document.
   */
  lemma LoadsTwice(now: seq<Surfaces>, later: seq<Surfaces>, v: Viewer, d1: Doc, d2: Doc, url: string)
    requires |now| > 0 && DirectLoads(now[0]) && |later| > 0 && DirectLoads(later[0])
    requires OneHeld(v)
    ensures TryChainEnd(now) == LoadedByDirectLoader && TryChainEnd(later) == LoadedByDirectLoader
    ensures var twice := DirectLoader.Inject(DirectLoader.Inject(v, d1, url), d2, url);
      twice.closes == v.closes + (if v.pdfDocument.Some? then 2 else 1) && twice.pdfDocument == Some(d2)
  {
    DirectLoader.SecondLoadClosesFirst(v, d1, d2, url);
  }

  // ---------------------------------------------------------------------------
  // forceLoadLocalPDF

  /** What reading `window.pdfjsLib.getDocument(...)` gives. */
  datatype LibCall = NoLib | GetDocumentThrows | LoadTask(outcome: DirectLoader.LoadOutcome)

  /** `fetch(url).then(r => r.blob())`, and the blob URL made from it. */
  datatype FetchResult = FetchedBlob(blobURL: string) | FetchFailed

  /** What `forceLoadLocalPDF` leaves to happen next. */
  datatype LocalNext = LocalDone | ForceLoadNow(url: string) | SelectorSoon(file: string) | FallbackThrew

  /**
   * A document loaded from a local file enters the viewer: an open one is
   * closed first and the page viewer shows the new one. Unlike the direct
   * loader, `pagesCount` and `url` are left as they were.
   */
  function InjectLocal(v: Viewer, doc: Doc): (r: Viewer)
    ensures r.pdfDocument == Some(doc) && (OneHeld(v) ==> OneHeld(r))
    ensures r.closes == v.closes + (if v.pdfDocument.Some? then 1 else 0)
    ensures r.shownDoc == (if v.hasPdfViewer then Some(doc) else v.shownDoc)
    ensures r.url == v.url && r.pagesCount == v.pagesCount && r.events == v.events
  {
    var c := Assign(CloseIfOpen(v), doc);
    c.(shownDoc := if c.hasPdfViewer then Some(doc) else c.shownDoc)
  }

  /**
   * `fallbackToFileSelector`: the selector is scheduled only when
   * `decodeURIComponent(fileURL)` (whose result is never used) does not throw.
   */
  function Fallback(fileURL: string): (r: LocalNext)
    ensures r == SelectorSoon(fileURL) <==> DecodeURIComponent(fileURL).Some?
    ensures r != SelectorSoon(fileURL) ==> r == FallbackThrew
  {
    if DecodeURIComponent(fileURL).Some? then SelectorSoon(fileURL) else FallbackThrew
  }

  /** A URL that was itself produced by encodeURIComponent never makes the fallback throw. */
  lemma FallbackOnEncoded(s: string)
    ensures Fallback(EncodeURIComponent(s)) == SelectorSoon(EncodeURIComponent(s))
  {
    DecodeEncode(s);
  }

  /**
   * `forceLoadLocalPDF(fileURL)`: with pdfjsLib the load task decides (and a
   * failed task falls back to the selector); without it, or when reading
   * `getDocument` throws, the file is fetched and handed to `forceLoadPDF`.
   */
  method ForceLoadLocalPDF(w: Window, fileURL: string, lib: LibCall, fetched: FetchResult) returns (next: LocalNext)
    modifies w`viewer, w`ui, w`fileURL, w`appOptions, w`query
    ensures lib.LoadTask? && lib.outcome.Loaded? ==>
      next == LocalDone &&
      w.viewer == (if old(w.viewer).Some? then Some(InjectLocal(old(w.viewer).value, lib.outcome.doc)) else None) &&
      w.ui == (if old(w.viewer).Some? then DirectLoader.UpdateUi(old(w.ui), lib.outcome.doc.numPages) else old(w.ui)) &&
      InitConfigure.Snapshot(w) == old(InitConfigure.Snapshot(w))
    ensures lib.LoadTask? && lib.outcome.Failed? ==>
      next == Fallback(fileURL) && w.viewer == old(w.viewer) && w.ui == old(w.ui) &&
      InitConfigure.Snapshot(w) == old(InitConfigure.Snapshot(w))
    ensures !lib.LoadTask? && fetched.FetchedBlob? ==>
      next == ForceLoadNow(fetched.blobURL) && w.viewer == old(w.viewer) && w.ui == old(w.ui) &&
      InitConfigure.Snapshot(w) ==
        InitConfigure.Setup(old(InitConfigure.Snapshot(w)).(fileURL := Some(fetched.blobURL)), fetched.blobURL)
    ensures !lib.LoadTask? && fetched.FetchFailed? ==>
      next == Fallback(fileURL) && w.viewer == old(w.viewer) && w.ui == old(w.ui) &&
      InitConfigure.Snapshot(w) == old(InitConfigure.Snapshot(w))
  {
    if lib.LoadTask? {
      match lib.outcome
      case Loaded(doc) =>
        if w.viewer.Some? {
          w.viewer := Some(InjectLocal(w.viewer.value, doc));
          w.ui := DirectLoader.UpdateUi(w.ui, doc.numPages);
        }
        return LocalDone;
      case Failed(_) =>
        return Fallback(fileURL);
    }
    match fetched
    case FetchedBlob(blobURL) =>
      w.fileURL := Some(blobURL);
      InitConfigure.SetupFileForPDFJS(w, blobURL);
      return ForceLoadNow(blobURL);
    case FetchFailed =>
      return Fallback(fileURL);
  }

  // ---------------------------------------------------------------------------
  // forceDirectLocalLoad: the strategy chain

  /** How the XHR settles: `onload` with a status, or `onerror`. */
  datatype XhrResult = XhrStatus(status: nat) | XhrError

  /**
   * How the hidden iframe settles: loaded with a readable body, loaded but
   * unreadable (or reading it threw), `onerror`, or never.
   */
  datatype IframeResult = IframeReadable | IframeUnreadable | IframeError | IframeSilent

  /** What the 500 ms timer of method 3 finds. */
  datatype LibAtTimer = LibAbsent | LibThrows | LibLoaded(doc: Doc) | LibFailed

  datatype Strategy = Xhr | HiddenIframe | PdfjsLib | ManualPick

  datatype ChainEnd =
    | BlobForceLoad          // XHR status 200: blob URL, setupFileForPDFJS, forceLoadPDF
    | ReenterLocal           // readable iframe: forceLoadLocalPDF(decodedFile)
    | LibInjected(doc: Doc)  // pdfjsLib loaded the file and it went into the viewer
    | PickerShown            // showEnhancedLocalFileSelector
    | Halted                 // waiting for ever, or an exception inside a timer

  /** Everything the chain waits on, in the order it waits. */
  datatype ChainWorld = ChainWorld(
    xhr: XhrResult,
    bodyNow: bool,
    bodyAfter100: bool,
    iframe: IframeResult,
    lib: LibAtTimer,
    bodyAtPick: bool,
    bodyAtPickAfter100: bool)

  datatype ChainRun = ChainRun(tried: seq<Strategy>, end: ChainEnd)

  const Order: seq<Strategy> := [Xhr, HiddenIframe, PdfjsLib, ManualPick]

  predicate XhrFails(c: ChainWorld) {
    c.xhr != XhrStatus(200)
  }

  /** Method 2 hands over to method 3: no body to attach the iframe to, or the iframe failed. */
  predicate IframeFails(c: ChainWorld) {
    !(c.bodyNow || c.bodyAfter100) || c.iframe == IframeUnreadable || c.iframe == IframeError
  }

  predicate LibFails(c: ChainWorld) {
    c.lib == LibAbsent || c.lib == LibFailed
  }

  /**
   * The chain: each strategy starts only from the failure of the one before,
   * and the first one that succeeds (or never settles) ends it.
   */
  function Chain(c: ChainWorld): (r: ChainRun)
    ensures 1 <= |r.tried| <= 4 && r.tried == Order[..|r.tried|]
    ensures |r.tried| >= 2 <==> XhrFails(c)
    ensures |r.tried| >= 3 <==> XhrFails(c) && IframeFails(c)
    ensures |r.tried| == 4 <==> XhrFails(c) && IframeFails(c) && LibFails(c)
    ensures r.end == BlobForceLoad <==> !XhrFails(c)
    ensures r.end == ReenterLocal <==> XhrFails(c) && (c.bodyNow || c.bodyAfter100) && c.iframe == IframeReadable
    ensures r.end.LibInjected? <==> XhrFails(c) && IframeFails(c) && c.lib.LibLoaded?
    ensures r.end == PickerShown <==> |r.tried| == 4 && (c.bodyAtPick || c.bodyAtPickAfter100)
  {
    if !XhrFails(c) then ChainRun([Xhr], BlobForceLoad)
    else if (c.bodyNow || c.bodyAfter100) && c.iframe == IframeReadable then ChainRun([Xhr, HiddenIframe], ReenterLocal)
    else if (c.bodyNow || c.bodyAfter100) && c.iframe == IframeSilent then ChainRun([Xhr, HiddenIframe], Halted)
    else if c.lib.LibLoaded? then ChainRun([Xhr, HiddenIframe, PdfjsLib], LibInjected(c.lib.doc))
    else if c.lib == LibThrows then ChainRun([Xhr, HiddenIframe, PdfjsLib], Halted)
    else if c.bodyAtPick || c.bodyAtPickAfter100 then ChainRun(Order, PickerShown)
    else ChainRun(Order, Halted)
  }

  /** Only status 200 counts as an XHR success: any other status moves on to the iframe. */
  lemma XhrNeedsStatus200(c: ChainWorld, status: nat)
    requires status != 200
    ensures Chain(c.(xhr := XhrStatus(status))).tried[..2] == [Xhr, HiddenIframe]
    ensures Chain(c.(xhr := XhrStatus(status))) == Chain(c.(xhr := XhrError))
  {
  }

  /** The manual picker is the last resort: it appears only when every automatic strategy failed. */
  lemma PickerLast(c: ChainWorld)
    requires Chain(c).end == PickerShown
    ensures XhrFails(c) && IframeFails(c) && LibFails(c)
  {
  }

  /**
   * The chain run against the window: the XHR's blob URL (`xhrBlobURL`) or
   * the decoded file becomes the configured URL, and a document loaded by
   * pdfjsLib is injected into the viewer.
   */
  method RunDirectLocalChain(w: Window, decodedFile: string, xhrBlobURL: string, c: ChainWorld) returns (run: ChainRun)
    modifies w`viewer, w`ui, w`fileURL, w`appOptions, w`query
    ensures run == Chain(c)
    ensures run.end == BlobForceLoad ==>
      InitConfigure.Snapshot(w) ==
        InitConfigure.Setup(old(InitConfigure.Snapshot(w)).(fileURL := Some(xhrBlobURL)), xhrBlobURL) &&
      w.viewer == old(w.viewer) && w.ui == old(w.ui)
    ensures |run.tried| >= 3 ==>
      InitConfigure.Snapshot(w) == old(InitConfigure.Snapshot(w)).(fileURL := Some(decodedFile))
    ensures run.end.LibInjected? ==>
      w.viewer == (if old(w.viewer).Some? then Some(InjectLocal(old(w.viewer).value, run.end.doc)) else None)
    ensures run.end.LibInjected? ==>
      w.ui == (if old(w.viewer).Some? then DirectLoader.UpdateUi(old(w.ui), run.end.doc.numPages) else old(w.ui))
    ensures !run.end.LibInjected? ==> w.viewer == old(w.viewer) && w.ui == old(w.ui)
  {
    // Method 1: XMLHttpRequest
    if c.xhr == XhrStatus(200) {
      w.fileURL := Some(xhrBlobURL);
      InitConfigure.SetupFileForPDFJS(w, xhrBlobURL);
      return ChainRun([Xhr], BlobForceLoad);
    }
    // Method 2: hidden iframe, once there is a body to attach it to
    if c.bodyNow || c.bodyAfter100 {
      if c.iframe == IframeReadable {
        return ChainRun([Xhr, HiddenIframe], ReenterLocal);
      } else if c.iframe == IframeSilent {
        return ChainRun([Xhr, HiddenIframe], Halted);
      }
    }
    // Method 3: pdfjsLib after 500 ms
    w.fileURL := Some(decodedFile);
    match c.lib
    case LibLoaded(doc) =>
      if w.viewer.Some? {
        w.viewer := Some(InjectLocal(w.viewer.value, doc));
        w.ui := DirectLoader.UpdateUi(w.ui, doc.numPages);
      }
      return ChainRun([Xhr, HiddenIframe, PdfjsLib], LibInjected(doc));
    case LibThrows =>
      return ChainRun([Xhr, HiddenIframe, PdfjsLib], Halted);
    case _ =>
      // Method 4: the manual picker
      if c.bodyAtPick || c.bodyAtPickAfter100 {
        return ChainRun(Order, PickerShown);
      }
      return ChainRun(Order, Halted);
  }
}
