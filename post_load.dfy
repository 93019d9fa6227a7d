/**
 * The post-load script: once the viewer object exists it pushes the configured
 * URL into it through a cascade of five loading methods, it watches for the
 * viewer for at most 50 checks, and it reports the load state after 3 s.
 * Whether each viewer call throws is an input (`Behaviour`).
 */
module PostLoad {
  import opened Common
  import opened Page

  const MaxChecks := 50
  const CheckInterval := 100

  /** How the viewer's entry points behave on this call. */
  datatype Behaviour = Behaviour(
    openThrows: bool,
    hasLoad: bool,
    loadThrows: bool,
    dispatchThrows: bool,
    hasRun: bool,
    runThrows: bool,
    getDocumentThrows: bool,
    fetched: Option<Doc>)

  /**
   * Method `k` of the cascade does not end the call: it throws, or (method 2
   * and 3) the entry point it needs is missing so its block finishes without
   * returning. Method 5 ends the call unless `getDocument` throws.
   */
  predicate Fails(k: nat, b: Behaviour, hasEventBus: bool, libReady: bool) {
    if k == 1 then b.openThrows
    else if k == 2 then !b.hasLoad || b.loadThrows
    else if k == 3 then !hasEventBus || b.dispatchThrows
    else if k == 4 then b.hasRun && b.runThrows
    else k == 5 && libReady && b.getDocumentThrows
  }

  /**
   * The method whose `return` ends `forceLoadPDF`, or 0 when all five fail and
   * the function runs off its end: the first method of the cascade that does
   * not fail.
   */
  function EndingMethod(b: Behaviour, hasEventBus: bool, libReady: bool): (m: nat)
    ensures m <= 5
    ensures m != 0 ==> !Fails(m, b, hasEventBus, libReady)
    ensures forall k :: 1 <= k <= 5 && (m == 0 || k < m) ==> Fails(k, b, hasEventBus, libReady)
    ensures m == 5 ==> b.hasRun && b.runThrows
    ensures m == 0 ==> b.hasRun && b.runThrows && libReady && b.getDocumentThrows
  {
    if !b.openThrows then 1
    else if b.hasLoad && !b.loadThrows then 2
    else if hasEventBus && !b.dispatchThrows then 3
    else if !(b.hasRun && b.runThrows) then 4
    else if !(libReady && b.getDocumentThrows) then 5
    else 0
  }

  /** Without a `load` entry point method 2 does not end the call, although nothing threw. */
  lemma LoadAbsentFallsThrough(b: Behaviour, hasEventBus: bool, libReady: bool)
    requires b.openThrows && !b.hasLoad
    ensures EndingMethod(b, hasEventBus, libReady) >= 3 || EndingMethod(b, hasEventBus, libReady) == 0
  {
  }

  /**
   * What the cascade leaves in the viewer: every entry point tried on the
   * way is recorded, and method 5 assigns the fetched document to the slot
   * without closing one that is open.
   */
  function Cascade(v: Viewer, fileURL: string, libReady: bool, b: Behaviour): (r: Viewer)
    ensures var m := EndingMethod(b, v.hasEventBus, libReady);
      r.opens == v.opens + [fileURL] &&
      r.loaded == v.loaded + (if b.hasLoad && m != 1 then [fileURL] else []) &&
      r.events == v.events + (if v.hasEventBus && m != 1 && m != 2 then ["download"] else []) &&
      r.runs == v.runs + (if b.hasRun && (m == 0 || m >= 4) then [fileURL] else []) &&
      r.url == (if m == 0 || m >= 4 then fileURL else v.url)
  {
    var v1 := v.(opens := v.opens + [fileURL]);
    if !b.openThrows then v1
    else
      var v2 := if b.hasLoad then v1.(loaded := v1.loaded + [fileURL]) else v1;
      if b.hasLoad && !b.loadThrows then v2
      else
        var v3 := if v.hasEventBus then v2.(events := v2.events + ["download"]) else v2;
        if v.hasEventBus && !b.dispatchThrows then v3
        else
          var v4 := v3.(url := fileURL, runs := v3.runs + (if b.hasRun then [fileURL] else []));
          if !(b.hasRun && b.runThrows) then v4
          else if libReady && !b.getDocumentThrows && b.fetched.Some? then
            Assign(v4, b.fetched.value).(loadedDocs := v4.loadedDocs + [b.fetched.value])
          else v4
  }

  /**
   * The cascade only runs on an empty viewer, so even method 5, which assigns
   * without closing, leaves at most one document held.
   */
  lemma CascadeKeepsOneHeld(v: Viewer, fileURL: string, libReady: bool, b: Behaviour)
    requires OneHeld(v) && v.pdfDocument.None?
    ensures OneHeld(Cascade(v, fileURL, libReady, b))
    ensures Cascade(v, fileURL, libReady, b).pdfDocument.Some? ==>
      EndingMethod(b, v.hasEventBus, libReady) == 5
  {
  }

  datatype Outcome = NoFileURL | RetryIn100ms | AlreadyLoaded | EndedBy(ending: nat)

  /**
   * `forceLoadPDF` of the post-load script: nothing without a configured URL,
   * a retry in 100 ms without a viewer, nothing when a document is already
   * there, and otherwise the cascade.
   */
  method ForceLoadPDF(w: Window, b: Behaviour) returns (r: Outcome)
    modifies w`viewer
    ensures !Truthy(w.fileURL) ==> r == NoFileURL && w.viewer == old(w.viewer)
    ensures Truthy(w.fileURL) && old(w.viewer).None? ==> r == RetryIn100ms && w.viewer == None
    ensures Truthy(w.fileURL) && old(w.viewer).Some? && old(w.viewer).value.pdfDocument.Some? ==>
      r == AlreadyLoaded && w.viewer == old(w.viewer)
    ensures Truthy(w.fileURL) && old(w.viewer).Some? && old(w.viewer).value.pdfDocument.None? ==>
      r == EndedBy(EndingMethod(b, old(w.viewer).value.hasEventBus, w.pdfjsLibReady)) &&
      w.viewer == Some(Cascade(old(w.viewer).value, w.fileURL.value, w.pdfjsLibReady, b))
  {
    if w.fileURL.None? || w.fileURL.value == "" {
      return NoFileURL;
    }
    var fileURL := w.fileURL.value;
    if w.viewer.None? {
      return RetryIn100ms;
    }
    var v := w.viewer.value;
    if v.pdfDocument.Some? {
      return AlreadyLoaded;
    }
    // Method 1: open()
    v := v.(opens := v.opens + [fileURL]);
    if !b.openThrows {
      w.viewer := Some(v);
      return EndedBy(1);
    }
    // Method 2: load(), when present
    if b.hasLoad {
      v := v.(loaded := v.loaded + [fileURL]);
      if !b.loadThrows {
        w.viewer := Some(v);
        return EndedBy(2);
      }
    }
    // Method 3: the `download` event
    if v.hasEventBus {
      v := v.(events := v.events + ["download"]);
      if !b.dispatchThrows {
        w.viewer := Some(v);
        return EndedBy(3);
      }
    }
    // Method 4: set the url, re-run
    v := v.(url := fileURL, runs := v.runs + (if b.hasRun then [fileURL] else []));
    if !(b.hasRun && b.runThrows) {
      w.viewer := Some(v);
      return EndedBy(4);
    }
    // Method 5: getDocument
    if w.pdfjsLibReady {
      if b.getDocumentThrows {
        w.viewer := Some(v);
        return EndedBy(0);
      }
      if b.fetched.Some? {
        v := Assign(v, b.fetched.value).(loadedDocs := v.loadedDocs + [b.fetched.value]);
      }
    }
    w.viewer := Some(v);
    return EndedBy(5);
  }

  /** `present` beyond the end of the sequence reads as absent. */
  predicate PresentAt(present: seq<bool>, k: nat) {
    k < |present| && present[k]
  }

  /**
   * `checkPDFViewerApplication`: one check every 100 ms, at most 50 of them;
   * `present[k]` says whether the viewer object exists at check `k`.
   */
  method CheckPDFViewerApplication(present: seq<bool>) returns (checks: nat, found: bool)
    ensures 1 <= checks <= MaxChecks
    ensures forall k :: 0 <= k < checks - 1 ==> !PresentAt(present, k)
    ensures found ==> PresentAt(present, checks - 1)
    ensures !found ==> checks == MaxChecks && !PresentAt(present, checks - 1)
    ensures found <==> exists k :: 0 <= k < MaxChecks && PresentAt(present, k)
  {
    checks := 0;
    found := false;
    while !found && checks < MaxChecks
      invariant 0 <= checks <= MaxChecks
      invariant forall k :: 0 <= k < checks - 1 ==> !PresentAt(present, k)
      invariant found ==> checks >= 1 && PresentAt(present, checks - 1)
      invariant !found ==> forall k :: 0 <= k < checks ==> !PresentAt(present, k)
      decreases MaxChecks - checks, if found then 0 else 1
    {
      checks := checks + 1;
      found := PresentAt(present, checks - 1);
    }
  }

  /** The three reports `verifyPDFLoad` can give after 3 s. */
  datatype Verdict =
    | Functional(pages: nat)
    | LoadedWithoutPages
    | NotLoaded(viewerPresent: bool, configured: Option<string>, search: Query)

  function VerifyPDFLoad(viewer: Option<Viewer>, fileURL: Option<string>, search: Query): (r: Verdict)
    ensures r.Functional? <==> viewer.Some? && viewer.value.pdfDocument.Some? && viewer.value.pagesCount > 0
    ensures r.LoadedWithoutPages? <==> viewer.Some? && viewer.value.pdfDocument.Some? && viewer.value.pagesCount == 0
    ensures r.Functional? ==> r.pages == viewer.value.pagesCount
    ensures r.NotLoaded? ==> r.viewerPresent == viewer.Some? && r.configured == fileURL && r.search == search
  {
    if viewer.Some? && viewer.value.pdfDocument.Some? then
      if viewer.value.pagesCount > 0 then Functional(viewer.value.pagesCount) else LoadedWithoutPages
    else NotLoaded(viewer.Some?, fileURL, search)
  }

  /** A document injected by the direct loader is reported functional exactly when it has pages. */
  lemma InjectedReportsPages(v: Viewer, doc: Doc, fileURL: Option<string>, search: Query)
    requires v.pdfDocument == Some(doc) && v.pagesCount == doc.numPages
    ensures VerifyPDFLoad(Some(v), fileURL, search) == (if doc.numPages > 0 then Functional(doc.numPages) else LoadedWithoutPages)
  {
  }
}
