/**
 * How the viewer page decides what to load: `getURLParams`,
 * `configureDefaultURL` and `setupFileForPDFJS` of the initialisation script.
 *
 * `configureDefaultURL` reads the parameters of the viewer address, picks one
 * mode by a fixed priority of flags and writes the window globals. Its whole
 * effect is the pure transition `Configure`; the method `ConfigureDefaultURL`
 * performs it step by step, the way the script does, including the globals it
 * has already written when a later `decodeURIComponent` throws.
 *
 * `Configure` takes a switch `decodeAgain`. With `true` it is the script as
 * written: every parameter value, which URLSearchParams has already decoded,
 * goes through `decodeURIComponent` a second time. With `false` it is the
 * evidently intended behaviour, which uses the values as they are read.
 * `new URL(u).pathname` is an input (`pathnameOf`); `None` stands for an
 * address the URL parser rejects.
 * Whether `document.body` exists while the call runs is an input too
 * (`bodyPresent`): the automatic picker the `forceLocal` block falls back to
 * decodes its display text synchronously only then.
 */
module InitConfigure {
  import opened Common
  import opened Uri
  import opened Page

  const TitleSuffix := " - PDF.js Viewer"

  /** The parameters `getURLParams` reads, as `URLSearchParams.get` returns them. */
  datatype Params = Params(
    file: Option<string>,
    openLocal: Option<string>,
    originalFile: Option<string>,
    autoLoad: Option<string>,
    fileName: Option<string>,
    blobURL: Option<string>,
    forceLocal: Option<string>,
    autoLocalSelect: Option<string>)

  function GetURLParams(q: Query): Params {
    Params(Lookup(q, "file"), Lookup(q, "openLocal"), Lookup(q, "originalFile"), Lookup(q, "autoLoad"),
      Lookup(q, "fileName"), Lookup(q, "blobURL"), Lookup(q, "forceLocal"), Lookup(q, "autoLocalSelect"))
  }

  /** A flag is on only when its value is exactly `true`. */
  predicate On(flag: Option<string>) {
    flag == Some("true")
  }

  /** `x || fallback` for a value that may be null or empty. */
  function OrElse(x: Option<string>, fallback: string): string {
    if Truthy(x) then x.value else fallback
  }

  // ---------------------------------------------------------------------------
  // Mode selection

  /** The branch of `configureDefaultURL` that ends the call. */
  datatype Mode = AutoLoadBlob | AutoLoadLocal | ForceLocal | AutoLocalSelect | OpenLocal | NormalFile

  /** The `autoLoad` block returns: the flag is on and there is a blob or an original file. */
  predicate AutoLoadReturns(p: Params) {
    On(p.autoLoad) && (Truthy(p.blobURL) || Truthy(p.originalFile))
  }

  /** The `forceLocal` block returns: the flag is on and there is an original file. */
  predicate ForceLocalReturns(p: Params) {
    On(p.forceLocal) && Truthy(p.originalFile)
  }

  /**
   * The flags are tested in the order autoLoad, forceLocal, autoLocalSelect,
   * openLocal; a flag whose block lacks its parameter lets control fall
   * through to the next one, and with no flag the `file` parameter is used.
   */
  function SelectMode(p: Params): (m: Mode)
    ensures m == AutoLoadBlob <==> On(p.autoLoad) && Truthy(p.blobURL)
    ensures m == AutoLoadLocal <==> On(p.autoLoad) && !Truthy(p.blobURL) && Truthy(p.originalFile)
    ensures m == ForceLocal <==> !AutoLoadReturns(p) && ForceLocalReturns(p)
    ensures m == AutoLocalSelect <==> !AutoLoadReturns(p) && !ForceLocalReturns(p) && On(p.autoLocalSelect)
    ensures m == OpenLocal <==>
      !AutoLoadReturns(p) && !ForceLocalReturns(p) && !On(p.autoLocalSelect) && On(p.openLocal)
    ensures m == NormalFile <==>
      !AutoLoadReturns(p) && !ForceLocalReturns(p) && !On(p.autoLocalSelect) && !On(p.openLocal)
  {
    if On(p.autoLoad) && Truthy(p.blobURL) then AutoLoadBlob
    else if On(p.autoLoad) && Truthy(p.originalFile) then AutoLoadLocal
    else if On(p.forceLocal) && Truthy(p.originalFile) then ForceLocal
    else if On(p.autoLocalSelect) then AutoLocalSelect
    else if On(p.openLocal) then OpenLocal
    else NormalFile
  }

  /** Any value of a flag other than exactly `true` ("TRUE", "1", "") selects what no flag selects. */
  lemma FlagsNeedExactTrue(p: Params, v: string)
    requires v != "true"
    ensures SelectMode(p.(autoLoad := Some(v))) == SelectMode(p.(autoLoad := None))
    ensures SelectMode(p.(forceLocal := Some(v))) == SelectMode(p.(forceLocal := None))
    ensures SelectMode(p.(autoLocalSelect := Some(v))) == SelectMode(p.(autoLocalSelect := None))
    ensures SelectMode(p.(openLocal := Some(v))) == SelectMode(p.(openLocal := None))
  {
  }

  /** `autoLoad` with neither a blob nor an original file decides nothing. */
  lemma AutoLoadFallsThrough(p: Params)
    requires !Truthy(p.blobURL) && !Truthy(p.originalFile)
    ensures SelectMode(p) == SelectMode(p.(autoLoad := None))
  {
  }

  /** A higher flag wins whatever the lower ones say. */
  lemma PriorityOrder(p: Params)
    ensures On(p.autoLoad) && Truthy(p.blobURL) ==> SelectMode(p) == AutoLoadBlob
    ensures !On(p.autoLoad) && ForceLocalReturns(p) ==> SelectMode(p) == ForceLocal
    ensures !AutoLoadReturns(p) && !ForceLocalReturns(p) && On(p.autoLocalSelect) ==>
      SelectMode(p) == AutoLocalSelect
  {
  }

  // ---------------------------------------------------------------------------
  // The transition

  /** The window globals `configureDefaultURL` reads and writes. */
  datatype Globals = Globals(
    fileURL: Option<string>,
    originalURL: Option<string>,
    title: string,
    appOptions: Option<AppOptions>,
    query: Query)

  function Snapshot(w: Window): Globals
    reads w
  {
    Globals(w.fileURL, w.originalURL, w.title, w.appOptions, w.query)
  }

  /** What the call leaves scheduled once it has returned. */
  datatype Next =
    | NoFollowUp
    | ForceLoadSoon(url: string)
    | ForceLoadLocalSoon(url: string)
    | SelectorSoon(originalFile: Option<string>)
    | AutoSelector(originalFile: Option<string>, fileName: Option<string>)
    | DirectLocalChain(originalFile: Option<string>, decodedFile: string, displayName: string)

  /** How the promise of the async function settles; it rejects when a decode throws outside a `try`. */
  datatype Settled = Resolved(value: bool, next: Next) | Rejected

  /** A parameter value as the script uses it: decoded again, or taken as read. */
  function ReadParam(raw: string, decodeAgain: bool): Option<string> {
    if decodeAgain then DecodeURIComponent(raw) else Some(raw)
  }

  /** `decodeURIComponent(s)`, keeping `s` when it throws (the `try` of the normal mode). */
  function DecodeOrKeep(raw: string): string {
    match DecodeURIComponent(raw)
    case Some(d) => d
    case None => raw
  }

  /** `AppOptions.set('defaultUrl', u)` when AppOptions exists. */
  function SetDefaultUrl(o: Option<AppOptions>, u: string): Option<AppOptions> {
    if o.Some? then Some(o.value.(defaultUrl := Some(u))) else None
  }

  /**
   * `setupFileForPDFJS(u)` on the globals: AppOptions (when it exists) gets
   * `defaultUrl` and `file`, and the address gets `file=u`.
   */
  function Setup(g: Globals, u: string): (r: Globals)
    ensures Lookup(r.query, "file") == Some(u)
    ensures forall n :: n != "file" ==> Lookup(r.query, n) == Lookup(g.query, n)
    ensures r.appOptions.Some? == g.appOptions.Some?
    ensures r.appOptions.Some? ==> r.appOptions.value == AppOptions(Some(u), Some(u))
    ensures r.fileURL == g.fileURL && r.originalURL == g.originalURL && r.title == g.title
  {
    g.(appOptions := if g.appOptions.Some? then Some(AppOptions(Some(u), Some(u))) else None,
       query := SetParam(g.query, "file", u))
  }

  /** The title for a document at `pathname`: its last segment, or "PDF Document". */
  function PathTitle(pathname: string): string {
    var name := LastSegment(pathname);
    (if name != "" then name else "PDF Document") + TitleSuffix
  }

  /** The title names the file the path ends in. */
  lemma PathTitleNamesFile(dir: string, name: string)
    requires '/' !in name
    ensures PathTitle(dir + "/" + name) == (if name != "" then name else "PDF Document") + TitleSuffix
  {
    LastSegmentOf(dir, name);
  }

  /** The display name of the direct local chain: `fileName || last segment || 'PDF'`. */
  function DisplaySource(fileName: Option<string>, decodedFile: string): string {
    OrElse(fileName, OrElse(Some(LastSegment(decodedFile)), "PDF"))
  }

  /**
   * The whole effect of `configureDefaultURL` on the globals, and how its
   * promise settles.
   */
  function Configure(g: Globals, pathnameOf: string -> Option<string>, decodeAgain: bool, bodyPresent: bool)
    : (res: (Globals, Settled))
    ensures res.1.Rejected? ==> decodeAgain
    ensures var m := SelectMode(GetURLParams(g.query));
      (res.1.Rejected? ==> m == AutoLoadBlob || m == AutoLocalSelect || (m == ForceLocal && bodyPresent)) &&
      (res.1.Resolved? && !res.1.value ==> m == NormalFile) &&
      (res.1 == Resolved(true, NoFollowUp) ==> m == NormalFile)
    ensures res.1.Resolved? && (res.1.next.ForceLoadSoon? || res.1.next.ForceLoadLocalSoon?) ==>
      res.0.fileURL == Some(res.1.next.url) && Lookup(res.0.query, "file") == Some(res.1.next.url)
    ensures res.1.Resolved? && res.1.next.DirectLocalChain? ==>
      res.0.fileURL == Some(res.1.next.decodedFile) && Lookup(res.0.query, "file") == Some(res.1.next.decodedFile)
    ensures forall n :: n != "file" ==> Lookup(res.0.query, n) == Lookup(g.query, n)
  {
    var p := GetURLParams(g.query);
    match SelectMode(p)
    case AutoLoadBlob => AutoLoadBlobStep(g, p, decodeAgain)
    case AutoLoadLocal => (g, Resolved(true, SelectorSoon(p.originalFile)))
    case ForceLocal => ForceLocalStep(g, p, decodeAgain, bodyPresent)
    case AutoLocalSelect => AutoLocalSelectStep(g, p, decodeAgain)
    case OpenLocal => (g, Resolved(true, SelectorSoon(p.originalFile)))
    case NormalFile => NormalFileStep(g, p, pathnameOf, decodeAgain)
  }

  /** The `autoLoad` block with a blob URL: the blob is decoded, then the file name for the title. */
  function AutoLoadBlobStep(g: Globals, p: Params, decodeAgain: bool): (res: (Globals, Settled))
    requires Truthy(p.blobURL)
    ensures res.1.Resolved? ==>
      (res.1.value && res.1.next.ForceLoadSoon? &&
       res.0.fileURL == Some(res.1.next.url) && Lookup(res.0.query, "file") == Some(res.1.next.url))
    ensures res.1.Rejected? ==> decodeAgain
    ensures forall n :: n != "file" ==> Lookup(res.0.query, n) == Lookup(g.query, n)
  {
    match ReadParam(p.blobURL.value, decodeAgain)
    case None => (g, Rejected)
    case Some(u) =>
      var g1 := g.(fileURL := Some(u));
      match ReadParam(OrElse(p.fileName, "PDF"), decodeAgain)
      case None => (g1, Rejected)
      case Some(name) => (Setup(g1.(title := name + TitleSuffix), u), Resolved(true, ForceLoadSoon(u)))
  }

  /**
   * The `forceLocal` block: a decode that throws is caught and hands over to
   * `handleAutoLocalSelect`. When the body already exists, its
   * `createAutoSelector` runs inside the `catch` and decodes the display text
   * (`fileName || last segment of originalFile || 'PDF'`) at once; when that
   * decode throws too, the promise rejects, keeping whatever the `try` set.
   * Without a body the picker is scheduled and the call resolves true.
   */
  function ForceLocalStep(g: Globals, p: Params, decodeAgain: bool, bodyPresent: bool): (res: (Globals, Settled))
    requires Truthy(p.originalFile)
    ensures var caught := ReadParam(p.originalFile.value, decodeAgain).None? ||
                          ReadParam(OrElse(p.fileName, "PDF"), decodeAgain).None?;
      (res.1.Rejected? <==>
         caught && bodyPresent && ReadParam(DisplaySource(p.fileName, p.originalFile.value), decodeAgain).None?) &&
      (res.1.Resolved? ==> res.1.value && (res.1.next.ForceLoadLocalSoon? <==> !caught)) &&
      (res.1.Resolved? && caught ==> res.1.next == AutoSelector(p.originalFile, p.fileName))
    ensures res.1.Resolved? && res.1.next.ForceLoadLocalSoon? ==>
      res.0.fileURL == Some(res.1.next.url) && Lookup(res.0.query, "file") == Some(res.1.next.url)
    ensures res.1.Rejected? ==>
      decodeAgain && res.0.query == g.query && res.0.title == g.title &&
      res.0.fileURL == (if ReadParam(p.originalFile.value, decodeAgain).Some? then ReadParam(p.originalFile.value, decodeAgain) else g.fileURL)
    ensures forall n :: n != "file" ==> Lookup(res.0.query, n) == Lookup(g.query, n)
  {
    match ReadParam(p.originalFile.value, decodeAgain)
    case None => CaughtForceLocal(g, p, decodeAgain, bodyPresent)
    case Some(u) =>
      var g1 := g.(fileURL := Some(u));
      match ReadParam(OrElse(p.fileName, "PDF"), decodeAgain)
      case None => CaughtForceLocal(g1, p, decodeAgain, bodyPresent)
      case Some(name) => (Setup(g1.(title := name + TitleSuffix), u), Resolved(true, ForceLoadLocalSoon(u)))
  }

  /**
   * The `catch` of the `forceLocal` block: `handleAutoLocalSelect` with the
   * body present throws when the display text does not decode.
   */
  function CaughtForceLocal(g: Globals, p: Params, decodeAgain: bool, bodyPresent: bool): (res: (Globals, Settled))
    requires Truthy(p.originalFile)
    ensures res.0 == g
    ensures res.1.Rejected? <==> bodyPresent && ReadParam(DisplaySource(p.fileName, p.originalFile.value), decodeAgain).None?
    ensures res.1.Resolved? ==> res.1 == Resolved(true, AutoSelector(p.originalFile, p.fileName))
  {
    if bodyPresent && ReadParam(DisplaySource(p.fileName, p.originalFile.value), decodeAgain).None? then
      (g, Rejected)
    else
      (g, Resolved(true, AutoSelector(p.originalFile, p.fileName)))
  }

  /**
   * The `autoLocalSelect` block (`forceDirectLocalLoad`): the original file
   * (the text "null" when there is none) and the display name are decoded
   * before anything is set.
   */
  function AutoLocalSelectStep(g: Globals, p: Params, decodeAgain: bool): (res: (Globals, Settled))
    ensures res.1.Resolved? ==>
      (res.1.value && res.1.next.DirectLocalChain? &&
       res.0.fileURL == Some(res.1.next.decodedFile) && Lookup(res.0.query, "file") == Some(res.1.next.decodedFile))
    ensures res.1.Rejected? ==> decodeAgain && res.0 == g
    ensures forall n :: n != "file" ==> Lookup(res.0.query, n) == Lookup(g.query, n)
  {
    match ReadParam(if p.originalFile.Some? then p.originalFile.value else "null", decodeAgain)
    case None => (g, Rejected)
    case Some(file) =>
      match ReadParam(DisplaySource(p.fileName, file), decodeAgain)
      case None => (g, Rejected)
      case Some(display) =>
        (Setup(g.(fileURL := Some(file), title := display + TitleSuffix), file),
         Resolved(true, DirectLocalChain(p.originalFile, file, display)))
  }

  /** The normal mode: the `file` parameter, checked by the URL parser. */
  function NormalFileStep(g: Globals, p: Params, pathnameOf: string -> Option<string>, decodeAgain: bool): (res: (Globals, Settled))
    ensures res.1.Resolved? && res.1.next == NoFollowUp
    ensures res.0.query == g.query
    ensures res.1.value ==> Truthy(p.file)
  {
    if !Truthy(p.file) then
      (g.(fileURL := None, originalURL := None, appOptions := SetDefaultUrl(g.appOptions, "")),
       Resolved(false, NoFollowUp))
    else
      var u := if decodeAgain then DecodeOrKeep(p.file.value) else p.file.value;
      match pathnameOf(u)
      case None => (g, Resolved(false, NoFollowUp))
      case Some(path) =>
        (g.(fileURL := Some(u), originalURL := Some(u), appOptions := SetDefaultUrl(g.appOptions, u),
            title := PathTitle(path)),
         Resolved(true, NoFollowUp))
  }

  /** Without a `file` parameter (and no mode flag) both globals are cleared and the call reports false. */
  lemma MissingFileClears(g: Globals, pathnameOf: string -> Option<string>, decodeAgain: bool, bodyPresent: bool)
    requires SelectMode(GetURLParams(g.query)) == NormalFile && !Truthy(Lookup(g.query, "file"))
    ensures var (g2, r) := Configure(g, pathnameOf, decodeAgain, bodyPresent);
      r == Resolved(false, NoFollowUp) && g2.fileURL == None && g2.originalURL == None &&
      g2.title == g.title && g2.query == g.query
  {
  }

  /** An address the URL parser rejects changes nothing and reports false. */
  lemma InvalidURLChangesNothing(g: Globals, pathnameOf: string -> Option<string>, bodyPresent: bool)
    requires SelectMode(GetURLParams(g.query)) == NormalFile && Truthy(Lookup(g.query, "file"))
    requires pathnameOf(DecodeOrKeep(Lookup(g.query, "file").value)).None?
    ensures Configure(g, pathnameOf, true, bodyPresent) == (g, Resolved(false, NoFollowUp))
  {
  }

  /**
   * A valid address becomes both globals and the default URL, and the title
   * names its last path segment; a decode that throws keeps the raw value.
   */
  lemma NormalModeConfigures(g: Globals, pathnameOf: string -> Option<string>, bodyPresent: bool)
    requires SelectMode(GetURLParams(g.query)) == NormalFile && Truthy(Lookup(g.query, "file"))
    requires pathnameOf(DecodeOrKeep(Lookup(g.query, "file").value)).Some?
    ensures var raw := Lookup(g.query, "file").value;
      var u := if DecodeURIComponent(raw).Some? then DecodeURIComponent(raw).value else raw;
      var (g2, r) := Configure(g, pathnameOf, true, bodyPresent);
      r == Resolved(true, NoFollowUp) && g2.fileURL == Some(u) && g2.originalURL == Some(u) &&
      g2.appOptions == SetDefaultUrl(g.appOptions, u) && g2.title == PathTitle(pathnameOf(u).value)
  {
  }

  /** With the intended single decoding nothing ever throws, so the promise always resolves. */
  lemma IntendedNeverRejects(g: Globals, pathnameOf: string -> Option<string>, bodyPresent: bool)
    ensures Configure(g, pathnameOf, false, bodyPresent).1.Resolved?
  {
  }

  // ---------------------------------------------------------------------------
  // The method

  /**
   * `setupFileForPDFJS(u)`: AppOptions gets `defaultUrl` and `file`, and
   * `history.replaceState` puts `file=u` into the address.
   */
  method SetupFileForPDFJS(w: Window, u: string)
    modifies w`appOptions, w`query
    ensures Snapshot(w) == Setup(old(Snapshot(w)), u)
  {
    if w.appOptions.Some? {
      w.appOptions := Some(w.appOptions.value.(defaultUrl := Some(u)));
      w.appOptions := Some(w.appOptions.value.(file := Some(u)));
    }
    w.query := SetParam(w.query, "file", u);
  }

  /** The `autoLoad` block with a blob URL on the window. */
  method ConfigureAutoLoadBlob(w: Window, p: Params, decodeAgain: bool) returns (r: Settled)
    requires Truthy(p.blobURL)
    modifies w`fileURL, w`title, w`appOptions, w`query
    ensures (Snapshot(w), r) == AutoLoadBlobStep(old(Snapshot(w)), p, decodeAgain)
  {
    var u := ReadParam(p.blobURL.value, decodeAgain);
    if u.None? {
      return Rejected;
    }
    w.fileURL := u;
    var name := ReadParam(OrElse(p.fileName, "PDF"), decodeAgain);
    if name.None? {
      return Rejected;
    }
    w.title := name.value + TitleSuffix;
    SetupFileForPDFJS(w, u.value);
    return Resolved(true, ForceLoadSoon(u.value));
  }

  /**
   * The `forceLocal` block on the window; its `catch` hands over to the
   * automatic picker, which decodes the display text at once when the body
   * exists.
   */
  method ConfigureForceLocal(w: Window, p: Params, decodeAgain: bool) returns (r: Settled)
    requires Truthy(p.originalFile)
    modifies w`fileURL, w`title, w`appOptions, w`query
    ensures (Snapshot(w), r) == ForceLocalStep(old(Snapshot(w)), p, decodeAgain, w.bodyPresent)
  {
    var u := ReadParam(p.originalFile.value, decodeAgain);
    var name := None;
    if u.Some? {
      w.fileURL := u;
      name := ReadParam(OrElse(p.fileName, "PDF"), decodeAgain);
    }
    if name.None? {
      // handleAutoLocalSelect(originalFile, fileName)
      if w.bodyPresent && ReadParam(DisplaySource(p.fileName, p.originalFile.value), decodeAgain).None? {
        return Rejected;
      }
      return Resolved(true, AutoSelector(p.originalFile, p.fileName));
    }
    w.title := name.value + TitleSuffix;
    SetupFileForPDFJS(w, u.value);
    return Resolved(true, ForceLoadLocalSoon(u.value));
  }

  /** The `autoLocalSelect` block on the window (`forceDirectLocalLoad`). */
  method ConfigureAutoLocalSelect(w: Window, p: Params, decodeAgain: bool) returns (r: Settled)
    modifies w`fileURL, w`title, w`appOptions, w`query
    ensures (Snapshot(w), r) == AutoLocalSelectStep(old(Snapshot(w)), p, decodeAgain)
  {
    // decodeURIComponent(null) reads "null"
    var file := ReadParam(if p.originalFile.Some? then p.originalFile.value else "null", decodeAgain);
    if file.None? {
      return Rejected;
    }
    var display := ReadParam(DisplaySource(p.fileName, file.value), decodeAgain);
    if display.None? {
      return Rejected;
    }
    w.fileURL := file;
    w.title := display.value + TitleSuffix;
    SetupFileForPDFJS(w, file.value);
    return Resolved(true, DirectLocalChain(p.originalFile, file.value, display.value));
  }

  /** The normal mode on the window: the `file` parameter, checked by the URL parser. */
  method ConfigureNormalFile(w: Window, p: Params, pathnameOf: string -> Option<string>, decodeAgain: bool)
    returns (r: Settled)
    modifies w`fileURL, w`originalURL, w`title, w`appOptions
    ensures (Snapshot(w), r) == NormalFileStep(old(Snapshot(w)), p, pathnameOf, decodeAgain)
  {
    if !Truthy(p.file) {
      w.fileURL, w.originalURL := None, None;
      w.appOptions := SetDefaultUrl(w.appOptions, "");
      return Resolved(false, NoFollowUp);
    }
    var decoded := if decodeAgain then DecodeOrKeep(p.file.value) else p.file.value;
    var path := pathnameOf(decoded);
    if path.None? {
      return Resolved(false, NoFollowUp);
    }
    w.fileURL, w.originalURL := Some(decoded), Some(decoded);
    w.appOptions := SetDefaultUrl(w.appOptions, decoded);
    w.title := PathTitle(path.value);
    return Resolved(true, NoFollowUp);
  }

  /**
   * `configureDefaultURL()`: as written when `decodeAgain` holds, and with
   * the parameters taken as URLSearchParams already decoded them otherwise.
   */
  method ConfigureDefaultURL(w: Window, pathnameOf: string -> Option<string>, decodeAgain: bool) returns (r: Settled)
    modifies w`fileURL, w`originalURL, w`title, w`appOptions, w`query
    ensures (Snapshot(w), r) == Configure(old(Snapshot(w)), pathnameOf, decodeAgain, w.bodyPresent)
  {
    var p := GetURLParams(w.query);
    if On(p.autoLoad) {
      if Truthy(p.blobURL) {
        r := ConfigureAutoLoadBlob(w, p, decodeAgain);
        return;
      } else if Truthy(p.originalFile) {
        return Resolved(true, SelectorSoon(p.originalFile));
      }
    }
    if On(p.forceLocal) && Truthy(p.originalFile) {
      r := ConfigureForceLocal(w, p, decodeAgain);
      return;
    }
    if On(p.autoLocalSelect) {
      r := ConfigureAutoLocalSelect(w, p, decodeAgain);
      return;
    }
    if On(p.openLocal) {
      return Resolved(true, SelectorSoon(p.originalFile));
    }
    r := ConfigureNormalFile(w, p, pathnameOf, decodeAgain);
  }
}
