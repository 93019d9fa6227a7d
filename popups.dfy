/**
 * The three file pickers of the initialisation script, as an attach/detach
 * lifecycle of their DOM nodes: `showLocalFileSelector` (overlay, message,
 * a keydown listener), `showEnhancedLocalFileSelector` (overlay and message,
 * removed without a check) and the automatic picker of
 * `handleAutoLocalSelect` (one message node). The markup is not modelled.
 *
 * The file the user picks in the hidden file input, and the blob URL made
 * for it, are inputs (`Picked`); `None` is a dialog closed without a file.
 */
module Popups {
  import opened Common
  import opened Uri
  import opened Page
  import InitConfigure

  datatype Picked = Picked(name: string, blobURL: string)

  /** What a picker's handler leaves to happen next. */
  datatype PickNext =
    | Stay
    | LoadWithDirectLoader(url: string)            // loadPDFWithDirectLoader(blobURL)
    | ForceLoadNow(url: string)                    // forceLoadPDF(blobURL)
    | ShowSelector(originalFile: Option<string>)   // showLocalFileSelector(originalFile)
    | PickThrew                                    // the handler threw part-way

  /**
   * The globals after a pick: the blob URL becomes the configured file, the
   * title names the picked file, and `setupFileForPDFJS(blobURL)` runs.
   */
  function PickGlobals(g: InitConfigure.Globals, f: Picked): (r: InitConfigure.Globals)
    ensures r.fileURL == Some(f.blobURL) && r.title == f.name + InitConfigure.TitleSuffix
    ensures Lookup(r.query, "file") == Some(f.blobURL)
    ensures forall n :: n != "file" ==> Lookup(r.query, n) == Lookup(g.query, n)
    ensures r.originalURL == g.originalURL
  {
    InitConfigure.Setup(g.(fileURL := Some(f.blobURL), title := f.name + InitConfigure.TitleSuffix), f.blobURL)
  }

  // ---------------------------------------------------------------------------
  // showLocalFileSelector

  /** Overlay and message attached, keydown listener registered, cancel button present. */
  datatype PopupState = PopupState(overlay: bool, message: bool, listening: bool, hasCancel: bool)

  datatype PopupEvent = Key(key: string) | OverlayClick | CancelClick | FileChosen(file: Option<Picked>)

  /** `closePopup`: each node is removed only if it is still attached. */
  function ClosePopup(s: PopupState): (r: PopupState)
    ensures !r.overlay && !r.message
    ensures r.listening == s.listening && r.hasCancel == s.hasCancel
  {
    s.(overlay := false, message := false)
  }

  /** Closing twice is closing once: the second call finds nothing attached. */
  lemma ClosePopupIdempotent(s: PopupState)
    ensures ClosePopup(ClosePopup(s)) == ClosePopup(s)
  {
  }

  /** The events that call `closePopup`. */
  predicate Closes(s: PopupState, e: PopupEvent) {
    match e
    case Key(k) => k == "Escape" && s.listening
    case OverlayClick => true
    case CancelClick => s.hasCancel
    case FileChosen(f) => f.Some?
  }

  /**
   * One event. Escape closes and unregisters the listener; an overlay click
   * or a cancel closes and leaves the listener registered; a picked file
   * closes; anything else changes nothing.
   */
  function Step(s: PopupState, e: PopupEvent): (r: PopupState)
    ensures r.hasCancel == s.hasCancel
    ensures r.listening == (s.listening && !(e == Key("Escape")))
    ensures Closes(s, e) ==> !r.overlay && !r.message
    ensures !Closes(s, e) ==> r.overlay == s.overlay && r.message == s.message
  {
    match e
    case Key(k) => if k == "Escape" && s.listening then ClosePopup(s).(listening := false) else s
    case OverlayClick => ClosePopup(s)
    case CancelClick => if s.hasCancel then ClosePopup(s) else s
    case FileChosen(f) => if f.Some? then ClosePopup(s) else s
  }

  function Run(s: PopupState, es: seq<PopupEvent>): PopupState
    decreases |es|
  {
    if es == [] then s else Run(Step(s, es[0]), es[1..])
  }

  /** The listener stays registered until the first Escape, and no longer. */
  lemma {:induction false} RunListening(s: PopupState, es: seq<PopupEvent>)
    ensures Run(s, es).listening == (s.listening && Key("Escape") !in es)
    decreases |es|
  {
    if es != [] {
      RunListening(Step(s, es[0]), es[1..]);
      assert Key("Escape") in es <==> es[0] == Key("Escape") || Key("Escape") in es[1..] by {
        assert es == [es[0]] + es[1..];
      }
    }
  }

  /** Once closed, nothing attaches the popup again. */
  lemma {:induction false} ClosedStaysClosed(s: PopupState, es: seq<PopupEvent>)
    requires !s.overlay && !s.message
    ensures !Run(s, es).overlay && !Run(s, es).message
    decreases |es|
  {
    if es != [] {
      ClosedStaysClosed(Step(s, es[0]), es[1..]);
    }
  }

  /** A popup whose listener is gone has been closed. */
  lemma {:induction false} UnlistenedIsClosed(s: PopupState, es: seq<PopupEvent>)
    requires s.listening && !Run(s, es).listening
    ensures !Run(s, es).overlay && !Run(s, es).message
    decreases |es|
  {
    if es != [] {
      var t := Step(s, es[0]);
      if t.listening {
        UnlistenedIsClosed(t, es[1..]);
      } else {
        ClosedStaysClosed(t, es[1..]);
      }
    }
  }

  class LocalFileSelector {
    var overlay: bool
    var message: bool
    var listening: bool
    const hasCancel: bool
    /** The file name the message shows, when it names one. */
    const shownName: Option<string>

    function State(): PopupState
      reads this
    {
      PopupState(overlay, message, listening, hasCancel)
    }

    constructor (hasCancel: bool, shownName: Option<string>)
      ensures State() == PopupState(true, true, true, hasCancel) && this.shownName == shownName
    {
      this.hasCancel := hasCancel;
      this.shownName := shownName;
      overlay, message, listening := true, true, true;
    }

    method Close()
      modifies this`overlay, this`message
      ensures State() == ClosePopup(old(State()))
    {
      if overlay {
        overlay := false;
      }
      if message {
        message := false;
      }
    }

    method KeyDown(key: string)
      modifies this
      ensures State() == Step(old(State()), Key(key))
    {
      if listening && key == "Escape" {
        Close();
        listening := false;
      }
    }

    method OverlayClicked()
      modifies this
      ensures State() == Step(old(State()), OverlayClick)
    {
      Close();
    }

    method CancelClicked()
      modifies this
      ensures State() == Step(old(State()), CancelClick)
    {
      if hasCancel {
        Close();
      }
    }

    /** The input's `change` handler. */
    method FileChosen(w: Window, f: Option<Picked>) returns (next: PickNext)
      modifies this, w`fileURL, w`title, w`appOptions, w`query
      ensures State() == Step(old(State()), PopupEvent.FileChosen(f))
      ensures f.Some? ==>
        next == LoadWithDirectLoader(f.value.blobURL) &&
        InitConfigure.Snapshot(w) == PickGlobals(old(InitConfigure.Snapshot(w)), f.value)
      ensures f.None? ==> next == Stay && InitConfigure.Snapshot(w) == old(InitConfigure.Snapshot(w))
    {
      if f.None? {
        return Stay;
      }
      var file := f.value;
      w.fileURL := Some(file.blobURL);
      w.title := file.name + InitConfigure.TitleSuffix;
      Close();
      InitConfigure.SetupFileForPDFJS(w, file.blobURL);
      return LoadWithDirectLoader(file.blobURL);
    }
  }

  /**
   * `showLocalFileSelector(originalFile)`: the animation style goes into the
   * head first; decoding a truthy `originalFile` may then throw, and then
   * nothing else is attached.
   */
  method ShowLocalFileSelector(w: Window, originalFile: Option<string>) returns (p: Option<LocalFileSelector>)
    modifies w`headStyles
    ensures w.headStyles == old(w.headStyles) + 1
    ensures p.None? <==> Truthy(originalFile) && DecodeURIComponent(originalFile.value).None?
    ensures p.Some? ==>
      fresh(p.value) && p.value.State() == PopupState(true, true, true, Truthy(originalFile)) &&
      p.value.shownName ==
        (if Truthy(originalFile) then Some(LastSegment(DecodeURIComponent(originalFile.value).value)) else None)
  {
    w.headStyles := w.headStyles + 1;
    var shown: Option<string> := None;
    if Truthy(originalFile) {
      var decoded := DecodeURIComponent(originalFile.value);
      if decoded.None? {
        return None;
      }
      shown := Some(LastSegment(decoded.value));
    }
    var sel := new LocalFileSelector(Truthy(originalFile), shown);
    p := Some(sel);
  }

  /** The message of a selector opened on an encoded file name shows that name's last segment. */
  lemma SelectorNamesEncodedFile(dir: string, name: string)
    requires '/' !in name && name != ""
    ensures var u := EncodeURIComponent(dir + "/" + name);
      Truthy(Some(u)) && DecodeURIComponent(u) == Some(dir + "/" + name) &&
      LastSegment(DecodeURIComponent(u).value) == name
  {
    var u := EncodeURIComponent(dir + "/" + name);
    DecodeEncode(dir + "/" + name);
    LastSegmentOf(dir, name);
    assert DecodeURIComponent("") == Some("");
  }

  // ---------------------------------------------------------------------------
  // showEnhancedLocalFileSelector

  datatype Attached = Attached(overlay: bool, message: bool)

  /**
   * The enhanced picker's `change` handler. It sets the URL and the title,
   * then removes overlay and message without checking that they are
   * attached; a removal that fails throws before the setup and the load.
   */
  function EnhancedPick(a: Attached, f: Option<Picked>): (r: (Attached, PickNext))
    ensures f.None? ==> r == (a, Stay)
    ensures f.Some? ==> (r.1 == ForceLoadNow(f.value.blobURL) <==> a.overlay && a.message)
    ensures f.Some? && !(a.overlay && a.message) ==> r.1 == PickThrew
    ensures f.Some? ==> !r.0.overlay && r.0.message == (a.message && !a.overlay)
  {
    if f.None? then (a, Stay)
    else if !a.overlay then (a, PickThrew)
    else if !a.message then (Attached(false, false), PickThrew)
    else (Attached(false, false), ForceLoadNow(f.value.blobURL))
  }

  /** After a successful pick, a second pick finds nothing to remove and throws. */
  lemma SecondEnhancedPickThrows(f: Picked, g: Picked)
    ensures var first := EnhancedPick(Attached(true, true), Some(f));
      first.1 == ForceLoadNow(f.blobURL) && EnhancedPick(first.0, Some(g)).1 == PickThrew
  {
  }

  class EnhancedSelector {
    var overlay: bool
    var message: bool
    const displayName: string

    function State(): Attached
      reads this
    {
      Attached(overlay, message)
    }

    constructor (displayName: string)
      ensures State() == Attached(true, true) && this.displayName == displayName
    {
      this.displayName := displayName;
      overlay, message := true, true;
    }

    method FileChosen(w: Window, f: Option<Picked>) returns (next: PickNext)
      modifies this, w`fileURL, w`title, w`appOptions, w`query
      ensures (State(), next) == EnhancedPick(old(State()), f)
      ensures next.ForceLoadNow? ==>
        InitConfigure.Snapshot(w) == PickGlobals(old(InitConfigure.Snapshot(w)), f.value)
      ensures next == PickThrew ==>
        InitConfigure.Snapshot(w) ==
          old(InitConfigure.Snapshot(w)).(fileURL := Some(f.value.blobURL), title := f.value.name + InitConfigure.TitleSuffix)
      ensures next == Stay ==> InitConfigure.Snapshot(w) == old(InitConfigure.Snapshot(w))
    {
      if f.None? {
        return Stay;
      }
      var file := f.value;
      w.fileURL := Some(file.blobURL);
      w.title := file.name + InitConfigure.TitleSuffix;
      if !overlay {
        return PickThrew;
      }
      overlay := false;
      if !message {
        return PickThrew;
      }
      message := false;
      InitConfigure.SetupFileForPDFJS(w, file.blobURL);
      return ForceLoadNow(file.blobURL);
    }
  }

  // ---------------------------------------------------------------------------
  // handleAutoLocalSelect

  /** `fileName || originalFile?.split('/').pop() || 'PDF'`, the text that is then decoded. */
  function AutoDisplaySource(fileName: Option<string>, originalFile: Option<string>): (r: string)
    ensures Truthy(fileName) ==> r == fileName.value
    ensures !Truthy(fileName) && originalFile.None? ==> r == "PDF"
    ensures r != ""
  {
    InitConfigure.OrElse(fileName, if originalFile.Some? then InitConfigure.OrElse(Some(LastSegment(originalFile.value)), "PDF") else "PDF")
  }

  /** With an original file it names the same thing as the direct local chain's display name. */
  lemma AutoDisplayAgrees(fileName: Option<string>, originalFile: string)
    ensures AutoDisplaySource(fileName, Some(originalFile)) == InitConfigure.DisplaySource(fileName, originalFile)
  {
  }

  /** How `createAutoSelector` ends. */
  datatype AutoStart = BodyPending | DisplayThrew | AutoShown(selector: AutoSelector)

  class AutoSelector {
    var message: bool
    const originalFile: Option<string>
    const shownName: string

    constructor (originalFile: Option<string>, shownName: string)
      ensures message && this.originalFile == originalFile && this.shownName == shownName
    {
      this.originalFile := originalFile;
      this.shownName := shownName;
      message := true;
    }

    /** The `change` handler: the message goes either way; no file falls back to the normal selector. */
    method FileChosen(w: Window, f: Option<Picked>) returns (next: PickNext)
      modifies this`message, w`fileURL, w`title, w`appOptions, w`query
      ensures !message
      ensures f.Some? ==>
        next == ForceLoadNow(f.value.blobURL) &&
        InitConfigure.Snapshot(w) == PickGlobals(old(InitConfigure.Snapshot(w)), f.value)
      ensures f.None? ==>
        next == ShowSelector(originalFile) && InitConfigure.Snapshot(w) == old(InitConfigure.Snapshot(w))
    {
      if f.Some? {
        var file := f.value;
        w.fileURL := Some(file.blobURL);
        w.title := file.name + InitConfigure.TitleSuffix;
        if message {
          message := false;
        }
        InitConfigure.SetupFileForPDFJS(w, file.blobURL);
        return ForceLoadNow(file.blobURL);
      }
      if message {
        message := false;
      }
      return ShowSelector(originalFile);
    }
  }

  /**
   * `createAutoSelector`: it re-schedules itself every 100 ms until the body
   * exists (`bodyAt[k]` is the body's presence at the k-th try; the model
   * stops when the tries run out), then decodes the display text, which may
   * throw before the message is attached.
   */
  method CreateAutoSelector(bodyAt: seq<bool>, fileName: Option<string>, originalFile: Option<string>)
    returns (tries: nat, start: AutoStart)
    ensures tries == FirstTrue(bodyAt)
    ensures start == BodyPending <==> tries == |bodyAt|
    ensures start == DisplayThrew <==>
      tries < |bodyAt| && DecodeURIComponent(AutoDisplaySource(fileName, originalFile)).None?
    ensures start.AutoShown? ==>
      fresh(start.selector) && start.selector.message && start.selector.originalFile == originalFile &&
      Some(start.selector.shownName) == DecodeURIComponent(AutoDisplaySource(fileName, originalFile))
  {
    tries := 0;
    while tries < |bodyAt| && !bodyAt[tries]
      invariant tries <= |bodyAt|
      invariant tries <= FirstTrue(bodyAt)
      decreases |bodyAt| - tries
    {
      tries := tries + 1;
    }
    if tries == |bodyAt| {
      return tries, BodyPending;
    }
    var shown := DecodeURIComponent(AutoDisplaySource(fileName, originalFile));
    if shown.None? {
      return tries, DisplayThrew;
    }
    var sel := new AutoSelector(originalFile, shown.value);
    start := AutoShown(sel);
  }
}
