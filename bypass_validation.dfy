/**
 * The script that runs before the viewer: it silences the viewer's
 * file-origin complaints and makes every reader of the `file` parameter see
 * the URL the extension configured in `window.PDFJSExtensionFileURL`.
 */
module BypassValidation {
  import opened Common

  const OriginMismatch := "file origin does not match"
  const NoGetDocument := "getDocument - no"
  const NoUrlParam := "no `url` parameter provided"
  const SilencedPrefix := "[PDF.js Extension] Error silenciado: "

  // ---------------------------------------------------------------------------
  // Error silencing

  /** The messages the wrapped `console.error` swallows. */
  predicate ConsoleSilences(message: string) {
    Contains(message, OriginMismatch) || Contains(message, NoGetDocument) ||
    Contains(message, NoUrlParam) ||
    (Contains(message, "file:") && Contains(message, "origin"))
  }

  /** The messages the `error` and `unhandledrejection` listeners swallow. */
  predicate GlobalSilences(message: string) {
    Contains(message, OriginMismatch) || Contains(message, NoUrlParam)
  }

  /** Whatever the page-level listeners swallow, the console filter swallows as well. */
  lemma GlobalImpliesConsole(message: string)
    ensures GlobalSilences(message) ==> ConsoleSilences(message)
  {
  }

  /** The converse fails: the console filter also swallows the getDocument complaint. */
  lemma ConsoleIsWider()
    ensures ConsoleSilences(NoGetDocument) && !GlobalSilences(NoGetDocument)
  {
    assert IsPrefix(NoGetDocument, NoGetDocument);
    if Contains(NoGetDocument, OriginMismatch) {
      ContainsLength(NoGetDocument, OriginMismatch);
    }
    if Contains(NoGetDocument, NoUrlParam) {
      ContainsLength(NoGetDocument, NoUrlParam);
    }
  }

  /** The console, as far as the filter is concerned. */
  class Console {
    /** argument lists that reached the original `console.error` */
    var forwarded: seq<seq<string>>
    /** lines written with `console.log` by the filter */
    var logged: seq<string>

    constructor ()
      ensures forwarded == [] && logged == []
    {
      forwarded, logged := [], [];
    }

    /**
     * The wrapped `console.error(...args)`: the arguments are joined with
     * spaces; a silenced message is logged, cut to 100 characters, and does
     * not reach the original console.
     */
    method Error(args: seq<string>)
      modifies this
      ensures var message := Join(args, " ");
        if ConsoleSilences(message) then
          forwarded == old(forwarded) && logged == old(logged) + [SilencedPrefix + Take(message, 100)]
        else
          forwarded == old(forwarded) + [args] && logged == old(logged)
    {
      var message := Join(args, " ");
      if ConsoleSilences(message) {
        logged := logged + [SilencedPrefix + Take(message, 100)];
      } else {
        forwarded := forwarded + [args];
      }
    }
  }

  /** A page `error` event: `preventDefault` is called exactly for the two viewer complaints. */
  function OnError(message: Option<string>): (prevent: bool)
    ensures prevent ==> Truthy(message)
    ensures prevent <==> message.Some? && GlobalSilences(message.value)
  {
    message.Some? && message.value != "" && GlobalSilences(message.value)
  }

  /** The `reason` of a rejected promise. */
  datatype Reason =
    | Absent
    | Text(text: string)
    | ErrorObject(message: Option<string>)
    | OtherValue

  /** `event.reason?.message || event.reason`, when that is a string. */
  function RejectionText(reason: Reason): (r: Option<string>)
    ensures r.Some? ==> reason.Text? || (reason.ErrorObject? && Truthy(reason.message))
  {
    match reason
    case Text(t) => Some(t)
    case ErrorObject(m) => if Truthy(m) then m else None
    case _ => None
  }

  /** An `unhandledrejection` event: `preventDefault` is called for the same two complaints. */
  function OnRejection(reason: Reason): (prevent: bool)
    ensures prevent ==> RejectionText(reason).Some?
  {
    RejectionText(reason).Some? && GlobalSilences(RejectionText(reason).value)
  }

  /** A rejection is silenced alike whether it carries the message as text or inside an Error. */
  lemma RejectionsAlike(m: string)
    requires m != ""
    ensures OnRejection(ErrorObject(Some(m))) == OnRejection(Text(m)) == OnError(Some(m))
  {
  }

  /** An Error with an empty message is never silenced, whatever else it carries. */
  lemma EmptyErrorNotSilenced()
    ensures !OnRejection(ErrorObject(Some(""))) && !OnRejection(ErrorObject(None))
  {
  }

  // ---------------------------------------------------------------------------
  // The virtualised `file` parameter

  /**
   * `new URLSearchParams(init).get(name)` once the constructor is wrapped:
   * a configured (truthy) extension URL answers for `file`.
   */
  function WrappedGet(q: Query, fileURL: Option<string>, name: string): (r: Option<string>)
    ensures name == "file" && Truthy(fileURL) ==> r == fileURL
    ensures name != "file" || !Truthy(fileURL) ==> r == Lookup(q, name)
  {
    if name == "file" && Truthy(fileURL) then fileURL else Lookup(q, name)
  }

  /** `params.has(name)` once the constructor is wrapped. */
  function WrappedHas(q: Query, fileURL: Option<string>, name: string): (r: bool)
    ensures r <==> (name == "file" && Truthy(fileURL)) || HasParam(q, name)
  {
    (name == "file" && Truthy(fileURL)) || HasParam(q, name)
  }

  /** The wrapped `get` and `has` agree, for every name and every configuration. */
  lemma GetHasAgree(q: Query, fileURL: Option<string>, name: string)
    ensures WrappedGet(q, fileURL, name).Some? <==> WrappedHas(q, fileURL, name)
  {
    LookupFindsIffHas(q, name);
  }

  /** Without a configured URL the wrapped object answers exactly like the original one. */
  lemma WrapTransparentWhenUnset(q: Query, fileURL: Option<string>, name: string)
    requires !Truthy(fileURL)
    ensures WrappedGet(q, fileURL, name) == Lookup(q, name)
    ensures WrappedHas(q, fileURL, name) == HasParam(q, name)
  {
  }

  /**
   * The `location.search` getter: with a configured URL, the parameters of
   * the current address with `file` set to it; without one, the search string
   * captured when the getter was installed. When `defineProperty` throws
   * (`installed` false) reading `location.search` is untouched.
   */
  function LocationSearch(installed: bool, current: Query, captured: Query, fileURL: Option<string>): (r: Query)
    ensures installed && Truthy(fileURL) ==>
      Lookup(r, "file") == fileURL && CountParam(r, "file") == 1 &&
      forall n :: n != "file" ==> Lookup(r, n) == Lookup(current, n)
    ensures installed && !Truthy(fileURL) ==> r == captured
    ensures !installed ==> r == current
  {
    if !installed then current
    else if Truthy(fileURL) then SetParam(current, "file", fileURL.value)
    else captured
  }

  /**
   * Both routes by which the viewer can read its `file` parameter report the
   * same value once the getter is installed.
   */
  lemma RoutesAgreeOnFile(current: Query, captured: Query, fileURL: Option<string>)
    ensures Lookup(LocationSearch(true, current, captured, fileURL), "file") == WrappedGet(captured, fileURL, "file")
  {
  }
}
