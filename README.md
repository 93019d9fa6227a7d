# inpdf-pdfjs — a verified model of the extension's core

The extension opens PDF documents in its own copy of the PDF.js viewer.
A content script spots PDF addresses and dropped files and redirects the tab
to the viewer page, with the document described in the query string
(`file`, `autoLoad`, `forceLocal`, `autoLocalSelect`, `openLocal`).
Inside the viewer page, several scripts then cooperate:

- a script that silences the viewer's file-origin checks;
- the initialisation script, which decodes the query, configures
  `window.PDFJSExtensionFileURL` and pushes the document into
  `PDFViewerApplication`;
- a direct loader and a post-load script, which retry the load by other routes;
- the local-file pickers;
- the chat assistant, which builds its prompt context from the document's text;
- the WebLLM loader and the Markdown renderer for its answers.

This project models those scripts in Dafny and proves what they promise
about the URL they configure, the document the viewer ends up holding, the
retries and their bounds, the text that reaches the prompt, and the HTML
the renderer writes.

Modules, one per source file or concern:

| module | file | models |
|---|---|---|
| `Common` | common.dfy | shared string and query-list operations (`includes`, `substring`, `split('/').pop()`, `URLSearchParams.get/set`) |
| `Uri` | uri.dfy | `encodeURIComponent` / `decodeURIComponent` (UTF-8 escapes, URIError as `None`) and query parsing |
| `Page` | page.dfy | `PDFViewerApplication` as a value, the viewer's DOM controls, the window globals as a class |
| `BypassValidation` | bypass_validation.dfy | bypass-validation.js |
| `DirectLoader` | direct_loader.dfy | direct-loader.js |
| `PostLoad` | post_load.dfy | extension-post-load.js |
| `InitConfigure` | init_configure.dfy | extension-init.js: URL parameters and `configureDefaultURL` |
| `Popups` | popups.dfy | extension-init.js: the three local-file selectors |
| `InitLoading` | init_loading.dfy | extension-init.js: the loading functions and their retries |
| `Chat` | chat.dfy | extension-init.js: the chat's PDF context, summary and page questions |
| `ContentScript` | content_script.dfy | content-script.js |
| `WebLLMLoader` | webllm_loader.dfy | webllm-loader.js |
| `Markdown` | markdown.dfy | markdown-renderer.js |

Modelling conventions:

- Timers, promises and event listeners become steps of a method, or inputs
  that say what happens at each tick.
- The outcome of each browser call is a parameter. This covers whether
  `getDocument` resolves, whether a viewer entry point throws, what an XHR
  returns and which file the user picks.
- JavaScript's `null`/`undefined` string values are `Option<string>`, and
  truthiness is `Truthy`.
- `updateLocalPDFViewer` of the initialisation script (extension-init.js:2206-2229)
  makes the same three control updates as the direct loader's
  `updatePDFViewer`, so both are `DirectLoader.UpdateUi`; `InitLoading`
  applies it after each local load.

## Model

| member | source | states |
|---|---|---|
| BypassValidation.GlobalImpliesConsole | bypass-validation.js:13-33 | every message the page-level `error` listener swallows is also swallowed by the `console.error` filter |
| BypassValidation.ConsoleIsWider | bypass-validation.js:13-33 | the console filter also swallows the `getDocument` complaint, which the page-level listeners let through |
| BypassValidation.Console.Error | bypass-validation.js:13-23 | the arguments are joined with spaces; a silenced message is logged cut to 100 characters and not forwarded; any other call reaches the original console unchanged |
| BypassValidation.OnError | bypass-validation.js:26-33 | `preventDefault` is called exactly when the event's message is one of the two viewer complaints (and so is truthy) |
| BypassValidation.RejectionText | bypass-validation.js:37-38 | `reason.message \|\| reason` gives text only for a textual reason or an Error with a non-empty message |
| BypassValidation.OnRejection | bypass-validation.js:36-44 | a rejection is silenced only when it yields text and that text is a viewer complaint |
| BypassValidation.RejectionsAlike | bypass-validation.js:26-44 | for a non-empty message, an Error reason, a string reason and an `error` event are silenced alike |
| BypassValidation.EmptyErrorNotSilenced | bypass-validation.js:37-38 | an Error whose message is empty or missing is never silenced |
| BypassValidation.WrappedGet | bypass-validation.js:56-68 | `get('file')` returns the configured URL when it is truthy; every other lookup answers as the unwrapped object |
| BypassValidation.WrappedHas | bypass-validation.js:72-78 | `has(name)` holds iff the name is `file` with a configured URL, or the query holds the name |
| BypassValidation.GetHasAgree | bypass-validation.js:56-78 | the wrapped `get` finds a value exactly when the wrapped `has` answers true |
| BypassValidation.WrapTransparentWhenUnset | bypass-validation.js:56-78 | with no configured URL the wrapped object answers exactly like the original |
| BypassValidation.LocationSearch | bypass-validation.js:87-102 | with a configured URL the getter reports the current parameters with `file` set to it; otherwise the captured search; untouched when `defineProperty` throws |
| BypassValidation.RoutesAgreeOnFile | bypass-validation.js:56-102 | `location.search` and the wrapped `URLSearchParams` report the same `file` |
| Page.Close | direct-loader.js:29-31 | `close()` empties the document slot and counts one close |
| Page.CloseIfOpen | direct-loader.js:29-31 | the slot is empty afterwards; a close is counted iff a document was open; at most one document stays held |
| Page.CloseBeforeAssign | direct-loader.js:29-34 | closing before assigning keeps one document held, while assigning over an open document would hold two |
| Common.Take | content-script.js:82 | `substring(0, n)` is the prefix of length `min(n, \|s\|)` |
| Common.LastSegment | content-script.js:82 | `split('/').pop()` holds no '/', is a suffix of the input, and follows the last '/' |
| Common.LastSegmentOf | content-script.js:82 | the last segment of `dir/name` is `name` |
| Common.SetParam | bypass-validation.js:93 | `params.set(name, v)` leaves exactly one entry under `name`, with value `v`, and changes no other name's lookup |
| Common.LookupFindsIffHas | bypass-validation.js:57-77 | `get` finds a value iff `has` is true |
| Uri.EncodeURIComponent | content-script.js:134 | the encoding is at least as long as the input and holds only '%' and unreserved characters |
| Uri.EncodeUnreserved | content-script.js:134 | a string of unreserved characters is its own encoding |
| Uri.DecodePlain | extension-init.js:348 | text without '%' decodes to itself |
| Uri.DecodeBarePercent | extension-init.js:348 | a '%' not followed by two hexadecimal digits makes `decodeURIComponent` throw |
| Uri.DecodeOnePercent | extension-init.js:348 | a single `%25` decodes to a bare '%' |
| Uri.DecodeEncodeChar | extension-init.js:348 | decoding the encoding of one character (1 to 4 UTF-8 bytes) gives the character back, whatever follows |
| Uri.DecodeEncode | extension-init.js:348 | `decodeURIComponent(encodeURIComponent(s)) == s` for every string |
| Uri.FormDecodeEncoded | extension-init.js:11 | what `encodeURIComponent` wrote, `URLSearchParams` reads back unchanged |
| Uri.PieceRoundTrip | extension-init.js:11 | one `name=encoded` piece holds no '&' and parses back to its pair |
| Uri.ParseBuildQuery | extension-init.js:11 | `URLSearchParams` reads back exactly the pairs a query was built from |
| Uri.EncodedIsQuerySafe | content-script.js:100 | an encoded component holds no '&', '=', '#', '?' or '+', so it cannot split a query |
| DirectLoader.Inject | direct-loader.js:29-56 | the new document takes the slot after any open one is closed; `pagesCount` and `url` report it; `documentloaded` is dispatched iff there is an event bus; the page viewer shows it when present and its `setDocument` does not throw; at most one document stays held |
| DirectLoader.UpdateUi | direct-loader.js:137-160 | each control that exists shows 'de N', page '1' with max N and a hidden loading bar; missing controls stay missing |
| DirectLoader.UpdateUiIdempotent | direct-loader.js:137-160 | a second update for the same document changes nothing |
| DirectLoader.RenderAllPages | direct-loader.js:73-134 | when the page viewer takes the document the controls are updated; without a page viewer, or when its `setDocument` throws, the first page is drawn into `#viewer` and the controls are updated, or nothing happens when `#viewer` is missing |
| DirectLoader.ShowError | direct-loader.js:163-198 | the message replaces `#viewer`'s content when it exists; the controls are untouched |
| DirectLoader.ViewerAfterLoad | direct-loader.js:19-67 | a failed load leaves the viewer as it was; a loaded document ends up in the slot with its URL |
| DirectLoader.UiAfterLoad | direct-loader.js:26-67 | a failed load shows the error message with its prefix; a loaded document with a viewer renders as `RenderAllPages` says for that viewer, and without a viewer nothing changes |
| DirectLoader.LoadKeepsOneHeld | direct-loader.js:29-34 | loading never leaves the viewer holding two documents |
| DirectLoader.SecondLoadClosesFirst | direct-loader.js:29-34 | loading twice closes the first document exactly once and leaves the second in the slot |
| DirectLoader.LoadPDFDirectly | direct-loader.js:10-70 | throws iff pdfjsLib is not there, changing nothing; otherwise the viewer and controls become the result of the settled load |
| DirectLoader.CheckPDFJS | direct-loader.js:205-236 | the check stops at the first tick where pdfjsLib is present, after 200 ms per failed check; `ready` iff some tick has it |
| DirectLoader.AfterSettle | direct-loader.js:212-227 | 500 ms later a load starts iff the configured URL is truthy, and it loads that URL into the viewer and the controls as `ViewerAfterLoad` and `UiAfterLoad` say |
| PostLoad.EndingMethod | extension-post-load.js:34-110 | the method that ends the call is the first of the five that does not fail; 0 means all five failed, which needs `run` and `getDocument` to throw |
| PostLoad.LoadAbsentFallsThrough | extension-post-load.js:45-54 | without a `load` entry point, method 2 does not end the call although nothing threw |
| PostLoad.Cascade | extension-post-load.js:34-110 | the viewer after the cascade records every entry point tried, up to and including the ending method |
| PostLoad.CascadeKeepsOneHeld | extension-post-load.js:29-110 | on an empty viewer the cascade, even method 5's bare assignment, leaves at most one document held |
| PostLoad.ForceLoadPDF | extension-post-load.js:10-118 | nothing happens without a URL; a retry is scheduled without a viewer; nothing happens when a document is already loaded; otherwise the viewer becomes the cascade's result |
| PostLoad.CheckPDFViewerApplication | extension-post-load.js:139-158 | at most 50 checks, stopping at the first where the viewer exists; `found` iff it exists within the 50 |
| PostLoad.VerifyPDFLoad | extension-post-load.js:162-186 | functional iff a document with pages is loaded, reporting its page count; otherwise it reports the state it saw |
| PostLoad.InjectedReportsPages | extension-post-load.js:162-186 | a document the direct loader injected is reported functional exactly when it has pages |
| InitConfigure.SelectMode | extension-init.js:250-341 | exactly one mode, tested in the order autoLoad, forceLocal, autoLocalSelect, openLocal; a flag counts only when it is `true`, and a flag whose block lacks its parameter falls through |
| InitConfigure.FlagsNeedExactTrue | extension-init.js:250-312 | any flag value other than `true` selects what no flag selects |
| InitConfigure.AutoLoadFallsThrough | extension-init.js:250-276 | `autoLoad` with neither a blob nor an original file decides nothing |
| InitConfigure.PriorityOrder | extension-init.js:250-312 | a higher flag wins, whatever the lower flags say |
| InitConfigure.Setup | extension-init.js:1688-1700 | `file` becomes the URL and no other parameter changes; AppOptions, when present, gets `defaultUrl` and `file`; the globals are untouched |
| InitConfigure.PathTitleNamesFile | extension-init.js:372-378 | the title names the last path segment, or "PDF Document" when that segment is empty |
| InitConfigure.Configure | extension-init.js:246-381 | the whole call follows the selected mode; it rejects only when a second decode throws, and only in `autoLoad` with a blob, in `autoLocalSelect`, or in `forceLocal` with the body present; every follow-up it schedules carries the URL it set; only `file` ever changes in the address |
| InitConfigure.AutoLoadBlobStep | extension-init.js:253-268 | the decoded blob URL becomes both globals and the title names the file; a decode that throws rejects the call |
| InitConfigure.ForceLocalStep | extension-init.js:279-302 | when both decodes succeed the decoded file is configured and a local load follows; a caught decode error hands over to the automatic picker, and the call rejects exactly when the body exists and the picker's display text fails to decode as well, keeping the file URL the `try` had already set; otherwise it resolves true |
| InitConfigure.CaughtForceLocal | extension-init.js:2122-2150 | `handleAutoLocalSelect` inside the `catch` changes no global; it throws exactly when the body exists and `fileName`, the original file's last segment or `PDF` does not decode, and otherwise schedules the picker and reports true |
| InitConfigure.AutoLocalSelectStep | extension-init.js:305-309 | the decoded file and its display name are set before the chain starts; a decode that throws rejects with nothing changed |
| InitConfigure.NormalFileStep | extension-init.js:329-378 | no follow-up and no change to the address; true only with a `file` parameter |
| InitConfigure.MissingFileClears | extension-init.js:329-341 | without `file`, both globals are cleared and the call reports false |
| InitConfigure.InvalidURLChangesNothing | extension-init.js:356-359 | an address the URL parser rejects changes nothing and reports false |
| InitConfigure.NormalModeConfigures | extension-init.js:343-378 | a valid address becomes both globals and the default URL, and the title names its last segment; a decode that throws keeps the raw value |
| InitConfigure.IntendedNeverRejects | extension-init.js:246-381 | reading each parameter once, as `URLSearchParams` decoded it, the call always resolves |
| InitConfigure.SetupFileForPDFJS | extension-init.js:1688-1700 | the window afterwards is `Setup` of the window before |
| InitConfigure.ConfigureAutoLoadBlob | extension-init.js:253-268 | performed step by step, the block leaves the window as `AutoLoadBlobStep` says, including what it set before a throwing decode |
| InitConfigure.ConfigureForceLocal | extension-init.js:279-302 | the block leaves the window and the settled promise as `ForceLocalStep` says, for the window's own `document.body`, including the rejection from the picker's decode |
| InitConfigure.ConfigureAutoLocalSelect | extension-init.js:1880-1890 | the block leaves the window as `AutoLocalSelectStep` says |
| InitConfigure.ConfigureNormalFile | extension-init.js:329-378 | the block leaves the window as `NormalFileStep` says |
| InitConfigure.ConfigureDefaultURL | extension-init.js:246-381 | the method leaves the window and the settled promise as `Configure` says, for the window's own `document.body` |
| InitLoading.AttemptEnding | extension-init.js:1746-1794 | an attempt ends at the first of direct loader, `open`, `webViewerLoad` whose call does not throw |
| InitLoading.AttemptViewer | extension-init.js:1746-1794 | the viewer after one attempt: untouched when the direct loader takes the URL; an open document is closed before `open`; at most one document stays held |
| InitLoading.OpenAfterClose | extension-init.js:1764-1769 | `open` is only ever called on an empty viewer, and the call is logged with the URL |
| InitLoading.BackoffClosedForm | extension-init.js:1789-1790 | the total delay before attempt n is 100·n·(n−1) ms |
| InitLoading.BackoffGrows | extension-init.js:1789-1790 | the total delay grows with the number of attempts |
| InitLoading.WorstCaseWait | extension-init.js:1739-1798 | ten failed attempts take 9 s in all |
| InitLoading.ForceLoadPDF | extension-init.js:1739-1798 | at most ten attempts; every attempt before the last failed; giving up needs ten failures; the time waited is the backoff sum, at most 9 s; the viewer is the last attempt's |
| InitLoading.EndTick | extension-init.js:1704-1717 | the first tick at which `tryLoadPDF` finds a surface |
| InitLoading.TryChainEnd | extension-init.js:1704-1731 | a chain keeps waiting iff no tick has a surface; the direct loader loads iff it is there at the ending tick |
| InitLoading.TryLoadPDF | extension-init.js:1704-1731 | the chain makes one call per tick up to the ending one and ends as `TryChainEnd` says |
| InitLoading.LoadPDFWithDirectLoader | extension-init.js:1703-1736 | the two chains end independently, each as its own ticks say |
| InitLoading.LoadsTwice | extension-init.js:1734-1735 | with the direct loader ready at both starts the URL is loaded twice, and the second injection closes the first document |
| InitLoading.InjectLocal | extension-init.js:1832-1841 | a local document takes the slot after any open one is closed; unlike the direct loader, `pagesCount` and `url` are left as they were |
| InitLoading.Fallback | extension-init.js:1872-1876 | the selector is scheduled iff `decodeURIComponent(fileURL)` does not throw |
| InitLoading.FallbackOnEncoded | extension-init.js:1872-1876 | a URL produced by `encodeURIComponent` never makes the fallback throw |
| InitLoading.ForceLoadLocalPDF | extension-init.js:1812-1877 | a loaded task is injected; a failed task falls back to the selector; without pdfjsLib the fetched blob goes to `forceLoadPDF`, and a failed fetch falls back |
| InitLoading.Chain | extension-init.js:1880-2040 | each strategy (XHR, hidden iframe, pdfjsLib, manual pick) starts only after the one before fails, in that order, and the first success ends the chain |
| InitLoading.XhrNeedsStatus200 | extension-init.js:1894-1921 | any status other than 200 moves on to the iframe, as an XHR error does |
| InitLoading.PickerLast | extension-init.js:2022-2040 | the manual picker appears only when every automatic strategy failed |
| InitLoading.RunDirectLocalChain | extension-init.js:1880-2040 | the run is `Chain`'s; the XHR blob or the decoded file becomes the configured URL; a document loaded by pdfjsLib is injected and the controls show its page count, and otherwise the viewer and the controls are untouched |
| Popups.PickGlobals | extension-init.js:195-206 | after a pick the blob URL becomes the configured file and the `file` parameter, the title names the picked file, and no other parameter changes |
| Popups.ClosePopup | extension-init.js:174-177 | afterwards neither overlay nor message is attached; the listener and the cancel button are untouched |
| Popups.ClosePopupIdempotent | extension-init.js:174-177 | closing twice is closing once |
| Popups.Step | extension-init.js:174-242 | Escape closes and unregisters the listener; an overlay click, a cancel or a picked file closes; any other event changes nothing |
| Popups.RunListening | extension-init.js:235-242 | the keydown listener stays registered until the first Escape, and no longer |
| Popups.ClosedStaysClosed | extension-init.js:174-242 | once closed, no event attaches the popup again |
| Popups.UnlistenedIsClosed | extension-init.js:235-242 | a popup whose listener is gone has been closed |
| Popups.LocalFileSelector.Close | extension-init.js:174-177 | the selector's state becomes `ClosePopup` of its state |
| Popups.LocalFileSelector.KeyDown | extension-init.js:235-242 | the selector's state takes one `Step` for the key |
| Popups.LocalFileSelector.OverlayClicked | extension-init.js:180-184 | the selector's state takes one `Step` for the click |
| Popups.LocalFileSelector.CancelClicked | extension-init.js:226-232 | the selector's state takes one `Step` for the cancel |
| Popups.LocalFileSelector.FileChosen | extension-init.js:189-218 | a picked file closes the popup and sets the globals as `PickGlobals` says; no file changes nothing |
| Popups.ShowLocalFileSelector | extension-init.js:91-243 | the style always goes into the head first; the selector is attached iff decoding the original file does not throw, and then names its last segment |
| Popups.SelectorNamesEncodedFile | extension-init.js:135-136 | a selector opened on an encoded address names the file the address ends in |
| Popups.EnhancedPick | extension-init.js:2097-2114 | a pick loads the file iff overlay and message are both still attached; otherwise the unguarded removal throws before the setup |
| Popups.SecondEnhancedPickThrows | extension-init.js:2104-2105 | after a successful pick, a second pick finds nothing to remove and throws |
| Popups.EnhancedSelector.FileChosen | extension-init.js:2097-2114 | the handler performs `EnhancedPick`; a load sets the globals first; a throw leaves what was set before it |
| Popups.AutoDisplaySource | extension-init.js:2150 | the display text is the file name when truthy, else the last segment of the original file, else 'PDF'; it is never empty |
| Popups.AutoDisplayAgrees | extension-init.js:2150 | with an original file, it names what the direct local chain's display name names |
| Popups.AutoSelector.FileChosen | extension-init.js:2165-2192 | the message goes either way; a picked file is configured and loaded; no file falls back to the normal selector |
| Popups.CreateAutoSelector | extension-init.js:2125-2197 | it retries every 100 ms until the first tick with a body; the display decode may throw before anything is attached; otherwise the message shows the decoded name |
| ContentScript.IsPDFURL | content-script.js:9-32 | an empty address is never a PDF; an address mentioning ".pdf" in any letter case always is; otherwise the page's meta tag or content type decides |
| ContentScript.IsPDFURLIgnoresCase | content-script.js:9-32 | an address and its lower-cased form are judged alike |
| ContentScript.DeclaredPdfPageClaimsEveryURL | content-script.js:9-32 | on a page declared as a PDF, every non-empty address counts as a PDF |
| ContentScript.PDFURLOf | content-script.js:35-66 | the page address, then the PDF embed, then the PDF object, then the first iframe showing a PDF, in that priority; nothing only when none applies; a found address is never empty |
| ContentScript.GetPDFURL | content-script.js:35-66 | the iframe scan finds exactly what `PDFURLOf` says |
| ContentScript.LocalPairs | content-script.js:85-127 | a local file is sent with its name and either a fetched blob (`autoLoad`), or the original file (`forceLocal` on a page mentioning "PDF", `autoLocalSelect` otherwise) |
| ContentScript.RedirectToPDFJS | content-script.js:69-141 | the tab stays iff the address is empty; the script throws iff a `file://` address fails to decode; otherwise the tab is replaced by a viewer address |
| ContentScript.RedirectBuildsQuery | content-script.js:69-141 | the viewer addresses the script spells out are exactly queries built from parameter lists: `file` for a web address, `LocalPairs` for a local one |
| ContentScript.LocalRedirect | content-script.js:78-130 | a decodable local address is redirected with `LocalPairs` under its last-segment name |
| ContentScript.FileOnlyParams | extension-init.js:10-33 | a query holding only `file` selects the normal mode with that address |
| ContentScript.AutoLoadParams | extension-init.js:10-33 | the viewer reads an `autoLoad` address back as the flag, the name and the blob |
| ContentScript.ForceLocalParams | extension-init.js:10-33 | the viewer reads a `forceLocal` address back as the flag, the name and the original file |
| ContentScript.AutoLocalSelectParams | extension-init.js:10-33 | the viewer reads an `autoLocalSelect` address back as the flag, the name and the original file |
| ContentScript.WebRedirectSelectsFile | content-script.js:133-140 | a web address reaches the viewer as its `file` parameter unchanged, and no mode flag is set |
| ContentScript.LocalRedirectSelectsMode | content-script.js:85-127 | the route chosen for a local file is the mode the viewer selects, and the file name arrives unchanged |
| ContentScript.CheckPDFByResponse | content-script.js:205-243 | ".pdf" in the address, then the content type, then ".pdf" in the title, then a PDF element with an address; the first three redirect to the page's own address; nothing only when none holds |
| ContentScript.AddressFoundOnlyByMeta | content-script.js:35-66 | when the response check finds nothing, the address is still reported only because a meta tag declares the PDF type |
| ContentScript.InitializeInterception | content-script.js:246-256 | a detection redirects at once; otherwise the page is redirected to what `PDFURLOf` finds, and observed exactly when it finds nothing |
| ContentScript.PdfFiles | content-script.js:281-284 | the filter keeps exactly the dropped files of PDF type or with a ".pdf" name, in any letter case |
| ContentScript.FirstPdfFile | content-script.js:281-300 | the file taken is the first dropped file that passes the filter |
| ContentScript.ContentPage.OnDrop | content-script.js:274-305 | the event is handled iff some dropped file is a PDF; the first one is stored and the tab goes to its `autoLoad` address; otherwise nothing changes |
| ContentScript.DropSelectsAutoLoad | content-script.js:300 | a dropped PDF reaches the viewer in `autoLoad` mode with its blob and its name unchanged |
| ContentScript.WebAddressDecodedTwice | content-script.js:133-135 | as written, a web address holding `%25` reaches the viewer's globals with that escape decoded, so a different address is loaded |
| ContentScript.WebAddressIntended | extension-init.js:343-369 | read once, the configured URL is exactly the address the content script sent |
| ContentScript.DroppedPercentNameRejects | extension-init.js:253-268 | as written, a dropped name with a '%' that starts no escape makes `configureDefaultURL` reject after the blob is stored, so no load is scheduled |
| ContentScript.DroppedFileIntended | extension-init.js:253-268 | read once, any dropped name titles the page and the blob is loaded |
| ContentScript.LocalPercentNameRejects | extension-init.js:279-300 | as written, a `forceLocal` redirect whose name has a '%' that starts no escape stores the decoded file address, then rejects when the body exists (the picker decodes the name again), and hands over to the picker when it does not |
| ContentScript.LocalFileIntended | extension-init.js:279-295 | read once, any name titles the page and the local file is loaded from the address the content script sent |
| WebLLMLoader.Deliver | webllm-loader.js:58 | every waiting caller is paired with the engine, in queue order |
| WebLLMLoader.Step | webllm-loader.js:31-76 | one call or settlement keeps the loader's invariant: a loaded engine is never loading and leaves nobody waiting, and a load in flight has a starter |
| WebLLMLoader.Run | webllm-loader.js:31-76 | any sequence of calls and settlements keeps the invariant |
| WebLLMLoader.InitialInv | webllm-loader.js:31-37 | the initial state satisfies the invariant |
| WebLLMLoader.LoadedIsFinal | webllm-loader.js:32 | once loaded, the engine stays, no load starts again and every later call gets the cached engine |
| WebLLMLoader.SuccessResolvesEveryWaiter | webllm-loader.js:46-63 | a successful load answers every waiting caller and the starter with the same engine, and empties the queue |
| WebLLMLoader.FailureKeepsWaiters | webllm-loader.js:65-75 | a failed load rejects only its starter; the queued callers stay queued and unanswered |
| WebLLMLoader.WaitersSurviveFailure | webllm-loader.js:31-76 | callers queued behind a failed load are answered by the next successful load, started by a later call |
| WebLLMLoader.Loader.Load | webllm-loader.js:31-37 | a call returns the cached engine when loaded, queues the caller while loading, and starts a load otherwise; the state takes the matching `Step` |
| WebLLMLoader.Loader.Settle | webllm-loader.js:46-75 | the end of the load in flight moves the state as `Step` says |
| WebLLMLoader.KeepAvailable | webllm-loader.js:145-147 | the filter keeps exactly the preferred models on offer, in preferred order |
| WebLLMLoader.KeepSmall | webllm-loader.js:151-153 | the filter keeps exactly the small models, in the list's order |
| WebLLMLoader.Slice | webllm-loader.js:153 | `slice(0, n)` is the prefix of length `min(n, \|s\|)` |
| WebLLMLoader.SelectModels | webllm-loader.js:130-167 | at least one and at most six models; the fixed three when the list is empty; otherwise only models on offer |
| WebLLMLoader.PreferredFirst | webllm-loader.js:145-147 | when a preferred model is on offer, it is tried, and only preferred models are tried, in preferred order |
| WebLLMLoader.SmallModelsNext | webllm-loader.js:150-154 | without a preferred model on offer, the first three small models of the list are tried (all of them when fewer), in the list's order |
| WebLLMLoader.FirstThreeLast | webllm-loader.js:157-159 | with neither preferred nor small models, the first three of the list are tried |
| WebLLMLoader.FailureNamesEveryModel | webllm-loader.js:199-201 | the error thrown when every model failed names every model that was tried |
| WebLLMLoader.TryModels | webllm-loader.js:171-205 | the first model whose engine is created is used, and every earlier one failed; the call fails iff every model fails, with the message naming them |
| WebLLMLoader.LoadLocalWebLLM | webllm-loader.js:79-206 | without `CreateMLCEngine` it fails; otherwise the engine is the first selected model that creates one, every earlier one having failed, and the failure names every selected model |
| WebLLMLoader.ChatOptions | webllm-loader.js:341-346 | the caller's options are all kept; the user message, temperature 0.7 and 512 tokens fill in only what the caller left out |
| WebLLMLoader.CallerOptionsWin | webllm-loader.js:341-346 | the `\|\|` defaults never decide: a caller's temperature of 0 stays 0, and a caller's messages replace the user message |
| WebLLMLoader.ChatWithModel | webllm-loader.js:336-350 | it throws iff no engine is loaded; otherwise it sends `ChatOptions` to the engine |
| Chat.Trim | extension-init.js:813 | `trim()` is the slice between the leading and the trailing whitespace; it is empty iff the text is blank, and otherwise starts and ends with a non-space |
| Chat.ParseIntOfNat | extension-init.js:790 | `parseInt(String(n)) == n` for every natural number |
| Chat.ParseIntDigits | extension-init.js:790 | a nonempty run of decimal digits alone parses to the value of those digits |
| Chat.ParseIntAfterWord | extension-init.js:693 | a text that starts with a letter parses to `NaN` |
| Chat.PageWindow | extension-init.js:790-799 | at most three consecutive pages, all within the document; they contain the current page when it is valid; nothing is read when the current page is `NaN` |
| Chat.WindowAfterLoad | extension-init.js:790-799 | right after a load, with the page field reading '1', the window is the first pages of the document |
| Chat.SectionsSkipUnread | extension-init.js:798-810 | pages whose text is blank or unreadable contribute nothing, and the sections are empty exactly when every page of the window is one of them |
| Chat.ExtractPDFText | extension-init.js:787-813 | the text is the trimmed concatenation of one section per readable page of the window, and is never longer than it |
| Chat.ContentPart | extension-init.js:717-725 | an empty text adds nothing; up to 800 characters are added whole; a longer text is cut to 800 characters and marked with " [...]" |
| Chat.ContentBounded | extension-init.js:719-724 | at most 800 characters of the text reach the prompt, and they are its beginning |
| Chat.ContextStrategy | extension-init.js:708 | the summary is chosen iff the page count is a number above 10 (`NaN > 10` is false) |
| Chat.PageCountLostAfterLoad | extension-init.js:693 | as written, the page-count element reads 'de N' after a load, so the parse gives `NaN` and long documents never take the summary path |
| Chat.PageCountIntendedAfterLoad | direct-loader.js:141-157 | read as the number after 'de ', the count after a load is the document's page count, and the summary is chosen iff it is above 10 |
| Chat.KeyPages | extension-init.js:739-742 | the first and the last page, and the middle page when there are more than five |
| Chat.KeyPagesOfLongDocument | extension-init.js:739-742 | on the documents that reach the summary, the key pages are three distinct pages of the document |
| Chat.SplitSentences | extension-init.js:757 | at least one piece; no piece holds a stop character; a text starting with a stop gives an empty first piece |
| Chat.FirstFitting | extension-init.js:757-759 | the index of the first piece whose trimmed length is between 16 and 99, and no earlier piece fits |
| Chat.FirstSentence | extension-init.js:755-763 | the sentence a page contributes is between 16 and 99 characters and holds no stop character |
| Chat.BlankPageHasNoSentence | extension-init.js:755 | a blank page contributes no sentence |
| Chat.CreateIntelligentSummary | extension-init.js:735-781 | with a document in the viewer, the header, one line per key page that has a fitting sentence, and the footer, and the document and its count are saved; without one, a fixed text and nothing saved |
| Chat.SpecificPageContent | extension-init.js:1076-1103 | `null` iff nothing was saved; an error iff the page is outside the saved count; for an existing page, the extraction error iff its text cannot be read, the no-text answer iff it is blank, and otherwise exactly its text |
| Chat.SavedAfterContext | extension-init.js:705-712 | the saved document changes only on the summary path with a document in the viewer, and then it is that document with the page count |
| Chat.PageQuestionsUnansweredAsWritten | extension-init.js:1076-1079 | as written, the page count read after a load keeps the chat off the summary path, so the saved document stays empty and every page question gets `null` |
| Chat.PageQuestionsAnsweredIntended | extension-init.js:1076-1085 | with the count read as intended, a long document in the viewer is saved and a question for one of its pages with readable text is answered with that text |
| Markdown.FirstTerminator | markdown-renderer.js:24 | the index of the first line terminator, where a `$` in multiline mode stops |
| Markdown.MapLinesOneLine | markdown-renderer.js:24 | on a single line, the multiline replacement is the line rule alone |
| Markdown.HeaderLevels | markdown-renderer.js:24-26 | a line `### x` becomes an `h3` and no other header; `## x` an `h2`; `# x` an `h1` |
| Markdown.FindClose | markdown-renderer.js:29 | the lazy `(.*?)` stops at the nearest closing delimiter before any line terminator; none is reported only when no delimiter precedes the line end |
| Markdown.EmphasisAbsent | markdown-renderer.js:29-37 | a text without the delimiter's first character is left alone |
| Markdown.EmphasisPair | markdown-renderer.js:29-37 | a delimiter, one-line text free of it, and the delimiter again become one element holding the text |
| Markdown.EmptyPair | markdown-renderer.js:33 | two delimiters in a row are an empty element |
| Markdown.EmphasisSkip | markdown-renderer.js:29-37 | text free of the delimiter is copied unchanged up to the rest |
| Markdown.LinkAt | markdown-renderer.js:40 | a match is `[text](href)` with non-empty text free of ']' and non-empty href free of ')' |
| Markdown.LinksAbsent | markdown-renderer.js:40 | a text without `[` holds no link and is left alone |
| Markdown.InlineAbsent | markdown-renderer.js:29-40 | the inline passes leave plain text alone |
| Markdown.BoldBeforeItalic | markdown-renderer.js:28-33 | because bold runs first, `**x**` becomes strong text |
| Markdown.ItalicFirstWouldSplitBold | markdown-renderer.js:28-33 | had italic run first, `**x**` would have become two empty emphases around `x` |
| Markdown.FirstOccurrence | markdown-renderer.js:48 | the first index of the pattern, and none only when it occurs nowhere |
| Markdown.LastOccurrence | markdown-renderer.js:48 | the last index of the pattern, and none only when it occurs nowhere |
| Markdown.ListBlockSpan | markdown-renderer.js:48-53 | the greedy match runs from the first `<li>` to the last `</li>`, and it is wrapped in `<ul>…</ul>` exactly when it holds no `<ul>` yet |
| Markdown.ListBlockAt | markdown-renderer.js:48-53 | once both ends are found, the wrap is applied to the span between them |
| Markdown.ListBlockNoItem | markdown-renderer.js:48 | without a `</li>` after a `<li>`, nothing is wrapped |
| Markdown.LineBreaks | markdown-renderer.js:56-57 | no newline survives the line-break passes |
| Markdown.ReplaceAllKeepsAbsent | markdown-renderer.js:65-66 | a replacement that brings in no character `c` leaves a string without `c` still without it |
| Markdown.ReplaceAllNowhere | markdown-renderer.js:65-66 | a string in which the pattern never occurs is left alone |
| Markdown.RenderMarkdown | markdown-renderer.js:16-69 | a missing, non-string or empty input renders as the empty string, and the output holds no newline |
| Markdown.PassesKeepPlain | markdown-renderer.js:24-57 | every pass before the paragraph wrap leaves plain text alone |
| Markdown.ParagraphCleanup | markdown-renderer.js:64-66 | a paragraph of plain text holds no empty paragraph to remove |
| Markdown.PlainTextIsParagraph | markdown-renderer.js:16-69 | one line of plain text renders as one paragraph holding exactly that text |
| Markdown.HeaderPassesOn | markdown-renderer.js:28-57 | an `h3` header of plain text meets none of the passes after the header passes |
| Markdown.HeaderCleanup | markdown-renderer.js:64-66 | an `h3` header holds no empty paragraph |
| Markdown.HeaderIsNotWrapped | markdown-renderer.js:16-69 | a `### x` line renders as an `h3` header, which keeps the paragraph wrap away |
| Markdown.WithStyles | markdown-renderer.js:166-169 | afterwards the head holds the style element; its count stays as it was when already present and is one otherwise; other elements are unchanged and the old head is a prefix of the new one |
| Markdown.WithStylesIdempotent | markdown-renderer.js:166-169 | inserting twice is inserting once |
| Markdown.WithStylesAtMostOnce | markdown-renderer.js:166-169 | a head holding at most one such element holds exactly one afterwards |
| Markdown.AddMarkdownStyles | markdown-renderer.js:83-170 | the element's inline style gains the renderer's declarations, its content is untouched, and the head gets the style element once |
| Markdown.RenderToElement | markdown-renderer.js:72-80 | nothing happens without an element; otherwise its content is the rendered HTML and the styles are added |

## Left out

- background.js is not part of this model: it only answers a runtime ping message.
- The network, files and parsers (`fetch`, XHR, iframe loads, `pdfjsLib.getDocument`, `URL.createObjectURL`, `CreateMLCEngine`) appear only as their outcomes, which are given as inputs.
- `new URL(u).pathname` is an input function: the model does not implement WHATWG URL parsing.
- `history.replaceState` and `location.replace` become the new query and a returned `Navigation` value.
- Timers, `DOMContentLoaded` and promise scheduling become steps or input sequences (one entry per tick).
- Three pollers retry without bound in the source: `checkPDFJS`, `tryLoadPDF` and the body wait in `createAutoSelector`. The models stop when their input sequence runs out.
- `forceLoadPDF` of the post-load script reschedules itself without a viewer. The model returns `RetryIn100ms` for that step instead of looping.
- The `MutationObserver` of `interceptPDF`, the link-click listener and the `dragover` handler of the content script are not modelled. They only re-run `getPDFURL`/`redirectToPDFJS`, or cancel the default action.
- Floating point is not modelled: the WebLLM progress mapping, the canvas scale of the fallback renderer, and the selection-button placement. `RenderAllPages` records only that the first page was drawn.
- The chat's UI and prompts are not modelled: message DOM, typing indicator, `processWithWebLLM`, `createIntelligentPrompt` and the title/page lines of `getPDFContext`. Only the text extraction, the truncation, the strategy choice, the summary and the page questions are.
- `generateContentAwareResponse` and the helpers under it are not modelled: no live path calls them.
- `loadViaDynamicImport` (the CDN route of the WebLLM loader) and the inference itself are not modelled.
- `setupFetchInterception`, `setupMinimalEnhancements`, `setupTextSelection`, `setupErrorHandling`, `addOpenFileButton` and `interceptAppOptions` of the initialisation script are not modelled: they are DOM wiring or thin wrappers over browser calls.
- The second path of `extractPDFText`, which reads the rendered text layers when no document is in the viewer, is not modelled.
- The popups' markup and CSS are not modelled, only whether overlay and message are attached. Of the renderer's head style sheet only its id is modelled, not its CSS text.
- InitLoading.InjectLocal: treats the page viewer's `setDocument` as returning. `forceLoadLocalPDF` and method 3 of `forceDirectLocalLoad` call it outside a `try`; a throw there would reach the load's `catch` (the selector fallback, or method 4) after the document is assigned.
- BypassValidation.Console.Error and Chat.ContentPart: both cut by characters (Unicode scalar values). `substring(0, 100)` and `substring(0, 800)` count UTF-16 code units, so for text with characters outside the Basic Multilingual Plane the source cuts earlier, possibly inside a surrogate pair.
- Common.ToLower: maps only the ASCII letters, while `toLowerCase` maps every Unicode letter. The model compares against ".pdf" and "application/pdf", which are ASCII.
- Chat.Trim: treats only space, tab, line feed and carriage return as whitespace, a subset of what `String.prototype.trim` and `parseInt` skip.
- Uri.FormDecodeEncoded: `URLSearchParams` decoding is modelled only where the text came from `encodeURIComponent`; for a malformed escape the model keeps the text as it was.
- Markdown.RenderMarkdown: its regular expressions are modelled by the passes they perform on the texts the lemmas describe. The `i` flag changes nothing because the patterns hold no letters. Nested or overlapping markup beyond these lemmas is not characterised.

## Findings

| source | as written | input that shows it | evidently intended | confidence | as-written member | corrected member |
|---|---|---|---|---|---|---|
| content-script.js:133-135 with extension-init.js:348 | the content script encodes the web address once, `URLSearchParams` decodes it, and `configureDefaultURL` decodes it a second time | a web address `http://h/a%25b.pdf` (a file named `a%b.pdf`) is configured as `http://h/a%b.pdf`, a different address | the `file` parameter, as `URLSearchParams` returns it, is the address to load | high (not executed) | ContentScript.WebAddressDecodedTwice | ContentScript.WebAddressIntended |
| content-script.js:118 with extension-init.js:287-299 and 2150 | a local file's name is encoded once, decoded by `URLSearchParams`, decoded again for the title inside a `try`, and once more by the picker the `catch` falls back to | the local file `file:///d/100%25.pdf` (named `100%.pdf`) on a page mentioning PDF: the title decode throws after the file URL is stored, the picker's decode throws again, and `configureDefaultURL` rejects with no load scheduled | the name is used as read, titles the page, and the local file is loaded | high (not executed) | ContentScript.LocalPercentNameRejects | ContentScript.LocalFileIntended |
| content-script.js:300 with extension-init.js:257-258 | a dropped file's name is encoded once, decoded by `URLSearchParams`, then passed to `decodeURIComponent` again for the title | dropping a file named `100%.pdf`: the second decode throws after the blob URL is stored, the promise rejects and no load is scheduled | the name is used as read, titles the page, and the blob is loaded | high (not executed) | ContentScript.DroppedPercentNameRejects | ContentScript.DroppedFileIntended |
| extension-init.js:693,708 with direct-loader.js:141-157 | `parseInt` is applied to the page-count text, which `updatePDFViewer` sets to `de N` | any loaded document, for example with 20 pages: `parseInt("de 20")` is `NaN`, so the summary path and page questions are never reached | the number after `de ` is the page count | high (not executed) | Chat.PageCountLostAfterLoad | Chat.PageCountIntendedAfterLoad |
