/**
 * The content script that runs in every page: it decides whether the page is
 * (or embeds) a PDF, and if so replaces the page with the extension's viewer,
 * passing the document's address, or for local files a blob URL or the
 * original `file://` address, in the viewer's query string.
 *
 * What the script reads from the page (its address, the content type, the
 * title, the first PDF embed and object, the iframes) is a `HostPage` value.
 * `location.replace` is the returned `Navigation`; the outcome of `fetch`
 * and the URL `URL.createObjectURL` makes are inputs.
 */
module ContentScript {
  import opened Common
  import opened Uri
  import opened InitConfigure

  const PdfMime := "application/pdf"
  const DefaultFileName := "document.pdf"

  /** What the script can see of the page it runs in. */
  datatype HostPage = HostPage(
    href: string,
    // `content` of `meta[http-equiv="content-type"]`; None when there is no such element
    metaContentType: Option<string>,
    // `document.contentType`
    contentType: string,
    title: string,
    // `src` of the first `embed[type="application/pdf"]`; None when there is none
    pdfEmbedSrc: Option<string>,
    // `data` of the first `object[type="application/pdf"]`; None when there is none
    pdfObjectData: Option<string>,
    // `src` of every iframe, in document order ("" for an iframe without one)
    iframeSrcs: seq<string>,
    // `src || data` of the first embed or object typed application/pdf; None when there is none
    firstPdfElement: Option<string>,
    // an `embed[src*=".pdf"]` or an `object[data*=".pdf"]` exists
    hasPdfLinkedElement: bool,
    // `document.body.innerHTML` contains "PDF"
    bodyMentionsPDF: bool)

  // ---------------------------------------------------------------------------
  // isPDFURL

  /** The lower-cased address contains ".pdf". */
  predicate MentionsPdf(url: string) {
    Contains(ToLower(url), ".pdf")
  }

  /** A content-type meta tag whose value, lower-cased, contains "application/pdf". */
  predicate MetaDeclaresPdf(p: HostPage) {
    Truthy(p.metaContentType) && Contains(ToLower(p.metaContentType.value), PdfMime)
  }

  /**
   * `isPDFURL(url)`: an empty address is never a PDF; otherwise ".pdf" in the
   * address, then the page's meta tag, then the page's own content type.
   */
  function IsPDFURL(url: string, p: HostPage): (r: bool)
    ensures url == "" ==> !r
    ensures url != "" && MentionsPdf(url) ==> r
    ensures url != "" && !MentionsPdf(url) ==> (r <==> MetaDeclaresPdf(p) || p.contentType == PdfMime)
  {
    if url == "" then false
    else if MentionsPdf(url) then true
    else if MetaDeclaresPdf(p) then true
    else p.contentType == PdfMime
  }

  lemma {:induction false} ToLowerIdempotent(s: string)
    ensures ToLower(ToLower(s)) == ToLower(s)
  {
    var t := ToLower(s);
    assert forall i :: 0 <= i < |s| ==> ToLower(t)[i] == t[i];
    assert ToLower(t) == t;
  }

  /** The address test ignores letter case: an address and its lower-cased form are judged alike. */
  lemma IsPDFURLIgnoresCase(url: string, p: HostPage)
    ensures IsPDFURL(ToLower(url), p) == IsPDFURL(url, p)
  {
    ToLowerIdempotent(url);
    assert url == "" <==> ToLower(url) == "";
  }

  /**
   * The page checks do not look at the address: on a page declared as a PDF
   * (by its content type or a meta tag) every non-empty address counts as a
   * PDF, which is why every link click on such a page is redirected.
   */
  lemma DeclaredPdfPageClaimsEveryURL(p: HostPage, url: string)
    requires MetaDeclaresPdf(p) || p.contentType == PdfMime
    ensures IsPDFURL(url, p) <==> url != ""
  {
  }

  // ---------------------------------------------------------------------------
  // getPDFURL

  /** Where `getPDFURL` found the document. */
  datatype Source = PageAddress | PdfEmbed | PdfObject | Iframe(index: nat)

  datatype Found = Found(url: string, source: Source)

  /** An iframe source the fourth rule accepts. */
  predicate PdfIframe(src: string, p: HostPage) {
    src != "" && IsPDFURL(src, p)
  }

  /** The index of the first iframe from `i` on whose source the fourth rule accepts. */
  function FirstPdfIframe(srcs: seq<string>, p: HostPage, i: nat): (k: Option<nat>)
    requires i <= |srcs|
    ensures k.Some? ==>
      i <= k.value < |srcs| && PdfIframe(srcs[k.value], p) &&
      forall j :: i <= j < k.value ==> !PdfIframe(srcs[j], p)
    ensures k.None? ==> forall j :: i <= j < |srcs| ==> !PdfIframe(srcs[j], p)
    decreases |srcs| - i
  {
    if i == |srcs| then None
    else if PdfIframe(srcs[i], p) then Some(i)
    else FirstPdfIframe(srcs, p, i + 1)
  }

  /**
   * What `getPDFURL()` finds: the page address, then the PDF embed, then the
   * PDF object, then the first iframe showing a PDF; nothing otherwise.
   */
  function PDFURLOf(p: HostPage): (r: Option<Found>)
    ensures IsPDFURL(p.href, p) ==> r == Some(Found(p.href, PageAddress))
    ensures !IsPDFURL(p.href, p) && Truthy(p.pdfEmbedSrc) ==> r == Some(Found(p.pdfEmbedSrc.value, PdfEmbed))
    ensures !IsPDFURL(p.href, p) && !Truthy(p.pdfEmbedSrc) && Truthy(p.pdfObjectData) ==>
      r == Some(Found(p.pdfObjectData.value, PdfObject))
    ensures r.Some? && r.value.source.Iframe? ==>
      var k := r.value.source.index;
      !IsPDFURL(p.href, p) && !Truthy(p.pdfEmbedSrc) && !Truthy(p.pdfObjectData) &&
      k < |p.iframeSrcs| && PdfIframe(p.iframeSrcs[k], p) && r.value.url == p.iframeSrcs[k] &&
      forall j :: 0 <= j < k ==> !PdfIframe(p.iframeSrcs[j], p)
    ensures r.None? <==>
      !IsPDFURL(p.href, p) && !Truthy(p.pdfEmbedSrc) && !Truthy(p.pdfObjectData) &&
      forall j :: 0 <= j < |p.iframeSrcs| ==> !PdfIframe(p.iframeSrcs[j], p)
    ensures r.Some? ==> r.value.url != ""
  {
    if IsPDFURL(p.href, p) then Some(Found(p.href, PageAddress))
    else if Truthy(p.pdfEmbedSrc) then Some(Found(p.pdfEmbedSrc.value, PdfEmbed))
    else if Truthy(p.pdfObjectData) then Some(Found(p.pdfObjectData.value, PdfObject))
    else
      match FirstPdfIframe(p.iframeSrcs, p, 0)
      case Some(k) => Some(Found(p.iframeSrcs[k], Iframe(k)))
      case None => None
  }

  /** `getPDFURL()`, scanning the iframes in order. */
  method GetPDFURL(p: HostPage) returns (r: Option<Found>)
    ensures r == PDFURLOf(p)
  {
    if IsPDFURL(p.href, p) {
      return Some(Found(p.href, PageAddress));
    }
    if Truthy(p.pdfEmbedSrc) {
      return Some(Found(p.pdfEmbedSrc.value, PdfEmbed));
    }
    if Truthy(p.pdfObjectData) {
      return Some(Found(p.pdfObjectData.value, PdfObject));
    }
    var i := 0;
    while i < |p.iframeSrcs|
      invariant 0 <= i <= |p.iframeSrcs|
      invariant FirstPdfIframe(p.iframeSrcs, p, i) == FirstPdfIframe(p.iframeSrcs, p, 0)
    {
      var src := p.iframeSrcs[i];
      if src != "" && IsPDFURL(src, p) {
        return Some(Found(src, Iframe(i)));
      }
      i := i + 1;
    }
    return None;
  }

  // ---------------------------------------------------------------------------
  // redirectToPDFJS

  /** What the script does to the tab. */
  datatype Navigation =
    | Stay                 // nothing happens
    | Threw                // `decodeURIComponent` threw; the page stays
    | Replace(url: string) // `location.replace(url)`

  predicate IsFileURL(url: string) {
    IsPrefix("file://", url)
  }

  /** The file name of a decoded local address: its last segment, or "document.pdf". */
  function LocalFileName(decoded: string): string {
    OrElse(Some(LastSegment(decoded)), DefaultFileName)
  }

  /** The viewer address carrying `pairs` as its query string. */
  function ViewerURL(ext: string, pairs: seq<(string, string)>): string
    requires |pairs| > 0
  {
    ext + "?" + BuildQuery(pairs)
  }

  /**
   * The parameters a local address is sent with: a blob fetched from a page
   * with a PDF element, else the original file, flagged `forceLocal` when the
   * page mentions "PDF" and `autoLocalSelect` otherwise.
   */
  function LocalPairs(pdfURL: string, name: string, p: HostPage, fetched: Option<string>): (pairs: seq<(string, string)>)
    ensures |pairs| == 3 && pairs[1] == ("fileName", name)
  {
    if p.hasPdfLinkedElement && fetched.Some? then
      [("autoLoad", "true"), ("fileName", name), ("blobURL", fetched.value)]
    else if p.bodyMentionsPDF then
      [("forceLocal", "true"), ("fileName", name), ("originalFile", pdfURL)]
    else
      [("autoLocalSelect", "true"), ("fileName", name), ("originalFile", pdfURL)]
  }

  /**
   * The template the script fills for a local file: a flag set to `true`,
   * the file name, and one more parameter.
   */
  function FlaggedURL(ext: string, flag: string, name: string, key: string, value: string): string {
    ext + "?" + flag + "=true&fileName=" + EncodeURIComponent(name) + "&" + key + "=" + EncodeURIComponent(value)
  }

  lemma Reassociate(x: string, q: string, p0: string, f: string, e2: string, g: string, e3: string)
    ensures x + (q + p0 + "&" + f) + e2 + ("&" + g) + e3 == x + q + (p0 + "&" + ((f + e2) + "&" + (g + e3)))
  {
  }

  /** A three-parameter viewer address, given its literal parts `lit1` and `lit2`. */
  lemma ThreeParamURL(ext: string, flag: string, n2: string, v2: string, n3: string, v3: string,
                      lit1: string, lit2: string)
    requires lit1 == "?" + (flag + "=" + "true") + "&" + (n2 + "=")
    requires lit2 == "&" + (n3 + "=")
    ensures ViewerURL(ext, [(flag, "true"), (n2, v2), (n3, v3)]) ==
      ext + lit1 + EncodeURIComponent(v2) + lit2 + EncodeURIComponent(v3)
  {
    var ps := [(flag, "true"), (n2, v2), (n3, v3)];
    assert ps[1..] == [(n2, v2), (n3, v3)];
    assert ps[1..][1..] == [(n3, v3)];
    assert forall i :: 0 <= i < |"true"| ==> Unreserved("true"[i]);
    EncodeUnreserved("true");
    assert Piece(ps[0]) == flag + "=" + "true";
    assert BuildQuery(ps[1..][1..]) == n3 + "=" + EncodeURIComponent(v3);
    assert BuildQuery(ps[1..]) == n2 + "=" + EncodeURIComponent(v2) + "&" + BuildQuery(ps[1..][1..]);
    assert BuildQuery(ps) == Piece(ps[0]) + "&" + BuildQuery(ps[1..]);
    Reassociate(ext, "?", flag + "=" + "true", n2 + "=", EncodeURIComponent(v2), n3 + "=", EncodeURIComponent(v3));
  }

  /** The head of the template, split at its parameter names. */
  lemma FlagLiteral(flag: string, lit: string)
    requires lit == "?" + flag + "=true&fileName="
    ensures lit == "?" + (flag + "=" + "true") + "&" + ("fileName" + "=")
  {
    assert "=true&fileName=" == "=" + "true" + "&" + "fileName" + "=";
  }

  /** The template spells out the viewer address of the three parameters. */
  lemma FlaggedQuery(ext: string, flag: string, name: string, key: string, value: string)
    ensures FlaggedURL(ext, flag, name, key, value) ==
      ViewerURL(ext, [(flag, "true"), ("fileName", name), (key, value)])
  {
    var lit1, lit2 := "?" + flag + "=true&fileName=", "&" + key + "=";
    FlagLiteral(flag, lit1);
    ThreeParamURL(ext, flag, "fileName", name, key, value, lit1, lit2);
    Regroup(ext, "?", flag, "=true&fileName=", EncodeURIComponent(name), "&", key, "=", EncodeURIComponent(value));
  }

  lemma Regroup(x: string, a: string, b: string, c: string, e1: string, d: string, k: string, f: string, e2: string)
    ensures x + a + b + c + e1 + d + k + f + e2 == x + (a + b + c) + e1 + (d + k + f) + e2
  {
  }

  /**
   * `redirectToPDFJS(pdfURL)`. `fetched` is the blob URL made from a
   * successful `fetch` of a local file, None when the fetch or the blob
   * failed; the script only fetches when the page has a PDF element.
   */
  function RedirectToPDFJS(pdfURL: string, p: HostPage, fetched: Option<string>, ext: string): (r: Navigation)
    ensures r == Stay <==> pdfURL == ""
    ensures r == Threw <==> pdfURL != "" && IsFileURL(pdfURL) && DecodeURIComponent(pdfURL).None?
  {
    if pdfURL == "" then Stay
    else if IsFileURL(pdfURL) then
      match DecodeURIComponent(pdfURL)
      case None => Threw
      case Some(decoded) =>
        var fileName := LocalFileName(decoded);
        if p.hasPdfLinkedElement && fetched.Some? then
          Replace(FlaggedURL(ext, "autoLoad", fileName, "blobURL", fetched.value))
        else if p.bodyMentionsPDF then
          Replace(FlaggedURL(ext, "forceLocal", fileName, "originalFile", pdfURL))
        else
          Replace(FlaggedURL(ext, "autoLocalSelect", fileName, "originalFile", pdfURL))
    else
      Replace(ext + "?file=" + EncodeURIComponent(pdfURL))
  }

  /**
   * The addresses the script spells out are viewer addresses built from
   * parameter lists: `file` for a web address, and for a local one the
   * flag, the file name and the blob or original file of `LocalPairs`.
   */
  lemma RedirectBuildsQuery(pdfURL: string, p: HostPage, fetched: Option<string>, ext: string)
    ensures pdfURL != "" && !IsFileURL(pdfURL) ==>
      RedirectToPDFJS(pdfURL, p, fetched, ext) == Replace(ViewerURL(ext, [("file", pdfURL)]))
    ensures IsFileURL(pdfURL) && DecodeURIComponent(pdfURL).Some? ==>
      var name := LocalFileName(DecodeURIComponent(pdfURL).value);
      RedirectToPDFJS(pdfURL, p, fetched, ext) == Replace(ViewerURL(ext, LocalPairs(pdfURL, name, p, fetched)))
  {
    if pdfURL != "" && !IsFileURL(pdfURL) {
      assert ext + "?file=" + EncodeURIComponent(pdfURL) == ext + "?" + ("file" + "=" + EncodeURIComponent(pdfURL));
    } else if IsFileURL(pdfURL) && DecodeURIComponent(pdfURL).Some? {
      LocalRedirect(pdfURL, LocalFileName(DecodeURIComponent(pdfURL).value), p, fetched, ext);
    }
  }

  lemma LocalRedirect(pdfURL: string, name: string, p: HostPage, fetched: Option<string>, ext: string)
    requires IsFileURL(pdfURL) && DecodeURIComponent(pdfURL).Some?
    requires name == LocalFileName(DecodeURIComponent(pdfURL).value)
    ensures RedirectToPDFJS(pdfURL, p, fetched, ext) == Replace(ViewerURL(ext, LocalPairs(pdfURL, name, p, fetched)))
  {
    if p.hasPdfLinkedElement && fetched.Some? {
      FlaggedQuery(ext, "autoLoad", name, "blobURL", fetched.value);
    } else if p.bodyMentionsPDF {
      FlaggedQuery(ext, "forceLocal", name, "originalFile", pdfURL);
    } else {
      FlaggedQuery(ext, "autoLocalSelect", name, "originalFile", pdfURL);
    }
  }

  // ---------------------------------------------------------------------------
  // What the viewer reads back

  /** The query the viewer page sees after a redirect built from `pairs`. */
  function ViewerQuery(pairs: seq<(string, string)>): Query
    requires |pairs| > 0
  {
    ParseQuery("?" + BuildQuery(pairs))
  }

  /** The parameter names the scripts write need no escaping. */
  lemma NamesArePlain()
    ensures PlainName("file") && PlainName("fileName") && PlainName("autoLoad") && PlainName("blobURL")
    ensures PlainName("forceLocal") && PlainName("originalFile") && PlainName("autoLocalSelect")
  {
    assert forall i :: 0 <= i < |"file"| ==> Unreserved("file"[i]);
    assert forall i :: 0 <= i < |"fileName"| ==> Unreserved("fileName"[i]);
    assert forall i :: 0 <= i < |"autoLoad"| ==> Unreserved("autoLoad"[i]);
    assert forall i :: 0 <= i < |"blobURL"| ==> Unreserved("blobURL"[i]);
    assert forall i :: 0 <= i < |"forceLocal"| ==> Unreserved("forceLocal"[i]);
    assert forall i :: 0 <= i < |"originalFile"| ==> Unreserved("originalFile"[i]);
    assert forall i :: 0 <= i < |"autoLocalSelect"| ==> Unreserved("autoLocalSelect"[i]);
  }

  /** The parameters of a query holding only `file`. */
  lemma FileOnlyParams(u: string)
    ensures GetURLParams([("file", u)]).file == Some(u)
    ensures SelectMode(GetURLParams([("file", u)])) == NormalFile
  {
    var q := [("file", u)];
    assert Lookup(q, "openLocal") == None && Lookup(q, "originalFile") == None;
    assert Lookup(q, "autoLoad") == None && Lookup(q, "fileName") == None && Lookup(q, "blobURL") == None;
    assert Lookup(q, "forceLocal") == None && Lookup(q, "autoLocalSelect") == None;
  }

  /** `get` on a query of three entries. */
  lemma LookupThree(q: Query, n: string)
    requires |q| == 3
    ensures Lookup(q, n) ==
      if q[0].0 == n then Some(q[0].1) else if q[1].0 == n then Some(q[1].1)
      else if q[2].0 == n then Some(q[2].1) else None
  {
    var q1 := q[1..];
    var q2 := q1[1..];
    assert q1[0] == q[1] && q2[0] == q[2] && q2[1..] == [];
    if q[0].0 != n {
      assert Lookup(q, n) == Lookup(q1, n);
      if q[1].0 != n {
        assert Lookup(q1, n) == Lookup(q2, n);
      }
    }
  }

  /** The parameters of an `autoLoad` address. */
  lemma AutoLoadParams(name: string, value: string)
    ensures GetURLParams([("autoLoad", "true"), ("fileName", name), ("blobURL", value)]) ==
      Params(None, None, None, Some("true"), Some(name), Some(value), None, None)
  {
    var q := [("autoLoad", "true"), ("fileName", name), ("blobURL", value)];
    assert q[1..] == [("fileName", name), ("blobURL", value)] && q[1..][1..] == [("blobURL", value)];
    LookupThree(q, "file");
    assert Lookup(q, "file") == None;
    LookupThree(q, "openLocal");
    assert Lookup(q, "openLocal") == None;
    LookupThree(q, "originalFile");
    assert Lookup(q, "originalFile") == None;
    LookupThree(q, "autoLoad");
    assert Lookup(q, "autoLoad") == Some("true");
    LookupThree(q, "fileName");
    assert Lookup(q, "fileName") == Some(name);
    LookupThree(q, "blobURL");
    assert Lookup(q, "blobURL") == Some(value);
    LookupThree(q, "forceLocal");
    assert Lookup(q, "forceLocal") == None;
    LookupThree(q, "autoLocalSelect");
    assert Lookup(q, "autoLocalSelect") == None;
  }

  /** The parameters of a `forceLocal` address. */
  lemma ForceLocalParams(name: string, value: string)
    ensures GetURLParams([("forceLocal", "true"), ("fileName", name), ("originalFile", value)]) ==
      Params(None, None, Some(value), None, Some(name), None, Some("true"), None)
  {
    var q := [("forceLocal", "true"), ("fileName", name), ("originalFile", value)];
    assert q[1..] == [("fileName", name), ("originalFile", value)] && q[1..][1..] == [("originalFile", value)];
    LookupThree(q, "file");
    assert Lookup(q, "file") == None;
    LookupThree(q, "openLocal");
    assert Lookup(q, "openLocal") == None;
    LookupThree(q, "originalFile");
    assert Lookup(q, "originalFile") == Some(value);
    LookupThree(q, "autoLoad");
    assert Lookup(q, "autoLoad") == None;
    LookupThree(q, "fileName");
    assert Lookup(q, "fileName") == Some(name);
    LookupThree(q, "blobURL");
    assert Lookup(q, "blobURL") == None;
    LookupThree(q, "forceLocal");
    assert Lookup(q, "forceLocal") == Some("true");
    LookupThree(q, "autoLocalSelect");
    assert Lookup(q, "autoLocalSelect") == None;
  }

  /** The parameters of an `autoLocalSelect` address. */
  lemma AutoLocalSelectParams(name: string, value: string)
    ensures GetURLParams([("autoLocalSelect", "true"), ("fileName", name), ("originalFile", value)]) ==
      Params(None, None, Some(value), None, Some(name), None, None, Some("true"))
  {
    var q := [("autoLocalSelect", "true"), ("fileName", name), ("originalFile", value)];
    assert q[1..] == [("fileName", name), ("originalFile", value)] && q[1..][1..] == [("originalFile", value)];
    LookupThree(q, "file");
    assert Lookup(q, "file") == None;
    LookupThree(q, "openLocal");
    assert Lookup(q, "openLocal") == None;
    LookupThree(q, "originalFile");
    assert Lookup(q, "originalFile") == Some(value);
    LookupThree(q, "autoLoad");
    assert Lookup(q, "autoLoad") == None;
    LookupThree(q, "fileName");
    assert Lookup(q, "fileName") == Some(name);
    LookupThree(q, "blobURL");
    assert Lookup(q, "blobURL") == None;
    LookupThree(q, "forceLocal");
    assert Lookup(q, "forceLocal") == None;
    LookupThree(q, "autoLocalSelect");
    assert Lookup(q, "autoLocalSelect") == Some("true");
  }

  /** A web address reaches the viewer as its `file` parameter, and no mode flag is set. */
  lemma WebRedirectSelectsFile(pdfURL: string)
    ensures ViewerQuery([("file", pdfURL)]) == [("file", pdfURL)]
    ensures var params := GetURLParams(ViewerQuery([("file", pdfURL)]));
      params.file == Some(pdfURL) && SelectMode(params) == NormalFile
  {
    NamesArePlain();
    ParseBuildQuery([("file", pdfURL)]);
    FileOnlyParams(pdfURL);
  }

  /**
   * The route the script chooses for a local file is the mode the viewer
   * selects: a fetched blob is `autoLoad` with the blob, a page mentioning
   * "PDF" is `forceLocal` with the original file, and any other page is
   * `autoLocalSelect`; the file name always arrives unchanged.
   */
  lemma LocalRedirectSelectsMode(pdfURL: string, name: string, p: HostPage, fetched: Option<string>)
    requires IsFileURL(pdfURL)
    ensures var params := GetURLParams(ViewerQuery(LocalPairs(pdfURL, name, p, fetched)));
      params.fileName == Some(name) &&
      (p.hasPdfLinkedElement && Truthy(fetched) ==>
        params.blobURL == fetched && SelectMode(params) == AutoLoadBlob) &&
      (!(p.hasPdfLinkedElement && fetched.Some?) && p.bodyMentionsPDF ==>
        params.originalFile == Some(pdfURL) && SelectMode(params) == ForceLocal) &&
      (!(p.hasPdfLinkedElement && fetched.Some?) && !p.bodyMentionsPDF ==>
        params.originalFile == Some(pdfURL) && SelectMode(params) == AutoLocalSelect)
  {
    var params := GetURLParams(ViewerQuery(LocalPairs(pdfURL, name, p, fetched)));
    LocalParams(pdfURL, name, p, fetched);
    assert pdfURL != "";
    if p.hasPdfLinkedElement && fetched.Some? {
      assert params.blobURL == fetched;
    } else if p.bodyMentionsPDF {
      assert SelectMode(params) == ForceLocal;
    } else {
      assert SelectMode(params) == AutoLocalSelect;
    }
  }

  /** The parameters the viewer reads back from a local-file redirect. */
  lemma LocalParams(pdfURL: string, name: string, p: HostPage, fetched: Option<string>)
    ensures GetURLParams(ViewerQuery(LocalPairs(pdfURL, name, p, fetched))) ==
      if p.hasPdfLinkedElement && fetched.Some? then
        Params(None, None, None, Some("true"), Some(name), fetched, None, None)
      else if p.bodyMentionsPDF then
        Params(None, None, Some(pdfURL), None, Some(name), None, Some("true"), None)
      else
        Params(None, None, Some(pdfURL), None, Some(name), None, None, Some("true"))
  {
    LocalQueryRoundTrip(pdfURL, name, p, fetched);
    if p.hasPdfLinkedElement && fetched.Some? {
      AutoLoadParams(name, fetched.value);
    } else if p.bodyMentionsPDF {
      ForceLocalParams(name, pdfURL);
    } else {
      AutoLocalSelectParams(name, pdfURL);
    }
  }

  /** The local-file parameters survive the trip through the viewer's address. */
  lemma LocalQueryRoundTrip(pdfURL: string, name: string, p: HostPage, fetched: Option<string>)
    ensures ViewerQuery(LocalPairs(pdfURL, name, p, fetched)) == LocalPairs(pdfURL, name, p, fetched)
  {
    var pairs := LocalPairs(pdfURL, name, p, fetched);
    NamesArePlain();
    ParseBuildQuery(pairs);
  }

  // ---------------------------------------------------------------------------
  // checkPDFByResponse and initializeInterception

  /** Why `checkPDFByResponse` decided the page is a PDF. */
  datatype Reason = AddressMentionsPdf | ContentTypeIsPdf | TitleMentionsPdf | PdfElement

  datatype Detection = Detection(reason: Reason, target: string)

  /**
   * `checkPDFByResponse()`: ".pdf" in the lower-cased address (its `endsWith`
   * test adds nothing to its `includes` test), then the content type, then
   * ".pdf" in the title, then the first PDF embed or object that has an
   * address. The first three redirect to the page's own address.
   */
  function CheckPDFByResponse(p: HostPage): (r: Option<Detection>)
    ensures r.Some? && r.value.reason != PdfElement ==> r.value.target == p.href
    ensures r.Some? && r.value.reason == PdfElement ==>
      Truthy(p.firstPdfElement) && r.value.target == p.firstPdfElement.value
    ensures (r.Some? && r.value.reason == AddressMentionsPdf) <==> MentionsPdf(p.href)
    ensures r.None? <==>
      !MentionsPdf(p.href) && p.contentType != PdfMime && !MentionsPdf(p.title) && !Truthy(p.firstPdfElement)
  {
    var lower := ToLower(p.href);
    assert EndsWith(lower, ".pdf") ==> Contains(lower, ".pdf") by {
      if EndsWith(lower, ".pdf") {
        EndsWithContains(lower, ".pdf");
      }
    }
    if EndsWith(lower, ".pdf") || Contains(lower, ".pdf") then
      Some(Detection(AddressMentionsPdf, p.href))
    else if p.contentType == PdfMime then Some(Detection(ContentTypeIsPdf, p.href))
    else if p.title != "" && Contains(ToLower(p.title), ".pdf") then Some(Detection(TitleMentionsPdf, p.href))
    else if Truthy(p.firstPdfElement) then Some(Detection(PdfElement, p.firstPdfElement.value))
    else None
  }

  /**
   * When `checkPDFByResponse` finds nothing, `getPDFURL` can still report
   * the page address, and then only because a meta tag declares the PDF type.
   */
  lemma AddressFoundOnlyByMeta(p: HostPage)
    requires CheckPDFByResponse(p).None?
    ensures IsPDFURL(p.href, p) <==> p.href != "" && MetaDeclaresPdf(p)
  {
  }

  /**
   * `initializeInterception()`: `checkPDFByResponse`, and when it finds
   * nothing, `interceptPDF`, which redirects to what `getPDFURL` finds or
   * else starts observing the page for elements added later.
   */
  method InitializeInterception(p: HostPage, fetched: Option<string>, ext: string)
    returns (nav: Navigation, observing: bool)
    ensures CheckPDFByResponse(p).Some? ==>
      !observing && nav == RedirectToPDFJS(CheckPDFByResponse(p).value.target, p, fetched, ext)
    ensures observing ==> nav == Stay && CheckPDFByResponse(p).None? && !IsPDFURL(p.href, p)
    ensures CheckPDFByResponse(p).None? && MetaDeclaresPdf(p) && p.href != "" ==>
      !observing && nav == RedirectToPDFJS(p.href, p, fetched, ext)
    ensures CheckPDFByResponse(p).None? ==> (observing <==> PDFURLOf(p).None?)
    ensures CheckPDFByResponse(p).None? && PDFURLOf(p).Some? ==>
      nav == RedirectToPDFJS(PDFURLOf(p).value.url, p, fetched, ext)
  {
    var detected := CheckPDFByResponse(p);
    if detected.Some? {
      return RedirectToPDFJS(detected.value.target, p, fetched, ext), false;
    }
    var found := GetPDFURL(p);
    if found.Some? {
      return RedirectToPDFJS(found.value.url, p, fetched, ext), false;
    }
    return Stay, true;
  }

  // ---------------------------------------------------------------------------
  // The drop handler

  /** A file of `dataTransfer.files`: its name and MIME type. */
  datatype DroppedFile = DroppedFile(name: string, mime: string)

  /** The drop filter: the PDF type, or a name ending in ".pdf" in any letter case. */
  predicate IsPdfFile(f: DroppedFile) {
    f.mime == PdfMime || EndsWith(ToLower(f.name), ".pdf")
  }

  /** `files.filter(...)`: the PDF files, in their order. */
  function PdfFiles(files: seq<DroppedFile>): (r: seq<DroppedFile>)
    ensures |r| <= |files|
    ensures forall i :: 0 <= i < |r| ==> IsPdfFile(r[i]) && r[i] in files
    ensures forall i :: 0 <= i < |files| && IsPdfFile(files[i]) ==> files[i] in r
  {
    if files == [] then []
    else if IsPdfFile(files[0]) then [files[0]] + PdfFiles(files[1..])
    else PdfFiles(files[1..])
  }

  /** The file the handler takes is the first dropped file that passes the filter. */
  lemma {:induction false} FirstPdfFile(files: seq<DroppedFile>, k: nat)
    requires k < |files| && IsPdfFile(files[k])
    requires forall j :: 0 <= j < k ==> !IsPdfFile(files[j])
    ensures |PdfFiles(files)| > 0 && PdfFiles(files)[0] == files[k]
  {
    if k > 0 {
      FirstPdfFile(files[1..], k - 1);
    }
  }

  /** The parameters of a dropped file's viewer address. */
  function DropPairs(name: string, blobURL: string): seq<(string, string)> {
    [("autoLoad", "true"), ("fileName", name), ("blobURL", blobURL)]
  }

  /** The page the content script runs in, with what the drop handler writes. */
  class ContentPage {
    var droppedPDFFile: Option<DroppedFile>
    var navigation: Navigation

    constructor ()
      ensures droppedPDFFile == None && navigation == Stay
    {
      droppedPDFFile := None;
      navigation := Stay;
    }

    /**
     * The `drop` listener. `files` is `dataTransfer.files` (None without a
     * `dataTransfer`); `blobURL` is what `URL.createObjectURL` returns for
     * the file taken. The result says whether the event was cancelled.
     */
    method OnDrop(files: Option<seq<DroppedFile>>, blobURL: string, ext: string) returns (handled: bool)
      modifies this
      ensures handled <==> files.Some? && |PdfFiles(files.value)| > 0
      ensures handled ==>
        var f := PdfFiles(files.value)[0];
        droppedPDFFile == Some(f) && navigation == Replace(FlaggedURL(ext, "autoLoad", f.name, "blobURL", blobURL))
      ensures !handled ==> droppedPDFFile == old(droppedPDFFile) && navigation == old(navigation)
    {
      if files.None? {
        return false;
      }
      var pdfFiles := PdfFiles(files.value);
      if |pdfFiles| == 0 {
        return false;
      }
      droppedPDFFile := Some(pdfFiles[0]);
      navigation := Replace(FlaggedURL(ext, "autoLoad", pdfFiles[0].name, "blobURL", blobURL));
      return true;
    }
  }

  /** A dropped PDF reaches the viewer in `autoLoad` mode with its blob and its name unchanged. */
  lemma DropSelectsAutoLoad(name: string, blobURL: string, ext: string)
    requires blobURL != ""
    ensures FlaggedURL(ext, "autoLoad", name, "blobURL", blobURL) == ViewerURL(ext, DropPairs(name, blobURL))
    ensures var params := GetURLParams(ViewerQuery(DropPairs(name, blobURL)));
      params.fileName == Some(name) && params.blobURL == Some(blobURL) && SelectMode(params) == AutoLoadBlob
  {
    FlaggedQuery(ext, "autoLoad", name, "blobURL", blobURL);
    NamesArePlain();
    ParseBuildQuery(DropPairs(name, blobURL));
    AutoLoadParams(name, blobURL);
  }

  // ---------------------------------------------------------------------------
  // Decoding twice across the hand-over

  /**
   * As written: a web address holding one `%25` escape (a name with a
   * literal '%') reaches the viewer's globals with that escape decoded, so
   * the viewer loads a different address.
   */
  lemma WebAddressDecodedTwice(a: string, b: string, g: Globals, pathnameOf: string -> Option<string>, bodyPresent: bool)
    requires '%' !in a && '%' !in b
    requires g.query == ViewerQuery([("file", a + "%25" + b)])
    requires pathnameOf(a + "%" + b).Some?
    ensures var (g2, r) := Configure(g, pathnameOf, true, bodyPresent);
      r == Resolved(true, NoFollowUp) && g2.fileURL == Some(a + "%" + b) && g2.fileURL != Some(a + "%25" + b)
  {
    var u := a + "%25" + b;
    WebRedirectSelectsFile(u);
    DecodeOnePercent(a, b);
    assert |a + "%" + b| != |u|;
  }

  /** Corrected: read once, the `file` parameter is exactly the address the content script sent. */
  lemma WebAddressIntended(u: string, g: Globals, pathnameOf: string -> Option<string>, bodyPresent: bool)
    requires u != "" && g.query == ViewerQuery([("file", u)])
    requires pathnameOf(u).Some?
    ensures var (g2, r) := Configure(g, pathnameOf, false, bodyPresent);
      r == Resolved(true, NoFollowUp) && g2.fileURL == Some(u) && g2.originalURL == Some(u) &&
      g2.appOptions == SetDefaultUrl(g.appOptions, u) && g2.title == PathTitle(pathnameOf(u).value)
  {
    WebRedirectSelectsFile(u);
  }

  /**
   * As written: a dropped file whose name holds a '%' that does not start
   * an escape (such as "100%.pdf") makes `configureDefaultURL` reject after
   * the blob URL is stored, so the load is never scheduled.
   */
  lemma DroppedPercentNameRejects(a: string, b: string, blobURL: string, g: Globals, pathnameOf: string -> Option<string>, bodyPresent: bool)
    requires '%' !in a && (|b| < 2 || HexValue(b[0]).None? || HexValue(b[1]).None?)
    requires blobURL != "" && '%' !in blobURL
    requires g.query == ViewerQuery(DropPairs(a + "%" + b, blobURL))
    ensures var (g2, r) := Configure(g, pathnameOf, true, bodyPresent);
      r == Rejected && g2.fileURL == Some(blobURL)
  {
    DropSelectsAutoLoad(a + "%" + b, blobURL, "");
    DecodePlain(blobURL);
    DecodeBarePercent(a, b);
  }

  /**
   * As written: a local file sent in `forceLocal` mode whose name holds a '%'
   * that does not start an escape (the file `100%25.pdf`, named "100%.pdf")
   * stores the decoded address, then the name's decode throws; the picker
   * the `catch` hands over to decodes the same name again while the body
   * exists, so `configureDefaultURL` rejects.
   */
  lemma LocalPercentNameRejects(pdfURL: string, a: string, b: string, p: HostPage, g: Globals,
                                pathnameOf: string -> Option<string>)
    requires IsFileURL(pdfURL) && DecodeURIComponent(pdfURL).Some? && p.bodyMentionsPDF
    requires '%' !in a && (|b| < 2 || HexValue(b[0]).None? || HexValue(b[1]).None?)
    requires g.query == ViewerQuery(LocalPairs(pdfURL, a + "%" + b, p, None))
    ensures var (g2, r) := Configure(g, pathnameOf, true, true);
      r == Rejected && g2.fileURL == DecodeURIComponent(pdfURL)
    ensures Configure(g, pathnameOf, true, false).1 == Resolved(true, AutoSelector(Some(pdfURL), Some(a + "%" + b)))
  {
    LocalRedirectSelectsMode(pdfURL, a + "%" + b, p, None);
    DecodeBarePercent(a, b);
  }

  /** Corrected: read once, any name titles the page and the local file is loaded from its address. */
  lemma LocalFileIntended(pdfURL: string, name: string, p: HostPage, g: Globals, pathnameOf: string -> Option<string>,
                          bodyPresent: bool)
    requires IsFileURL(pdfURL) && p.bodyMentionsPDF
    requires g.query == ViewerQuery(LocalPairs(pdfURL, name, p, None))
    ensures var (g2, r) := Configure(g, pathnameOf, false, bodyPresent);
      r == Resolved(true, ForceLoadLocalSoon(pdfURL)) && g2.fileURL == Some(pdfURL) &&
      g2.title == OrElse(Some(name), "PDF") + TitleSuffix && Lookup(g2.query, "file") == Some(pdfURL)
  {
    LocalRedirectSelectsMode(pdfURL, name, p, None);
  }

  /** Corrected: read once, any dropped name titles the page and the blob is loaded. */
  lemma DroppedFileIntended(name: string, blobURL: string, g: Globals, pathnameOf: string -> Option<string>, bodyPresent: bool)
    requires blobURL != ""
    requires g.query == ViewerQuery(DropPairs(name, blobURL))
    ensures var (g2, r) := Configure(g, pathnameOf, false, bodyPresent);
      r == Resolved(true, ForceLoadSoon(blobURL)) && g2.fileURL == Some(blobURL) &&
      g2.title == OrElse(Some(name), "PDF") + TitleSuffix && Lookup(g2.query, "file") == Some(blobURL)
  {
    DropSelectsAutoLoad(name, blobURL, "");
  }
}
