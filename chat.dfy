/**
 * The small computations behind the viewer's chat panel: `parseInt` as the
 * chat code uses it, the page window of `extractPDFText`, the 800-character
 * truncation of `getPDFContext`, the key pages and first sentences of
 * `createIntelligentSummary`, and the page-range check of
 * `getSpecificPageContent`.
 *
 * Page texts come from `pdf.getPage(p).getTextContent()`, an input here:
 * `texts[p - 1]` is page `p`'s text, and `None` (or a page past the end of
 * `texts`) is a call that threw.
 */
module Chat {
  import opened Common
  import opened Page
  import DirectLoader

  // ---------------------------------------------------------------------------
  // Whitespace and trim

  /** The whitespace characters the model gives to `trim` and `parseInt`. */
  predicate IsSpace(c: char) {
    c == ' ' || c == '\t' || c == '\n' || c == '\r'
  }

  function LeadingSpaces(s: string): (k: nat)
    ensures k <= |s|
    ensures forall i :: 0 <= i < k ==> IsSpace(s[i])
    ensures k < |s| ==> !IsSpace(s[k])
  {
    if s == [] || !IsSpace(s[0]) then 0 else 1 + LeadingSpaces(s[1..])
  }

  function TrailingSpaces(s: string): (k: nat)
    ensures k <= |s|
    ensures forall i :: |s| - k <= i < |s| ==> IsSpace(s[i])
    ensures k < |s| ==> !IsSpace(s[|s| - 1 - k])
  {
    if s == [] || !IsSpace(s[|s| - 1]) then 0 else 1 + TrailingSpaces(s[..|s| - 1])
  }

  /** Whitespace all the way through. */
  predicate Blank(s: string) {
    forall i :: 0 <= i < |s| ==> IsSpace(s[i])
  }

  /** `s.trim()`: the slice between the leading and the trailing whitespace. */
  function Trim(s: string): (r: string)
    ensures |r| <= |s|
    ensures LeadingSpaces(s) + |r| <= |s| && r == s[LeadingSpaces(s)..LeadingSpaces(s) + |r|]
    ensures r == "" <==> Blank(s)
    ensures r != "" ==> !IsSpace(r[0]) && !IsSpace(r[|r| - 1])
  {
    var t := s[LeadingSpaces(s)..];
    var r := t[..|t| - TrailingSpaces(t)];
    assert r == "" <==> Blank(s) by {
      TrimBlank(s);
    }
    r
  }

  lemma TrimBlank(s: string)
    ensures var t := s[LeadingSpaces(s)..];
      t[..|t| - TrailingSpaces(t)] == "" <==> Blank(s)
  {
    var l := LeadingSpaces(s);
    var t := s[l..];
    if Blank(s) {
      assert l == |s|;
    }
  }

  // ---------------------------------------------------------------------------
  // parseInt(string) without a radix

  predicate IsRadixDigit(c: char, hex: bool) {
    IsDigit(c) || (hex && (('a' <= c <= 'f') || ('A' <= c <= 'F')))
  }

  function RadixDigitValue(c: char, hex: bool): (v: nat)
    requires IsRadixDigit(c, hex)
    ensures v < (if hex then 16 else 10)
  {
    if IsDigit(c) then (c as int - '0' as int) as nat
    else if 'a' <= c <= 'f' then (c as int - 'a' as int + 10) as nat
    else (c as int - 'A' as int + 10) as nat
  }

  /** The length of the run of digits `s` starts with. */
  function DigitRun(s: string, hex: bool): (k: nat)
    ensures k <= |s|
    ensures forall i :: 0 <= i < k ==> IsRadixDigit(s[i], hex)
    ensures k < |s| ==> !IsRadixDigit(s[k], hex)
  {
    if s == [] || !IsRadixDigit(s[0], hex) then 0 else 1 + DigitRun(s[1..], hex)
  }

  /** The value of a run of digits, most significant first. */
  function RunValue(s: string, hex: bool): nat
    requires forall i :: 0 <= i < |s| ==> IsRadixDigit(s[i], hex)
  {
    if s == [] then 0
    else RunValue(s[..|s| - 1], hex) * (if hex then 16 else 10) + RadixDigitValue(s[|s| - 1], hex)
  }

  /**
   * `parseInt(s)`: leading whitespace, an optional sign, an optional `0x`
   * (base 16), then the longest run of digits; `None` is `NaN`, the result
   * when that run is empty.
   */
  function ParseInt(s: string): (r: Option<int>)
  {
    ParseSigned(s[LeadingSpaces(s)..])
  }

  /** The sign, then the digits. */
  function ParseSigned(t: string): Option<int> {
    if |t| > 0 && t[0] == '-' then
      match ParseUnsigned(t[1..])
      case None => None
      case Some(v) => Some(-v)
    else if |t| > 0 && t[0] == '+' then ParseUnsigned(t[1..])
    else ParseUnsigned(t)
  }

  /** An optional `0x` or `0X` switches to base 16. */
  function ParseUnsigned(u: string): Option<int> {
    if |u| >= 2 && u[0] == '0' && (u[1] == 'x' || u[1] == 'X') then ParseRun(u[2..], true)
    else ParseRun(u, false)
  }

  /** The value of the longest run of digits `digits` starts with; `None` when it is empty. */
  function ParseRun(digits: string, hex: bool): Option<int> {
    var k := DigitRun(digits, hex);
    if k == 0 then None else Some(RunValue(digits[..k], hex))
  }

  lemma DigitCharValue(d: nat)
    requires d < 10
    ensures IsDigit(DigitChar(d)) && RadixDigitValue(DigitChar(d), false) == d
  {
    assert "0123456789"[d] as int == '0' as int + d by {
      if d == 0 {} else if d == 1 {} else if d == 2 {} else if d == 3 {} else if d == 4 {}
      else if d == 5 {} else if d == 6 {} else if d == 7 {} else if d == 8 {} else {}
    }
  }

  /** Reading the decimal digits `NatToString` writes gives the number back. */
  lemma {:induction false} RunValueOfNat(n: nat)
    ensures forall i :: 0 <= i < |NatToString(n)| ==> IsRadixDigit(NatToString(n)[i], false)
    ensures RunValue(NatToString(n), false) == n
  {
    var s := NatToString(n);
    if n < 10 {
      DigitCharValue(n);
      assert s[..0] == [];
    } else {
      RunValueOfNat(n / 10);
      DigitCharValue(n % 10);
      assert s[..|s| - 1] == NatToString(n / 10);
    }
  }

  /** `parseInt(String(n)) == n` for every natural number. */
  lemma ParseIntOfNat(n: nat)
    ensures ParseInt(NatToString(n)) == Some(n)
  {
    RunValueOfNat(n);
    ParseIntDigits(NatToString(n));
  }

  /** A nonempty text of decimal digits alone parses to the value of those digits. */
  lemma ParseIntDigits(s: string)
    requires |s| > 0 && forall i :: 0 <= i < |s| ==> IsRadixDigit(s[i], false)
    ensures ParseInt(s) == Some(RunValue(s, false))
  {
    assert LeadingSpaces(s) == 0 by {
      assert !IsSpace(s[0]);
    }
    assert s[0..] == s;
    assert IsDigit(s[0]);
    assert ParseSigned(s) == ParseUnsigned(s);
    assert |s| >= 2 ==> IsDigit(s[1]);
    assert ParseUnsigned(s) == ParseRun(s, false);
    assert DigitRun(s, false) == |s|;
    assert s[..|s|] == s;
  }

  /** A text that starts with a letter (or any non-space, non-sign, non-digit) parses to `NaN`. */
  lemma ParseIntAfterWord(c: char, rest: string)
    requires !IsSpace(c) && !IsDigit(c) && c != '+' && c != '-'
    ensures ParseInt([c] + rest) == None
  {
    var s := [c] + rest;
    assert LeadingSpaces(s) == 0 by {
      assert s[0] == c;
    }
    assert s[0..] == s;
    assert ParseSigned(s) == ParseUnsigned(s) == ParseRun(s, false) by {
      assert s[0] == c;
    }
    assert DigitRun(s, false) == 0 by {
      assert s[0] == c;
    }
  }

  // ---------------------------------------------------------------------------
  // extractPDFText

  /**
   * The pages `extractPDFText` reads: from `max(1, current - 1)` to
   * `min(numPages, start + min(3, numPages) - 1)`. A current page that parsed
   * to `NaN` makes both bounds `NaN`, and the loop reads nothing.
   */
  function PageWindow(current: Option<int>, numPages: nat): (pages: seq<nat>)
    ensures |pages| <= 3 && |pages| <= numPages
    ensures forall i :: 0 <= i < |pages| ==> 1 <= pages[i] <= numPages
    ensures forall i :: 0 <= i < |pages| ==> pages[i] == pages[0] + i
    ensures current.Some? && 1 <= current.value <= numPages ==> current.value in pages
    ensures current.None? ==> pages == []
  {
    if current.None? then []
    else
      var start := if current.value - 1 > 1 then current.value - 1 else 1;
      var count := if numPages < 3 then numPages else 3;
      var end := if numPages < start + count - 1 then numPages else start + count - 1;
      if end < start then []
      else
        var pages := seq(end - start + 1, i requires 0 <= i < end - start + 1 => (start + i) as nat);
        assert current.Some? && 1 <= current.value <= numPages ==> pages[current.value - start] == current.value;
        pages
  }

  /** Right after a load, with the page field reading '1', the window is the first pages of the document. */
  lemma WindowAfterLoad(numPages: nat)
    ensures ParseInt("1") == Some(1)
    ensures PageWindow(ParseInt("1"), numPages) ==
      seq(if numPages < 3 then numPages else 3, i requires 0 <= i < (if numPages < 3 then numPages else 3) => (i + 1) as nat)
  {
    assert NatToString(1) == "1";
    ParseIntOfNat(1);
  }

  /** Page `p`'s text, `None` when reading it threw. */
  function PageText(texts: seq<Option<string>>, p: nat): Option<string> {
    if 1 <= p <= |texts| then texts[p - 1] else None
  }

  /** The block one page adds: only pages whose text is not blank add one. */
  function Section(texts: seq<Option<string>>, p: nat): string {
    var t := PageText(texts, p);
    if t.Some? && Trim(t.value) != "" then "\n--- Página " + NatToString(p) + " ---\n" + t.value + "\n" else ""
  }

  function Sections(pages: seq<nat>, texts: seq<Option<string>>): string {
    if pages == [] then "" else Sections(pages[..|pages| - 1], texts) + Section(texts, pages[|pages| - 1])
  }

  /** Page `p` adds nothing: reading its text threw, or the text is blank. */
  predicate Unread(texts: seq<Option<string>>, p: nat) {
    PageText(texts, p).None? || Trim(PageText(texts, p).value) == ""
  }

  /**
   * Pages whose text is blank or unreadable contribute nothing, and the text
   * is empty only when every page of the window is one of them.
   */
  lemma {:induction false} SectionsSkipUnread(pages: seq<nat>, texts: seq<Option<string>>)
    ensures Sections(pages, texts) == "" <==> forall i :: 0 <= i < |pages| ==> Unread(texts, pages[i])
  {
    if pages != [] {
      var init, last := pages[..|pages| - 1], pages[|pages| - 1];
      SectionsSkipUnread(init, texts);
      if !Unread(texts, last) {
        assert Section(texts, last)[0] == '\n';
      }
      assert forall i :: 0 <= i < |init| ==> init[i] == pages[i];
    }
  }

  /**
   * `extractPDFText` with a document in the viewer: one section per readable
   * page of the window, trimmed. The second path, over the rendered text
   * layers, is not part of this model.
   */
  method ExtractPDFText(doc: Doc, pageValue: Option<string>, texts: seq<Option<string>>) returns (text: string)
    ensures text == Trim(Sections(PageWindow(ParseInt(if Truthy(pageValue) then pageValue.value else "1"), doc.numPages), texts))
    ensures |text| <= |Sections(PageWindow(ParseInt(if Truthy(pageValue) then pageValue.value else "1"), doc.numPages), texts)|
  {
    var current := ParseInt(if Truthy(pageValue) then pageValue.value else "1");
    var pages := PageWindow(current, doc.numPages);
    var all := "";
    var i := 0;
    while i < |pages|
      invariant i <= |pages|
      invariant all == Sections(pages[..i], texts)
    {
      SectionsAppend(pages, i, texts);
      all := all + Section(texts, pages[i]);
      i := i + 1;
    }
    assert pages[..|pages|] == pages;
    text := Trim(all);
  }

  /** One more page read adds its section at the end. */
  lemma SectionsAppend(pages: seq<nat>, i: nat, texts: seq<Option<string>>)
    requires i < |pages|
    ensures Sections(pages[..i + 1], texts) == Sections(pages[..i], texts) + Section(texts, pages[i])
  {
    assert pages[..i + 1][..i] == pages[..i];
  }

  // ---------------------------------------------------------------------------
  // getPDFContext

  const MaxContextText := 800
  const ContentLabel := "\n\nContenido: "
  const Ellipsis := " [...]"

  /** The part of the context a short document's text adds. */
  function ContentPart(pdfText: string): (r: string)
    ensures pdfText == "" ==> r == ""
    ensures 0 < |pdfText| <= MaxContextText ==> r == ContentLabel + pdfText
    ensures |pdfText| > MaxContextText ==> r == ContentLabel + pdfText[..MaxContextText] + Ellipsis
  {
    if pdfText == "" then ""
    else
      var kept := if |pdfText| > MaxContextText then pdfText[..MaxContextText] else pdfText;
      ContentLabel + kept + (if |pdfText| > MaxContextText then Ellipsis else "")
  }

  /** At most 800 characters of the text reach the prompt, and they are its beginning. */
  lemma ContentBounded(pdfText: string)
    requires pdfText != ""
    ensures |ContentPart(pdfText)| <= |ContentLabel| + MaxContextText + |Ellipsis|
    ensures IsPrefix(ContentLabel, ContentPart(pdfText))
    ensures var body := ContentPart(pdfText)[|ContentLabel|..];
      IsPrefix(body[..if |pdfText| < MaxContextText then |pdfText| else MaxContextText], pdfText)
  {
    var r := ContentPart(pdfText);
    assert r[..|ContentLabel|] == ContentLabel;
  }

  datatype Strategy = IntelligentSummary | FullText

  /** `totalPages > 10` picks the summary; `NaN > 10` is false. */
  function ContextStrategy(totalPages: Option<int>): (s: Strategy)
    ensures s == IntelligentSummary <==> totalPages.Some? && totalPages.value > 10
  {
    if totalPages.Some? && totalPages.value > 10 then IntelligentSummary else FullText
  }

  /**
   * As written: `parseInt(numPages.textContent)`, and 0 when the element is
   * missing or empty.
   */
  function PageCountAsWritten(ui: Ui): Option<int> {
    if ui.numPages.Some? && ui.numPages.value != "" then ParseInt(ui.numPages.value) else Some(0)
  }

  /**
   * After a load the page-count element reads 'de N', so the parse gives
   * `NaN` for every document: the count never reaches the context and long
   * documents never take the summary path.
   */
  lemma PageCountLostAfterLoad(ui: Ui, n: nat)
    requires ui.numPages.Some?
    ensures PageCountAsWritten(DirectLoader.UpdateUi(ui, n)) == None
    ensures ContextStrategy(PageCountAsWritten(DirectLoader.UpdateUi(ui, n))) == FullText
  {
    var text := DirectLoader.UpdateUi(ui, n).numPages.value;
    assert text == ['d'] + ("e " + NatToString(n));
    ParseIntAfterWord('d', "e " + NatToString(n));
  }

  const CountPrefix := "de "

  /** The evident intent: the number after the 'de ' label. */
  function PageCountIntended(ui: Ui): Option<int> {
    if ui.numPages.None? || ui.numPages.value == "" then Some(0)
    else if IsPrefix(CountPrefix, ui.numPages.value) then ParseInt(ui.numPages.value[|CountPrefix|..])
    else ParseInt(ui.numPages.value)
  }

  /** Read that way, the count after a load is the document's page count, and long documents get the summary. */
  lemma PageCountIntendedAfterLoad(ui: Ui, n: nat)
    requires ui.numPages.Some?
    ensures PageCountIntended(DirectLoader.UpdateUi(ui, n)) == Some(n)
    ensures ContextStrategy(PageCountIntended(DirectLoader.UpdateUi(ui, n))) == IntelligentSummary <==> n > 10
  {
    var text := DirectLoader.UpdateUi(ui, n).numPages.value;
    assert text[|CountPrefix|..] == NatToString(n);
    ParseIntOfNat(n);
  }

  // ---------------------------------------------------------------------------
  // createIntelligentSummary

  /** `[1, totalPages]`, and the middle page `floor(totalPages / 2)` when there are more than five. */
  function KeyPages(totalPages: nat): (r: seq<nat>)
    ensures |r| == (if totalPages > 5 then 3 else 2)
    ensures r[0] == 1 && r[1] == totalPages
    ensures totalPages > 5 ==> r[2] == totalPages / 2
  {
    [1, totalPages] + (if totalPages > 5 then [totalPages / 2] else [])
  }

  /** On the documents that reach the summary, the key pages are three distinct pages of the document. */
  lemma KeyPagesOfLongDocument(totalPages: nat)
    requires totalPages > 10
    ensures forall i :: 0 <= i < |KeyPages(totalPages)| ==> 1 <= KeyPages(totalPages)[i] <= totalPages
    ensures |KeyPages(totalPages)| == 3
    ensures forall i, j :: 0 <= i < j < 3 ==> KeyPages(totalPages)[i] != KeyPages(totalPages)[j]
  {
  }

  predicate IsStop(c: char) {
    c == '.' || c == '\n' || c == '!' || c == '?'
  }

  /** `text.split(/[.\n!?]+/)`: a run of stop characters separates two pieces. */
  function SplitSentences(s: string): (r: seq<string>)
    ensures |r| >= 1
    ensures forall i :: 0 <= i < |r| ==> forall j :: 0 <= j < |r[i]| ==> !IsStop(r[i][j])
    ensures s != [] && IsStop(s[0]) ==> r[0] == ""
    decreases |s|
  {
    if s == [] then [""]
    else
      var rest := SplitSentences(s[1..]);
      if !IsStop(s[0]) then [[s[0]] + rest[0]] + rest[1..]
      else if |s| > 1 && IsStop(s[1]) then rest
      else [""] + rest
  }

  predicate SentenceFits(p: string) {
    15 < |Trim(p)| < 100
  }

  /** `find`: the index of the first piece whose trimmed length is between 16 and 99 (`|pieces|` when none). */
  function FirstFitting(pieces: seq<string>): (k: nat)
    ensures k <= |pieces|
    ensures forall i :: 0 <= i < k ==> !SentenceFits(pieces[i])
    ensures k < |pieces| ==> SentenceFits(pieces[k])
  {
    if pieces == [] || SentenceFits(pieces[0]) then 0 else 1 + FirstFitting(pieces[1..])
  }

  /** The sentence a page contributes, trimmed; it holds no stop character. */
  function FirstSentence(pageText: string): (r: Option<string>)
    ensures r.Some? ==> 15 < |r.value| < 100
    ensures r.Some? ==> forall j :: 0 <= j < |r.value| ==> !IsStop(r.value[j])
  {
    var pieces := SplitSentences(pageText);
    var k := FirstFitting(pieces);
    if k == |pieces| then None
    else
      var t := Trim(pieces[k]);
      assert forall j :: 0 <= j < |t| ==> t[j] == pieces[k][LeadingSpaces(pieces[k]) + j];
      Some(t)
  }

  /** Every piece of a blank text is blank. */
  lemma {:induction false} BlankPieces(s: string)
    requires Blank(s)
    ensures forall k :: 0 <= k < |SplitSentences(s)| ==> Blank(SplitSentences(s)[k])
    decreases |s|
  {
    if s != [] {
      BlankPieces(s[1..]);
      var rest := SplitSentences(s[1..]);
      var head := [s[0]] + rest[0];
      assert Blank(head) by {
        assert Blank(rest[0]);
        forall i | 0 <= i < |head|
          ensures IsSpace(head[i])
        {
          if i > 0 {
            assert head[i] == rest[0][i - 1];
          }
        }
      }
    }
  }

  /** A blank page has no sentence. */
  lemma BlankPageHasNoSentence(s: string)
    requires Trim(s) == ""
    ensures FirstSentence(s) == None
  {
    BlankPieces(s);
  }

  /** The line a key page adds to the summary: `P<n>: <sentence>. ` when it has one. */
  function SummaryLine(texts: seq<Option<string>>, p: nat): string {
    var t := PageText(texts, p);
    if t.Some? && Trim(t.value) != "" && FirstSentence(t.value).Some? then
      "P" + NatToString(p) + ": " + FirstSentence(t.value).value + ". "
    else ""
  }

  function SummaryLines(pages: seq<nat>, texts: seq<Option<string>>): string {
    if pages == [] then "" else SummaryLines(pages[..|pages| - 1], texts) + SummaryLine(texts, pages[|pages| - 1])
  }

  /** `window.pdfFullDocument`: the document and page count the summary saved. */
  datatype FullDocument = FullDocument(doc: Doc, totalPages: nat)

  /** The chat's own window state. */
  class ChatSession {
    var fullDocument: Option<FullDocument>

    constructor ()
      ensures fullDocument == None
    {
      fullDocument := None;
    }
  }

  function SummaryHead(totalPages: nat): string {
    "\nDocumento: " + NatToString(totalPages) + " páginas. "
  }

  const SummaryFoot := "(Usa \"página X\" para detalles específicos)"

  function NoDocumentSummary(totalPages: nat): string {
    "\nDocumento extenso: " + NatToString(totalPages) + " páginas. (Usa \"página X\" para análisis específico)"
  }

  /**
   * `createIntelligentSummary(totalPages)`: with a document in the viewer,
   * one line per key page that has a fitting sentence, and the document is
   * saved for page questions; without one, a fixed text and nothing saved.
   */
  method CreateIntelligentSummary(session: ChatSession, viewerDoc: Option<Doc>, totalPages: nat, texts: seq<Option<string>>)
    returns (summary: string)
    modifies session
    ensures viewerDoc.Some? ==>
      summary == SummaryHead(totalPages) + SummaryLines(KeyPages(totalPages), texts) + SummaryFoot &&
      session.fullDocument == Some(FullDocument(viewerDoc.value, totalPages))
    ensures viewerDoc.None? ==>
      summary == NoDocumentSummary(totalPages) && session.fullDocument == old(session.fullDocument)
  {
    if viewerDoc.None? {
      return NoDocumentSummary(totalPages);
    }
    var keyPages := KeyPages(totalPages);
    var lines := "";
    var i := 0;
    while i < |keyPages|
      invariant i <= |keyPages|
      invariant lines == SummaryLines(keyPages[..i], texts)
    {
      assert keyPages[..i + 1][..i] == keyPages[..i];
      lines := lines + SummaryLine(texts, keyPages[i]);
      i := i + 1;
    }
    assert keyPages[..|keyPages|] == keyPages;
    summary := SummaryHead(totalPages) + lines + SummaryFoot;
    session.fullDocument := Some(FullDocument(viewerDoc.value, totalPages));
  }

  // ---------------------------------------------------------------------------
  // getSpecificPageContent

  datatype PageAnswer =
    | NoSavedDocument            // null: no summary has saved a document
    | PageMissing(totalPages: nat)
    | PageContent(text: string)
    | NoExtractableText
    | ExtractError

  /** The answer for a requested page number, checked against the saved page count first. */
  function SpecificPageContent(saved: Option<FullDocument>, pageNumber: int, texts: seq<Option<string>>): (r: PageAnswer)
    ensures r == NoSavedDocument <==> saved.None?
    ensures r.PageMissing? <==> saved.Some? && !(1 <= pageNumber <= saved.value.totalPages)
    ensures r.PageContent? ==>
      saved.Some? && 1 <= pageNumber <= saved.value.totalPages &&
      PageText(texts, pageNumber as nat) == Some(r.text) && Trim(r.text) != ""
    ensures saved.Some? && 1 <= pageNumber <= saved.value.totalPages ==>
      var t := PageText(texts, pageNumber as nat);
      (r == ExtractError <==> t.None?) &&
      (r == NoExtractableText <==> t.Some? && Trim(t.value) == "") &&
      (t.Some? && Trim(t.value) != "" ==> r == PageContent(t.value))
  {
    if saved.None? then NoSavedDocument
    else if pageNumber < 1 || pageNumber > saved.value.totalPages then PageMissing(saved.value.totalPages)
    else
      var t := PageText(texts, pageNumber as nat);
      if t.None? then ExtractError
      else if Trim(t.value) != "" then PageContent(t.value)
      else NoExtractableText
  }

  /**
   * `window.pdfFullDocument` after `getPDFContext`: only the summary path
   * saves, and only when the viewer holds a document; the full-text path
   * leaves it as it was.
   */
  function SavedAfterContext(saved: Option<FullDocument>, totalPages: Option<int>, viewerDoc: Option<Doc>)
    : (r: Option<FullDocument>)
    ensures r != saved ==> ContextStrategy(totalPages) == IntelligentSummary && viewerDoc.Some?
    ensures ContextStrategy(totalPages) == IntelligentSummary && viewerDoc.Some? ==>
      r.Some? && r.value.doc == viewerDoc.value && r.value.totalPages == totalPages.value
  {
    if ContextStrategy(totalPages) == IntelligentSummary && viewerDoc.Some? then
      Some(FullDocument(viewerDoc.value, totalPages.value as nat))
    else saved
  }

  /**
   * As written, the chat after a load never saves a document (the summary
   * path needs a page count the parse never yields), so every page question
   * that follows gets `null`.
   */
  lemma PageQuestionsUnansweredAsWritten(ui: Ui, n: nat, viewerDoc: Option<Doc>, pageNumber: int,
                                         texts: seq<Option<string>>)
    requires ui.numPages.Some?
    ensures var saved := SavedAfterContext(None, PageCountAsWritten(DirectLoader.UpdateUi(ui, n)), viewerDoc);
      saved == None && SpecificPageContent(saved, pageNumber, texts) == NoSavedDocument
  {
    PageCountLostAfterLoad(ui, n);
  }

  /**
   * Read as intended, a long document in the viewer is saved by the first
   * question, and a later question for one of its pages with readable text
   * is answered with that text.
   */
  lemma PageQuestionsAnsweredIntended(ui: Ui, n: nat, doc: Doc, pageNumber: int, texts: seq<Option<string>>)
    requires ui.numPages.Some? && n > 10 && 1 <= pageNumber <= n
    requires PageText(texts, pageNumber as nat).Some? && Trim(PageText(texts, pageNumber as nat).value) != ""
    ensures var saved := SavedAfterContext(None, PageCountIntended(DirectLoader.UpdateUi(ui, n)), Some(doc));
      saved == Some(FullDocument(doc, n)) &&
      SpecificPageContent(saved, pageNumber, texts) == PageContent(PageText(texts, pageNumber as nat).value)
  {
    PageCountIntendedAfterLoad(ui, n);
  }
}
