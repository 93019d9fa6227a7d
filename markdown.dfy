/**
 * The chat panel's markdown renderer: `renderMarkdown`, a fixed pipeline of
 * regular-expression rewrites on one string, and `renderToElement` /
 * `addMarkdownStyles`, which write the result into an element and add the
 * renderer's style sheet to the document head once.
 *
 * Each `replace` pass is written out as the left-to-right scan ECMAScript's
 * global replace performs for that particular pattern: a multiline `^…(.*$)`
 * pass rewrites each line on its own, a lazy `D(.*?)D` pass pairs a
 * delimiter with the nearest closing one on the same line, and the greedy
 * dot-all `<li>` pass spans from the first `<li>` to the last `</li>`.
 */
module Markdown {
  import opened Common

  // ---------------------------------------------------------------------------
  // Lines

  /** The characters ECMAScript treats as line terminators: `.` does not match them and `^`/`$` match beside them in multiline mode. */
  predicate IsLineTerminator(c: char) {
    c == '\n' || c == '\r' || c == '\U{2028}' || c == '\U{2029}'
  }

  predicate NoTerminator(s: string) {
    forall i :: 0 <= i < |s| ==> !IsLineTerminator(s[i])
  }

  /** Index of the first line terminator. */
  function FirstTerminator(s: string): (k: nat)
    requires !NoTerminator(s)
    ensures k < |s| && IsLineTerminator(s[k]) && NoTerminator(s[..k])
  {
    if IsLineTerminator(s[0]) then 0
    else
      var k := FirstTerminator(s[1..]);
      assert s[..k + 1] == [s[0]] + s[1..][..k];
      k + 1
  }

  /** `<tag>body</tag>` */
  function Element(tag: string, body: string): string {
    "<" + tag + ">" + body + "</" + tag + ">"
  }

  /** What `/^marker(.*$)/gm` does to one line. */
  function LineRule(marker: string, tag: string, line: string): string {
    if IsPrefix(marker, line) then Element(tag, line[|marker|..]) else line
  }

  /** `s.replace(/^marker(.*$)/gim, '<tag>$1</tag>')`: every line rewritten on its own, the terminators kept. */
  function MapLines(s: string, marker: string, tag: string): string
    decreases |s|
  {
    if NoTerminator(s) then LineRule(marker, tag, s)
    else
      var k := FirstTerminator(s);
      LineRule(marker, tag, s[..k]) + [s[k]] + MapLines(s[k + 1..], marker, tag)
  }

  /** A line that is the whole input is rewritten by the line rule alone. */
  lemma MapLinesOneLine(s: string, marker: string, tag: string)
    requires NoTerminator(s)
    ensures MapLines(s, marker, tag) == LineRule(marker, tag, s)
  {
  }

  /** Lines 24-26: the three header passes, `###` first. */
  function Headers(s: string): string {
    MapLines(MapLines(MapLines(s, "### ", "h3"), "## ", "h2"), "# ", "h1")
  }

  /** A line `### x` becomes an `h3` header and no other; `## x` an `h2`; `# x` an `h1`. */
  lemma HeaderLevels(x: string)
    requires NoTerminator(x)
    ensures Headers("### " + x) == Element("h3", x)
    ensures Headers("## " + x) == Element("h2", x)
    ensures Headers("# " + x) == Element("h1", x)
  {
    var h3, h2, h1 := Element("h3", x), Element("h2", x), Element("h1", x);
    assert ("### " + x)[4..] == x && ("## " + x)[3..] == x && ("# " + x)[2..] == x;
    assert NoTerminator("### " + x) && NoTerminator(h3) && NoTerminator("## " + x);
    assert NoTerminator(h2) && NoTerminator("# " + x) && NoTerminator(h1);
    assert !IsPrefix("## ", h3) && !IsPrefix("# ", h3) by { assert h3[0] == '<'; }
    assert !IsPrefix("### ", "## " + x) by { assert ("## " + x)[2] == ' '; }
    assert !IsPrefix("# ", h2) by { assert h2[0] == '<'; }
    assert !IsPrefix("### ", "# " + x) && !IsPrefix("## ", "# " + x) by { assert ("# " + x)[1] == ' '; }
  }

  // ---------------------------------------------------------------------------
  // Inline passes

  /** Where `(.*?)d` ends in `t`: the nearest `d` reached before any line terminator. */
  function FindClose(t: string, d: string): (r: Option<nat>)
    requires |d| > 0
    ensures r.Some? ==> OccursAt(t, d, r.value) && NoTerminator(t[..r.value])
    ensures r.Some? ==> forall j :: 0 <= j < r.value ==> !OccursAt(t, d, j)
    ensures r.None? ==> forall j :: 0 <= j <= |t| && NoTerminator(t[..j]) ==> !OccursAt(t, d, j)
    decreases |t|
  {
    if IsPrefix(d, t) then Some(0)
    else if |t| == 0 || IsLineTerminator(t[0]) then None
    else
      var r := FindClose(t[1..], d);
      OccursAfterFirst(t, d);
      LineAfterFirst(t);
      if r.None? then None else Some(r.value + 1)
  }

  /** Past a first character that ends no line, a prefix stays on one line exactly when its rest does. */
  lemma LineAfterFirst(t: string)
    requires |t| > 0 && !IsLineTerminator(t[0])
    ensures forall j :: 1 <= j <= |t| ==> (NoTerminator(t[..j]) <==> NoTerminator(t[1..][..j - 1]))
  {
    forall j | 1 <= j <= |t|
      ensures NoTerminator(t[..j]) <==> NoTerminator(t[1..][..j - 1])
    {
      assert t[..j] == [t[0]] + t[1..][..j - 1];
    }
  }

  /** `s.replace(/D(.*?)D/g, '<tag>$1</tag>')` for the literal delimiter `d`. */
  function Emphasis(s: string, d: string, tag: string): string
    requires |d| > 0
    decreases |s|
  {
    if |s| == 0 then s
    else if IsPrefix(d, s) && FindClose(s[|d|..], d).Some? then
      var j := FindClose(s[|d|..], d).value;
      Element(tag, s[|d|..|d| + j]) + Emphasis(s[|d| + j + |d|..], d, tag)
    else [s[0]] + Emphasis(s[1..], d, tag)
  }

  /** A text without the delimiter's first character is left alone. */
  lemma {:induction false} EmphasisAbsent(s: string, d: string, tag: string)
    requires |d| > 0 && d[0] !in s
    ensures Emphasis(s, d, tag) == s
    decreases |s|
  {
    if |s| > 0 {
      assert !IsPrefix(d, s) by { assert s[0] != d[0]; }
      EmphasisAbsent(s[1..], d, tag);
    }
  }

  /** A delimiter followed by one-line text free of its first character and the delimiter again is one pair. */
  lemma EmphasisPair(x: string, d: string, tag: string)
    requires |d| > 0 && d[0] !in x && NoTerminator(x)
    ensures Emphasis(d + x + d, d, tag) == Element(tag, x)
  {
    var s := d + x + d;
    var t := s[|d|..];
    assert t == x + d;
    assert OccursAt(t, d, |x|);
    assert t[..|x|] == x;
    forall j | 0 <= j < |x|
      ensures !OccursAt(t, d, j)
    {
      assert t[j] == x[j];
    }
    assert FindClose(t, d) == Some(|x|);
    assert s[|d|..|d| + |x|] == x;
    assert s[|d| + |x| + |d|..] == [];
  }

  /** The text of a link: `[text](href)` */
  datatype Link = Link(text: string, href: string, length: nat)

  /** The match of `/\[([^\]]+)\]\(([^)]+)\)/` at the start of `s`, if any. */
  function LinkAt(s: string): (r: Option<Link>)
    ensures r.Some? ==> 0 < r.value.length <= |s|
    ensures r.Some? ==> s[..r.value.length] == "[" + r.value.text + "](" + r.value.href + ")"
    ensures r.Some? ==> |r.value.text| > 0 && ']' !in r.value.text && |r.value.href| > 0 && ')' !in r.value.href
  {
    if |s| > 0 && s[0] == '[' && ']' in s[1..] then
      var k := IndexOf(s[1..], ']');
      if 0 < k && k + 2 < |s| && s[k + 2] == '(' && ')' in s[k + 3..] then
        var m := IndexOf(s[k + 3..], ')');
        if 0 < m then
          assert s[..k + 3 + m + 1] == "[" + s[1..1 + k] + "](" + s[k + 3..k + 3 + m] + ")";
          Some(Link(s[1..1 + k], s[k + 3..k + 3 + m], k + 3 + m + 1))
        else None
      else None
    else None
  }

  function Anchor(l: Link): string {
    "<a href=\"" + l.href + "\" target=\"_blank\">" + l.text + "</a>"
  }

  /** Line 40: `[text](href)` becomes an anchor opening in a new tab. */
  function Links(s: string): string
    decreases |s|
  {
    if |s| == 0 then s
    else match LinkAt(s)
      case Some(l) => Anchor(l) + Links(s[l.length..])
      case None => [s[0]] + Links(s[1..])
  }

  /** A text without `[` is left alone. */
  lemma {:induction false} LinksAbsent(s: string)
    requires '[' !in s
    ensures Links(s) == s
    decreases |s|
  {
    if |s| > 0 {
      assert s[0] != '[';
      LinksAbsent(s[1..]);
    }
  }

  /** Lines 29-40: bold, then italic, then inline code, then links. */
  function Inline(s: string): string {
    var bold := Emphasis(Emphasis(s, "**", "strong"), "__", "strong");
    var italic := Emphasis(Emphasis(bold, "*", "em"), "_", "em");
    Links(Emphasis(italic, "`", "code"))
  }

  /** Characters that none of the inline passes starts on. */
  predicate InlinePlain(s: string) {
    '*' !in s && '_' !in s && '`' !in s && '[' !in s
  }

  /** The inline passes leave plain text alone. */
  lemma InlineAbsent(s: string)
    requires InlinePlain(s)
    ensures Inline(s) == s
  {
    EmphasisAbsent(s, "**", "strong");
    EmphasisAbsent(s, "__", "strong");
    EmphasisAbsent(s, "*", "em");
    EmphasisAbsent(s, "_", "em");
    EmphasisAbsent(s, "`", "code");
    LinksAbsent(s);
  }

  /** Bold runs before italic, so `**x**` is strong text, not two empty emphases around `x`. */
  lemma BoldBeforeItalic(x: string)
    requires InlinePlain(x) && NoTerminator(x)
    ensures Inline("**" + x + "**") == Element("strong", x)
  {
    EmphasisPair(x, "**", "strong");
    var strong := Element("strong", x);
    StrongPlain(x);
    EmphasisAbsent(strong, "__", "strong");
    InlineAfterBold("**" + x + "**", strong);
  }

  lemma StrongPlain(x: string)
    requires InlinePlain(x)
    ensures InlinePlain(Element("strong", x))
  {
    var open, close := "<" + "strong" + ">", "</" + "strong" + ">";
    assert InlinePlain(open) && InlinePlain(close);
    InlinePlainJoin(open, x);
    InlinePlainJoin(open + x, close);
  }

  lemma InlinePlainJoin(a: string, b: string)
    requires InlinePlain(a) && InlinePlain(b)
    ensures InlinePlain(a + b)
  {
  }

  /** Once the bold passes have left plain text, the remaining inline passes keep it. */
  lemma InlineAfterBold(s: string, bold: string)
    requires Emphasis(Emphasis(s, "**", "strong"), "__", "strong") == bold && InlinePlain(bold)
    ensures Inline(s) == bold
  {
    EmphasisAbsent(bold, "*", "em");
    EmphasisAbsent(bold, "_", "em");
    EmphasisAbsent(bold, "`", "code");
    LinksAbsent(bold);
  }

  /** Had the italic pass run first, `**x**` would have become `<em></em>x<em></em>`. */
  lemma ItalicFirstWouldSplitBold(x: string)
    requires InlinePlain(x) && NoTerminator(x)
    ensures Emphasis("**" + x + "**", "*", "em") == Element("em", "") + x + Element("em", "")
  {
    var s := "**" + x + "**";
    var e := Element("em", "");
    assert IsPrefix("*", s[1..]);
    assert FindClose(s[1..], "*") == Some(0);
    EmphasisMatch(s, "*", "em", 0);
    assert s[1..1] == "" && s[2..] == x + "**";
    EmphasisSkip(x, "**", "*", "em");
    EmptyPair("*", "em");
    calc {
      Emphasis(s, "*", "em");
      e + Emphasis(x + "**", "*", "em");
      e + (x + e);
      { ConcatAssoc(e, x, e); }
      e + x + e;
    }
  }

  lemma ConcatAssoc(a: string, b: string, c: string)
    ensures a + (b + c) == a + b + c
  {
  }

  /** One step of the pass at a delimiter whose closing delimiter lies `j` characters on. */
  lemma EmphasisMatch(s: string, d: string, tag: string, j: nat)
    requires |d| > 0 && IsPrefix(d, s) && FindClose(s[|d|..], d) == Some(j)
    ensures |d| + j + |d| <= |s|
    ensures Emphasis(s, d, tag) == Element(tag, s[|d|..|d| + j]) + Emphasis(s[|d| + j + |d|..], d, tag)
  {
    assert |s| != 0;
  }

  /** Two delimiters in a row are an empty pair. */
  lemma EmptyPair(d: string, tag: string)
    requires |d| > 0
    ensures Emphasis(d + d, d, tag) == Element(tag, "")
  {
    var s := d + d;
    assert s[|d|..] == d;
    assert IsPrefix(d, s[|d|..]);
    assert s[|d|..|d|] == [];
    assert s[|d| + |d|..] == [];
  }

  /** Text free of the delimiter's first character is copied until the rest is reached. */
  lemma {:induction false} EmphasisSkip(x: string, rest: string, d: string, tag: string)
    requires |d| > 0 && d[0] !in x
    ensures Emphasis(x + rest, d, tag) == x + Emphasis(rest, d, tag)
    decreases |x|
  {
    if |x| == 0 {
      assert x + rest == rest;
    } else {
      var s := x + rest;
      assert !IsPrefix(d, s) by { assert s[0] == x[0] != d[0]; }
      assert s[1..] == x[1..] + rest;
      EmphasisSkip(x[1..], rest, d, tag);
      assert [x[0]] + x[1..] == x;
    }
  }

  // ---------------------------------------------------------------------------
  // Lists

  /** Lines 43-45: lines opening with `* `, `- ` or `• ` become list items. */
  function ListItems(s: string): string {
    MapLines(MapLines(MapLines(s, "* ", "li"), "- ", "li"), "• ", "li")
  }

  /** Where `pat` first occurs in `s`. */
  function FirstOccurrence(s: string, pat: string): (r: Option<nat>)
    requires |pat| > 0
    ensures r.Some? ==> OccursAt(s, pat, r.value)
    ensures r.Some? ==> r.value + |pat| <= |s|
    ensures r.Some? ==> forall j :: 0 <= j < r.value ==> !OccursAt(s, pat, j)
    ensures r.None? ==> forall j :: !OccursAt(s, pat, j)
    decreases |s|
  {
    if |s| < |pat| then None
    else if IsPrefix(pat, s) then Some(0)
    else
      var r := FirstOccurrence(s[1..], pat);
      OccursAfterFirst(s, pat);
      if r.None? then None else Some(r.value + 1)
  }

  /** Where `pat` last occurs in `s`. */
  function LastOccurrence(s: string, pat: string): (r: Option<nat>)
    requires |pat| > 0
    ensures r.Some? ==> OccursAt(s, pat, r.value)
    ensures r.Some? ==> r.value + |pat| <= |s|
    ensures r.Some? ==> forall j :: r.value < j ==> !OccursAt(s, pat, j)
    ensures r.None? ==> forall j :: !OccursAt(s, pat, j)
    decreases |s|
  {
    if |s| < |pat| then None
    else if OccursAt(s, pat, |s| - |pat|) then Some(|s| - |pat|)
    else
      OccursBeforeLast(s, pat);
      LastOccurrence(s[..|s| - 1], pat)
  }

  /**
   * Lines 48-53: `(<li>.*<\/li>)` with the `s` flag is greedy, so its one match
   * runs from the first `<li>` to the last `</li>` after it; it is wrapped in
   * `<ul>…</ul>` unless it already holds a `<ul>`.
   */
  function ListBlock(s: string): string {
    match FirstOccurrence(s, "<li>")
    case None => s
    case Some(i) => ListBlockAfter(s, i)
  }

  /** The list wrap once the first `<li>` is known to start at `i`. */
  function ListBlockAfter(s: string, i: nat): string
    requires i + 4 <= |s|
  {
    WrapTo(s, i, MatchEnd(LastOccurrence(s[i + 4..], "</li>"), i + 4))
  }

  /** Where the match ends in `s`, for the last `</li>` found in the tail that starts at `from`. */
  function MatchEnd(last: Option<nat>, from: nat): (e: Option<nat>)
    ensures e.Some? <==> last.Some?
    ensures e.Some? ==> e.value == from + last.value + 5
  {
    match last
    case None => None
    case Some(k) => Some(from + k + 5)
  }

  /** The wrap from `i` to the end `e` of the last `</li>`, when there is one. */
  function WrapTo(s: string, i: nat, end: Option<nat>): string
    requires end.Some? ==> i <= end.value <= |s|
  {
    match end
    case None => s
    case Some(e) => WrapSpan(s, i, e)
  }

  /** The replacement callback of line 48 applied to the match `s[i..e]`. */
  function WrapSpan(s: string, i: nat, e: nat): string
    requires i <= e <= |s|
  {
    if Contains(s[i..e], "<ul>") then s else s[..i] + "<ul>" + s[i..e] + "</ul>" + s[e..]
  }

  /**
   * The list wrap, stated by where the items lie: with `i` the first `<li>`
   * and `e` the end of the last `</li>` after it, exactly one `<ul>…</ul>`
   * is put around `s[i..e]` when that span holds no `<ul>` yet.
   */
  lemma ListBlockSpan(s: string, i: nat, e: nat)
    requires OccursAt(s, "<li>", i) && forall j :: 0 <= j < i ==> !OccursAt(s, "<li>", j)
    requires i + 4 + 5 <= e && OccursAt(s, "</li>", e - 5)
    requires forall j :: e - 5 < j ==> !OccursAt(s, "</li>", j)
    ensures ListBlock(s) == if Contains(s[i..e], "<ul>") then s else s[..i] + "<ul>" + s[i..e] + "</ul>" + s[e..]
  {
    FirstOccurrenceIs(s, "<li>", i);
    LastCloseInTail(s, i + 4, e - 5);
    ListBlockAt(s, i, e);
  }

  /** The last `</li>` of `s`, seen from the tail that starts at `n`. */
  lemma LastCloseInTail(s: string, n: nat, c: nat)
    requires n <= c && OccursAt(s, "</li>", c)
    requires forall j :: c < j ==> !OccursAt(s, "</li>", j)
    ensures LastOccurrence(s[n..], "</li>") == Some(c - n)
  {
    var t := s[n..];
    ShiftOccurs(s, n, "</li>", c - n);
    forall j | c - n < j
      ensures !OccursAt(t, "</li>", j)
    {
      ShiftOccurs(s, n, "</li>", j);
    }
    LastOccurrenceIs(t, "</li>", c - n);
  }

  /** The wrap once both ends are found: the first `<li>` at `i`, the last `</li>` ending at `e`. */
  lemma ListBlockAt(s: string, i: nat, e: nat)
    requires i + 9 <= e <= |s| && FirstOccurrence(s, "<li>") == Some(i)
    requires LastOccurrence(s[i + 4..], "</li>") == Some(e - 9 - i)
    ensures ListBlock(s) == WrapSpan(s, i, e)
  {
    ListBlockFirst(s, i);
    ListBlockLast(s, i, e);
  }

  lemma ListBlockFirst(s: string, i: nat)
    requires FirstOccurrence(s, "<li>") == Some(i)
    ensures i + 4 <= |s| && ListBlock(s) == ListBlockAfter(s, i)
  {
  }

  lemma ListBlockLast(s: string, i: nat, e: nat)
    requires i + 9 <= e <= |s| && LastOccurrence(s[i + 4..], "</li>") == Some(e - 9 - i)
    ensures ListBlockAfter(s, i) == WrapSpan(s, i, e)
  {
    assert MatchEnd(Some(e - 9 - i), i + 4) == Some(e);
  }

  /** Occurrences in a suffix are occurrences in the whole string, shifted. */
  lemma ShiftOccurs(s: string, n: nat, pat: string, k: nat)
    requires n <= |s|
    ensures OccursAt(s[n..], pat, k) <==> OccursAt(s, pat, n + k)
  {
    if n + k + |pat| <= |s| {
      assert s[n..][k..k + |pat|] == s[n + k..n + k + |pat|];
    }
  }

  /** Occurrences after the first character are those of the rest, one place on. */
  lemma OccursAfterFirst(s: string, pat: string)
    requires |s| > 0
    ensures forall j :: 1 <= j ==> (OccursAt(s, pat, j) <==> OccursAt(s[1..], pat, j - 1))
  {
    forall j | 1 <= j
      ensures OccursAt(s, pat, j) <==> OccursAt(s[1..], pat, j - 1)
    {
      ShiftOccurs(s, 1, pat, j - 1);
    }
  }

  /** Without an occurrence at the very end, the occurrences are those of the string without its last character. */
  lemma OccursBeforeLast(s: string, pat: string)
    requires |s| >= |pat| && !OccursAt(s, pat, |s| - |pat|)
    ensures forall j :: OccursAt(s, pat, j) <==> OccursAt(s[..|s| - 1], pat, j)
  {
    var p := s[..|s| - 1];
    forall j
      ensures OccursAt(s, pat, j) <==> OccursAt(p, pat, j)
    {
      if 0 <= j && j + |pat| <= |p| {
        assert p[j..j + |pat|] == s[j..j + |pat|];
      }
    }
  }

  /** The first occurrence, told by its properties. */
  lemma FirstOccurrenceIs(s: string, pat: string, i: nat)
    requires |pat| > 0 && OccursAt(s, pat, i) && forall j :: 0 <= j < i ==> !OccursAt(s, pat, j)
    ensures FirstOccurrence(s, pat) == Some(i)
  {
  }

  /** The last occurrence, told by its properties. */
  lemma LastOccurrenceIs(s: string, pat: string, k: nat)
    requires |pat| > 0 && OccursAt(s, pat, k) && forall j :: k < j ==> !OccursAt(s, pat, j)
    ensures LastOccurrence(s, pat) == Some(k)
  {
  }

  /** Without a `</li>` after the first `<li>` nothing is wrapped. */
  lemma ListBlockNoItem(s: string)
    requires forall i, e :: 0 <= i && i + 4 <= e && OccursAt(s, "<li>", i) ==> !OccursAt(s, "</li>", e)
    ensures ListBlock(s) == s
  {
    var f := FirstOccurrence(s, "<li>");
    if f.Some? {
      var i := f.value;
      var t := s[i + 4..];
      forall k | 0 <= k
        ensures !OccursAt(t, "</li>", k)
      {
        ShiftOccurs(s, i + 4, "</li>", k);
      }
    }
  }

  // ---------------------------------------------------------------------------
  // Paragraphs

  /** Lines 56-57: a blank line closes a paragraph, every other newline becomes `<br>`. */
  function LineBreaks(s: string): (r: string)
    ensures '\n' !in r
  {
    var paragraphs := ReplaceAll(s, "\n\n", "</p><p>");
    ReplaceAllRemovesChar(paragraphs, '\n', "<br>");
    ReplaceAll(paragraphs, "\n", "<br>")
  }

  /** The block elements whose presence keeps the output out of a paragraph. */
  predicate HasBlock(s: string) {
    Contains(s, "<h1>") || Contains(s, "<h2>") || Contains(s, "<h3>") || Contains(s, "<ul>")
  }

  /** Lines 60-62 */
  function WrapParagraph(s: string): string {
    if HasBlock(s) then s else "<p>" + s + "</p>"
  }

  /** Lines 65-66: empty paragraphs are dropped. */
  function Cleanup(s: string): string {
    ReplaceAll(ReplaceAll(s, "<p></p>", ""), "<p><br></p>", "")
  }

  /** A replacement that brings in no `c` leaves a string without `c` without it. */
  lemma {:induction false} ReplaceAllKeepsAbsent(s: string, pat: string, rep: string, c: char)
    requires |pat| > 0 && c !in s && c !in rep
    ensures c !in ReplaceAll(s, pat, rep)
    decreases |s|
  {
    if |s| >= |pat| {
      if IsPrefix(pat, s) {
        ReplaceAllKeepsAbsent(s[|pat|..], pat, rep, c);
      } else {
        ReplaceAllKeepsAbsent(s[1..], pat, rep, c);
      }
    }
  }

  /** A string in which the pattern never occurs is left alone. */
  lemma {:induction false} ReplaceAllNowhere(s: string, pat: string, rep: string)
    requires |pat| > 0 && forall j :: !OccursAt(s, pat, j)
    ensures ReplaceAll(s, pat, rep) == s
    decreases |s|
  {
    if |s| >= |pat| {
      assert !OccursAt(s, pat, 0);
      forall j | 0 <= j
        ensures !OccursAt(s[1..], pat, j)
      {
        ShiftOccurs(s, 1, pat, j);
      }
      ReplaceAllNowhere(s[1..], pat, rep);
    }
  }

  /** `renderMarkdown(markdown)`; `None` stands for a value that is not a string. */
  function RenderMarkdown(markdown: Option<string>): (html: string)
    ensures markdown.None? || markdown == Some("") ==> html == ""
    ensures '\n' !in html
  {
    if markdown.None? || markdown.value == "" then ""
    else
      var items := ListBlock(ListItems(Inline(Headers(markdown.value))));
      var broken := LineBreaks(items);
      var wrapped := WrapParagraph(broken);
      assert '\n' !in wrapped;
      ReplaceAllKeepsAbsent(wrapped, "<p></p>", "", '\n');
      ReplaceAllKeepsAbsent(ReplaceAll(wrapped, "<p></p>", ""), "<p><br></p>", "", '\n');
      Cleanup(wrapped)
  }

  // ---------------------------------------------------------------------------
  // Whole renderings

  /** Text that no pass of the renderer reacts to. */
  predicate Plain(s: string) {
    InlinePlain(s) && NoTerminator(s)
    && '#' !in s && '-' !in s && '•' !in s && '<' !in s
  }

  /** A single line the marker does not open is kept. */
  lemma MapLinesUntouched(s: string, marker: string, tag: string)
    requires NoTerminator(s) && !IsPrefix(marker, s)
    ensures MapLines(s, marker, tag) == s
  {
  }

  /** A single line that does not open with `#` has no header. */
  lemma HeadersKeep(s: string)
    requires NoTerminator(s) && (|s| == 0 || s[0] != '#')
    ensures Headers(s) == s
  {
    MapLinesUntouched(s, "### ", "h3");
    MapLinesUntouched(s, "## ", "h2");
    MapLinesUntouched(s, "# ", "h1");
  }

  /** A single line that does not open with a bullet is no list item. */
  lemma ListItemsKeep(s: string)
    requires NoTerminator(s) && (|s| == 0 || (s[0] != '*' && s[0] != '-' && s[0] != '•'))
    ensures ListItems(s) == s
  {
    MapLinesUntouched(s, "* ", "li");
    MapLinesUntouched(s, "- ", "li");
    MapLinesUntouched(s, "• ", "li");
  }

  /** Without any `<li>` nothing is wrapped. */
  lemma ListBlockKeep(s: string)
    requires forall j :: !OccursAt(s, "<li>", j)
    ensures ListBlock(s) == s
  {
  }

  /** A pattern whose first character is missing occurs nowhere. */
  lemma NowhereWithoutFirst(s: string, pat: string)
    requires |pat| > 0 && pat[0] !in s
    ensures forall j :: !OccursAt(s, pat, j)
  {
    forall j | 0 <= j && j + |pat| <= |s|
      ensures !OccursAt(s, pat, j)
    {
      assert s[j..j + |pat|][0] == s[j] != pat[0];
    }
  }

  /** Text without newlines passes the line-break passes unchanged. */
  lemma LineBreaksKeep(s: string)
    requires '\n' !in s
    ensures LineBreaks(s) == s
  {
    ReplaceAllAbsent(s, "\n\n", "</p><p>");
    ReplaceAllAbsent(s, "\n", "<br>");
  }

  /** Every pass before the paragraph wrap leaves plain text alone. */
  lemma PassesKeepPlain(x: string)
    requires Plain(x)
    ensures LineBreaks(ListBlock(ListItems(Inline(Headers(x))))) == x
  {
    HeadersKeep(x);
    InlineAbsent(x);
    ListItemsKeep(x);
    NowhereWithoutFirst(x, "<li>");
    ListBlockKeep(x);
    LineBreaksKeep(x);
  }

  /** A `<` that a plain string does not hold can only come from the markup around it. */
  lemma PlainNoOpen(x: string, j: int)
    requires Plain(x) && 0 <= j < |x|
    ensures x[j] != '<'
  {
  }

  /** No empty paragraph lies inside a paragraph of plain text. */
  lemma ParagraphCleanup(x: string)
    requires Plain(x) && x != ""
    ensures Cleanup("<p>" + x + "</p>") == "<p>" + x + "</p>"
  {
    var p := "<p>" + x + "</p>";
    forall j, pat | pat in ["<p></p>", "<p><br></p>"] && 0 <= j && j + |pat| <= |p|
      ensures !OccursAt(p, pat, j)
    {
      if j == 0 {
        PlainNoOpen(x, 0);
        assert p[j..j + |pat|][3] == x[0] != pat[3];
      } else if j < 3 {
        assert p[j..j + |pat|][0] == p[j] != '<';
      } else {
        PlainNoOpen(x, j - 3);
        assert p[j..j + |pat|][0] == x[j - 3] != '<';
      }
    }
    ReplaceAllNowhere(p, "<p></p>", "");
    ReplaceAllNowhere(p, "<p><br></p>", "");
  }

  /** A line of plain text renders as one paragraph holding exactly that text. */
  lemma PlainTextIsParagraph(x: string)
    requires Plain(x) && x != ""
    ensures RenderMarkdown(Some(x)) == "<p>" + x + "</p>"
  {
    PassesKeepPlain(x);
    RenderAfterPasses(x, x);
    NotContainsWithoutFirst(x, "<h1>");
    NotContainsWithoutFirst(x, "<h2>");
    NotContainsWithoutFirst(x, "<h3>");
    NotContainsWithoutFirst(x, "<ul>");
    assert WrapParagraph(x) == "<p>" + x + "</p>";
    ParagraphCleanup(x);
  }

  /** Where an `h3` header of plain text can hold a `<`. */
  lemma HeaderOpens(x: string, j: nat)
    requires Plain(x) && j < |Element("h3", x)| && Element("h3", x)[j] == '<'
    ensures j == 0 || j == |x| + 4
    ensures Element("h3", x)[j + 1] == if j == 0 then 'h' else '/'
  {
    var h := Element("h3", x);
    assert h == "<h3>" + x + "</h3>";
    assert forall k :: 4 <= k < |x| + 4 ==> h[k] == x[k - 4];
  }

  /** No pattern opening with `<` followed by `l` or `p` occurs in an `h3` header of plain text. */
  lemma HeaderNowhere(x: string, pat: string)
    requires Plain(x) && |pat| >= 2 && pat[0] == '<' && (pat[1] == 'l' || pat[1] == 'p')
    ensures forall j :: !OccursAt(Element("h3", x), pat, j)
  {
    var h := Element("h3", x);
    forall j | 0 <= j && j + |pat| <= |h|
      ensures !OccursAt(h, pat, j)
    {
      if h[j] == '<' {
        HeaderOpens(x, j);
        assert h[j..j + |pat|][1] == h[j + 1] != pat[1];
      } else {
        assert h[j..j + |pat|][0] == h[j] != pat[0];
      }
    }
  }

  /** An `h3` header of plain text is itself one line the inline passes do not touch. */
  lemma HeaderPlain(x: string)
    requires Plain(x)
    ensures InlinePlain(Element("h3", x)) && NoTerminator(Element("h3", x))
  {
    var h := Element("h3", x);
    assert h == "<h3>" + x + "</h3>";
  }

  /** An `h3` header of plain text meets none of the passes after the header passes. */
  lemma HeaderPassesOn(x: string)
    requires Plain(x)
    ensures LineBreaks(ListBlock(ListItems(Inline(Element("h3", x))))) == Element("h3", x)
  {
    var h := Element("h3", x);
    HeaderPlain(x);
    InlineAbsent(h);
    ListItemsKeep(h);
    HeaderNowhere(x, "<li>");
    ListBlockKeep(h);
    LineBreaksKeep(h);
  }

  /** An `h3` header holds no empty paragraph. */
  lemma HeaderCleanup(x: string)
    requires Plain(x)
    ensures Cleanup(Element("h3", x)) == Element("h3", x)
  {
    var h := Element("h3", x);
    HeaderNowhere(x, "<p></p>");
    ReplaceAllNowhere(h, "<p></p>", "");
    HeaderNowhere(x, "<p><br></p>");
    ReplaceAllNowhere(h, "<p><br></p>", "");
  }

  /** A `### x` line renders as an `h3` header, and the header keeps the paragraph wrap away. */
  lemma HeaderIsNotWrapped(x: string)
    requires Plain(x)
    ensures RenderMarkdown(Some("### " + x)) == Element("h3", x)
  {
    var h := Element("h3", x);
    HeaderLevels(x);
    HeaderPassesOn(x);
    assert LineBreaks(ListBlock(ListItems(Inline(Headers("### " + x))))) == h;
    RenderAfterPasses("### " + x, h);
    HeaderNotWrapped(x);
    HeaderCleanup(x);
  }

  /** A header is a block, so the paragraph wrap leaves it as it is. */
  lemma HeaderNotWrapped(x: string)
    ensures WrapParagraph(Element("h3", x)) == Element("h3", x)
  {
    var h := Element("h3", x);
    assert IsPrefix("<h3>", h);
    assert Contains(h, "<h3>");
  }

  /** What the render of a nonempty text is once the passes before the paragraph wrap are known. */
  lemma RenderAfterPasses(m: string, passed: string)
    requires m != "" && LineBreaks(ListBlock(ListItems(Inline(Headers(m))))) == passed
    ensures RenderMarkdown(Some(m)) == Cleanup(WrapParagraph(passed))
  {
  }

  // ---------------------------------------------------------------------------
  // Writing into the page

  /** The id of the renderer's style element in the document head. */
  const StylesId := "markdown-styles"

  /** The declarations `addMarkdownStyles` appends to the element's inline style. */
  const ElementStyle := "\n            font-family: -apple-system, BlinkMacSystemFont, 'Segoe UI', Roboto, sans-serif;\n            line-height: 1.6;\n            color: #333;\n        "

  /** The page's `document.head`, as the ids of the style elements it holds. */
  class Document {
    var headStyleIds: seq<string>

    constructor (ids: seq<string>)
      ensures headStyleIds == ids
    {
      headStyleIds := ids;
    }
  }

  /** An element the chat renders into. */
  class Target {
    var innerHTML: string
    var cssText: string

    constructor ()
      ensures innerHTML == "" && cssText == ""
    {
      innerHTML := "";
      cssText := "";
    }
  }

  /** The head after the once-only insertion of lines 166-169. */
  function WithStyles(ids: seq<string>): (r: seq<string>)
    ensures StylesId in r
    ensures multiset(r)[StylesId] == if StylesId in ids then multiset(ids)[StylesId] else 1
    ensures forall x :: x != StylesId ==> multiset(r)[x] == multiset(ids)[x]
    ensures |ids| <= |r| && r[..|ids|] == ids
  {
    if StylesId in ids then ids else ids + [StylesId]
  }

  /** Inserting twice is inserting once. */
  lemma WithStylesIdempotent(ids: seq<string>)
    ensures WithStyles(WithStyles(ids)) == WithStyles(ids)
  {
  }

  /** A head holding at most one style element of that id holds exactly one afterwards. */
  lemma WithStylesAtMostOnce(ids: seq<string>)
    requires multiset(ids)[StylesId] <= 1
    ensures multiset(WithStyles(ids))[StylesId] == 1
  {
  }

  /** `addMarkdownStyles(element)` (lines 83-170). */
  method AddMarkdownStyles(doc: Document, element: Target)
    modifies doc, element
    ensures element.cssText == old(element.cssText) + ElementStyle
    ensures element.innerHTML == old(element.innerHTML)
    ensures doc.headStyleIds == WithStyles(old(doc.headStyleIds))
  {
    element.cssText := element.cssText + ElementStyle;
    if StylesId !in doc.headStyleIds {
      doc.headStyleIds := doc.headStyleIds + [StylesId];
    }
  }

  /** `renderToElement(element, markdown)` (lines 72-80): nothing happens without an element. */
  method RenderToElement(doc: Document, element: Target?, markdown: Option<string>)
    modifies doc, element
    ensures element == null ==> doc.headStyleIds == old(doc.headStyleIds)
    ensures element != null ==> element.innerHTML == RenderMarkdown(markdown)
    ensures element != null ==> element.cssText == old(element.cssText) + ElementStyle
    ensures element != null ==> doc.headStyleIds == WithStyles(old(doc.headStyleIds))
  {
    if element == null {
      return;
    }
    element.innerHTML := RenderMarkdown(markdown);
    AddMarkdownStyles(doc, element);
  }
}
