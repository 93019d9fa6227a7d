/**
 * Shared vocabulary for the model: optional values, the string operations the
 * extension's scripts rely on (String.prototype.includes, endsWith,
 * toLowerCase, split('/').pop(), Array.prototype.join, replace with a literal
 * pattern) and query-parameter lists as URLSearchParams keeps them.
 */
module Common {

  datatype Option<T> = None | Some(value: T)

  /** JavaScript truthiness of a value that is null, undefined or a string. */
  predicate Truthy(o: Option<string>) {
    o.Some? && o.value != ""
  }

  // ---------------------------------------------------------------------------
  // Substrings

  predicate IsPrefix(p: string, s: string) {
    |p| <= |s| && s[..|p|] == p
  }

  /** `s.includes(sub)` */
  predicate Contains(s: string, sub: string)
    decreases |s|
  {
    IsPrefix(sub, s) || (|s| > 0 && Contains(s[1..], sub))
  }

  /** A string contains nothing longer than itself. */
  lemma {:induction false} ContainsLength(s: string, sub: string)
    requires Contains(s, sub)
    ensures |sub| <= |s|
    decreases |s|
  {
    if !IsPrefix(sub, s) {
      ContainsLength(s[1..], sub);
    }
  }

  /** `s.substring(0, n)` */
  function Take(s: string, n: nat): (r: string)
    ensures |r| == if |s| <= n then |s| else n
    ensures IsPrefix(r, s)
  {
    if |s| <= n then s else s[..n]
  }

  /** `s.endsWith(suf)` */
  predicate EndsWith(s: string, suf: string) {
    |suf| <= |s| && s[|s| - |suf|..] == suf
  }

  /** `sub` occurs in `s` starting at index `i`. */
  predicate OccursAt(s: string, sub: string, i: int) {
    0 <= i && i + |sub| <= |s| && s[i..i + |sub|] == sub
  }

  /** `s.includes(sub)` holds exactly when `sub` occurs at some index of `s`. */
  lemma {:induction false} ContainsIffOccurs(s: string, sub: string)
    ensures Contains(s, sub) <==> exists i :: OccursAt(s, sub, i)
    decreases |s|
  {
    if Contains(s, sub) {
      if IsPrefix(sub, s) {
        assert OccursAt(s, sub, 0);
      } else {
        ContainsIffOccurs(s[1..], sub);
        var i :| OccursAt(s[1..], sub, i);
        assert s[1..][i..i + |sub|] == s[i + 1..i + 1 + |sub|];
        assert OccursAt(s, sub, i + 1);
      }
    }
    if exists i :: OccursAt(s, sub, i) {
      var i :| OccursAt(s, sub, i);
      OccursAtContains(s, sub, i);
    }
  }

  lemma {:induction false} OccursAtContains(s: string, sub: string, i: nat)
    requires OccursAt(s, sub, i)
    ensures Contains(s, sub)
    decreases i
  {
    if i > 0 {
      assert s[1..][i - 1..i - 1 + |sub|] == s[i..i + |sub|];
      OccursAtContains(s[1..], sub, i - 1);
    } else {
      assert IsPrefix(sub, s);
    }
  }

  /** An occurrence in a part is an occurrence in the whole. */
  lemma ContainsInConcat(a: string, b: string, c: string, sub: string)
    requires Contains(b, sub)
    ensures Contains(a + b + c, sub)
  {
    ContainsIffOccurs(b, sub);
    var i :| OccursAt(b, sub, i);
    assert (a + b + c)[|a| + i..|a| + i + |sub|] == b[i..i + |sub|];
    OccursAtContains(a + b + c, sub, |a| + i);
  }

  lemma EndsWithContains(s: string, suf: string)
    requires EndsWith(s, suf)
    ensures Contains(s, suf)
  {
    assert OccursAt(s, suf, |s| - |suf|);
    OccursAtContains(s, suf, |s| - |suf|);
  }

  /** A string none of whose characters is the first character of `sub` does not contain `sub`. */
  lemma {:induction false} NotContainsWithoutFirst(s: string, sub: string)
    requires |sub| > 0 && sub[0] !in s
    ensures !Contains(s, sub)
    decreases |s|
  {
    if |s| > 0 {
      NotContainsWithoutFirst(s[1..], sub);
    }
  }

  // ---------------------------------------------------------------------------
  // Case, segments, joining

  /** `toLowerCase` on one character; only the ASCII letters are mapped. */
  function LowerChar(c: char): char {
    if 'A' <= c <= 'Z' then (c as int + 32) as char else c
  }

  function ToLower(s: string): (r: string)
    ensures |r| == |s|
    ensures forall i :: 0 <= i < |s| ==> r[i] == LowerChar(s[i])
  {
    if s == [] then [] else [LowerChar(s[0])] + ToLower(s[1..])
  }

  /** `s.split('/').pop()`: the part after the last '/', or all of `s`. */
  function LastSegment(s: string): (r: string)
    ensures '/' !in r
    ensures |r| <= |s| && r == s[|s| - |r|..]
    ensures |r| < |s| ==> s[|s| - |r| - 1] == '/'
  {
    if s == [] || s[|s| - 1] == '/' then []
    else
      var init := s[..|s| - 1];
      var r0 := LastSegment(init);
      assert r0 == s[|init| - |r0|..|init|];
      assert s[|s| - |r0| - 1..] == r0 + [s[|s| - 1]];
      r0 + [s[|s| - 1]]
  }

  /** The last segment of `dir/name` is `name` when `name` holds no '/'. */
  lemma LastSegmentOf(dir: string, name: string)
    requires '/' !in name
    ensures LastSegment(dir + "/" + name) == name
  {
    var s := dir + "/" + name;
    var r := LastSegment(s);
    assert s[|s| - |name| - 1] == '/';
    assert s[|s| - |name|..] == name;
    assert forall i :: 0 <= i < |name| ==> s[|s| - |name| + i] == name[i];
  }

  /** `parts.join(sep)` */
  function Join(parts: seq<string>, sep: string): string {
    if parts == [] then []
    else if |parts| == 1 then parts[0]
    else parts[0] + sep + Join(parts[1..], sep)
  }

  /** Every joined part is a substring of the result. */
  lemma {:induction false} JoinContainsEach(parts: seq<string>, sep: string, k: nat)
    requires k < |parts|
    ensures Contains(Join(parts, sep), parts[k])
  {
    if |parts| == 1 {
      assert OccursAt(parts[0], parts[0], 0);
      OccursAtContains(parts[0], parts[0], 0);
    } else if k == 0 {
      assert OccursAt(Join(parts, sep), parts[0], 0);
      OccursAtContains(Join(parts, sep), parts[0], 0);
    } else {
      JoinContainsEach(parts[1..], sep, k - 1);
      ContainsInConcat(parts[0] + sep, Join(parts[1..], sep), [], parts[k]);
      assert parts[0] + sep + Join(parts[1..], sep) + [] == Join(parts, sep);
    }
  }

  /** `s.replace(/pat/g, rep)` for a literal, non-empty pattern: left to right, non-overlapping. */
  function ReplaceAll(s: string, pat: string, rep: string): string
    requires |pat| > 0
    decreases |s|
  {
    if |s| < |pat| then s
    else if IsPrefix(pat, s) then rep + ReplaceAll(s[|pat|..], pat, rep)
    else [s[0]] + ReplaceAll(s[1..], pat, rep)
  }

  /** Replacing every one-character occurrence with text free of that character removes it. */
  lemma {:induction false} ReplaceAllRemovesChar(s: string, c: char, rep: string)
    requires c !in rep
    ensures c !in ReplaceAll(s, [c], rep)
    decreases |s|
  {
    if |s| >= 1 {
      ReplaceAllRemovesChar(s[1..], c, rep);
      if !IsPrefix([c], s) {
        assert s[0] != c;
      }
    }
  }

  /** A string without the pattern's first character is left alone. */
  lemma {:induction false} ReplaceAllAbsent(s: string, pat: string, rep: string)
    requires |pat| > 0 && pat[0] !in s
    ensures ReplaceAll(s, pat, rep) == s
    decreases |s|
  {
    if |s| >= |pat| {
      assert !IsPrefix(pat, s) by { assert s[0] != pat[0]; }
      ReplaceAllAbsent(s[1..], pat, rep);
    }
  }

  // ---------------------------------------------------------------------------
  // Polling

  /** The first index at which `s` holds, or `|s|` when it never does. */
  function FirstTrue(s: seq<bool>): (k: nat)
    ensures k <= |s|
    ensures forall j :: 0 <= j < k ==> !s[j]
    ensures k < |s| ==> s[k]
  {
    if s == [] || s[0] then 0 else 1 + FirstTrue(s[1..])
  }

  // ---------------------------------------------------------------------------
  // Decimal numbers

  function DigitChar(d: nat): char
    requires d < 10
  {
    "0123456789"[d]
  }

  predicate IsDigit(c: char) {
    '0' <= c <= '9'
  }

  /** `String(n)` for a natural number: its decimal digits, most significant first. */
  function NatToString(n: nat): (r: string)
    ensures |r| > 0
    ensures forall i :: 0 <= i < |r| ==> IsDigit(r[i])
  {
    if n < 10 then [DigitChar(n)] else NatToString(n / 10) + [DigitChar(n % 10)]
  }

  // ---------------------------------------------------------------------------
  // Query-parameter lists (URLSearchParams), in document order

  type Query = seq<(string, string)>

  /** `params.get(name)`: the first value stored under `name`, or null. */
  function Lookup(q: Query, name: string): Option<string> {
    if q == [] then None
    else if q[0].0 == name then Some(q[0].1)
    else Lookup(q[1..], name)
  }

  /** `params.has(name)` */
  predicate HasParam(q: Query, name: string) {
    exists i :: 0 <= i < |q| && q[i].0 == name
  }

  /** `get` finds a value exactly when `has` says the name is present. */
  lemma {:induction false} LookupFindsIffHas(q: Query, name: string)
    ensures Lookup(q, name).Some? <==> HasParam(q, name)
  {
    if q != [] && q[0].0 != name {
      LookupFindsIffHas(q[1..], name);
      if HasParam(q, name) {
        var i :| 0 <= i < |q| && q[i].0 == name;
        assert q[1..][i - 1].0 == name;
      }
      if HasParam(q[1..], name) {
        var i :| 0 <= i < |q[1..]| && q[1..][i].0 == name;
        assert q[i + 1].0 == name;
      }
    } else if q != [] {
      assert q[0].0 == name;
    }
  }

  function RemoveAll(q: Query, name: string): (r: Query)
    ensures forall i :: 0 <= i < |r| ==> r[i].0 != name
    ensures forall n :: n != name ==> Lookup(r, n) == Lookup(q, n)
  {
    if q == [] then []
    else if q[0].0 == name then RemoveAll(q[1..], name)
    else [q[0]] + RemoveAll(q[1..], name)
  }

  /** How many entries are stored under `name`. */
  function CountParam(q: Query, name: string): nat {
    if q == [] then 0
    else (if q[0].0 == name then 1 else 0) + CountParam(q[1..], name)
  }

  /**
   * `params.set(name, v)`: the first entry under `name` takes the value `v` and
   * every later one is dropped; with no entry, one is appended.
   */
  function SetParam(q: Query, name: string, v: string): (r: Query)
    ensures Lookup(r, name) == Some(v)
    ensures forall n :: n != name ==> Lookup(r, n) == Lookup(q, n)
    ensures CountParam(r, name) == 1
  {
    if q == [] then [(name, v)]
    else if q[0].0 == name then
      var rest := RemoveAll(q[1..], name);
      NoneLeft(rest, name);
      [(name, v)] + rest
    else [q[0]] + SetParam(q[1..], name, v)
  }

  lemma {:induction false} NoneLeft(q: Query, name: string)
    requires forall i :: 0 <= i < |q| ==> q[i].0 != name
    ensures CountParam(q, name) == 0
  {
    if q != [] {
      NoneLeft(q[1..], name);
    }
  }

  /** Index of the first `c` in `s`. */
  function IndexOf(s: string, c: char): (k: nat)
    requires c in s
    ensures k < |s| && s[k] == c && c !in s[..k]
  {
    if s[0] == c then 0 else 1 + IndexOf(s[1..], c)
  }

  /** `s.split(sep)` on one separator character. */
  function SplitOn(s: string, sep: char): (r: seq<string>)
    ensures |r| >= 1
    ensures forall i :: 0 <= i < |r| ==> sep !in r[i]
    decreases |s|
  {
    if sep !in s then [s]
    else
      var k := IndexOf(s, sep);
      [s[..k]] + SplitOn(s[k + 1..], sep)
  }

  lemma {:induction false} IndexOfAt(s: string, c: char, k: nat)
    requires k < |s| && s[k] == c && c !in s[..k]
    ensures IndexOf(s, c) == k
  {
    if k > 0 {
      assert s[0] in s[..k];
      assert s[1..][..k - 1] == s[1..k];
      IndexOfAt(s[1..], c, k - 1);
    }
  }

  /** In `a + [sep] + b` with no `sep` in `a`, the first `sep` is the one after `a`. */
  lemma SplitAtFirst(a: string, b: string, sep: char)
    requires sep !in a
    ensures sep in a + [sep] + b && IndexOf(a + [sep] + b, sep) == |a|
    ensures (a + [sep] + b)[..|a|] == a && (a + [sep] + b)[|a| + 1..] == b
  {
    var s := a + [sep] + b;
    assert s[|a|] == sep;
    assert s[..|a|] == a;
    IndexOfAt(s, sep, |a|);
    assert s[|a| + 1..] == b;
  }

  lemma SplitOnConcat(a: string, b: string, sep: char)
    requires sep !in a
    ensures SplitOn(a + [sep] + b, sep) == [a] + SplitOn(b, sep)
  {
    SplitAtFirst(a, b, sep);
  }
}
