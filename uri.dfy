/**
 * encodeURIComponent and decodeURIComponent as ECMA-262 defines them (UTF-8
 * percent escapes), and query strings as URLSearchParams reads them.
 */
module Uri {
  import opened Common

  /** The characters encodeURIComponent leaves as they are. */
  predicate Unreserved(c: char) {
    ('A' <= c <= 'Z') || ('a' <= c <= 'z') || ('0' <= c <= '9') ||
    c in "-_.!~*'()"
  }

  function HexDigit(d: nat): (c: char)
    requires d < 16
    ensures Unreserved(c)
  {
    if d < 10 then ('0' as int + d) as char else ('A' as int + d - 10) as char
  }

  /** The value of one hexadecimal digit, either case. */
  function HexValue(c: char): (r: Option<nat>)
    ensures r.Some? ==> r.value < 16
  {
    if '0' <= c <= '9' then Some(c as int - '0' as int)
    else if 'A' <= c <= 'F' then Some(c as int - 'A' as int + 10)
    else if 'a' <= c <= 'f' then Some(c as int - 'a' as int + 10)
    else None
  }

  /** The UTF-8 bytes of one Unicode scalar value. */
  function Utf8(c: char): (bytes: seq<nat>)
    ensures 1 <= |bytes| <= 4
    ensures forall i :: 0 <= i < |bytes| ==> bytes[i] < 256
  {
    var n := c as int;
    if n < 0x80 then [n]
    else if n < 0x800 then [0xC0 + n / 64, 0x80 + n % 64]
    else if n < 0x10000 then [0xE0 + n / 4096, 0x80 + (n / 64) % 64, 0x80 + n % 64]
    else [0xF0 + n / 262144, 0x80 + (n / 4096) % 64, 0x80 + (n / 64) % 64, 0x80 + n % 64]
  }

  function PercentBytes(bytes: seq<nat>): (r: string)
    requires forall i :: 0 <= i < |bytes| ==> bytes[i] < 256
    ensures |r| == 3 * |bytes|
  {
    if bytes == [] then []
    else Escape(bytes[0]) + PercentBytes(bytes[1..])
  }

  /** Escapes are written with '%' and hexadecimal digits only. */
  lemma {:induction false} PercentBytesSafe(bytes: seq<nat>)
    requires forall i :: 0 <= i < |bytes| ==> bytes[i] < 256
    ensures forall i :: 0 <= i < |PercentBytes(bytes)| ==> PercentBytes(bytes)[i] == '%' || Unreserved(PercentBytes(bytes)[i])
  {
    if bytes != [] {
      PercentBytesSafe(bytes[1..]);
    }
  }

  function EncodeChar(c: char): (r: string)
    ensures |r| > 0
    ensures forall i :: 0 <= i < |r| ==> r[i] == '%' || Unreserved(r[i])
  {
    if Unreserved(c) then [c] else PercentBytesSafe(Utf8(c)); PercentBytes(Utf8(c))
  }

  /**
   * `encodeURIComponent(s)`: the unreserved characters stay, every other
   * character becomes the %XX escapes of its UTF-8 bytes.
   */
  function EncodeURIComponent(s: string): (r: string)
    ensures |r| >= |s|
    ensures forall i :: 0 <= i < |r| ==> r[i] == '%' || Unreserved(r[i])
  {
    if s == [] then [] else EncodeChar(s[0]) + EncodeURIComponent(s[1..])
  }

  /** A string of unreserved characters is its own encoding. */
  lemma {:induction false} EncodeUnreserved(s: string)
    requires forall i :: 0 <= i < |s| ==> Unreserved(s[i])
    ensures EncodeURIComponent(s) == s
  {
    if s != [] {
      EncodeUnreserved(s[1..]);
    }
  }

  // ---------------------------------------------------------------------------
  // decodeURIComponent

  /** The byte written by a `%XY` escape at the start of `s`. */
  function EscapedByte(s: string): (r: Option<nat>)
    ensures r.Some? ==> |s| >= 3 && s[0] == '%' && r.value < 256
  {
    if |s| >= 3 && s[0] == '%' && HexValue(s[1]).Some? && HexValue(s[2]).Some? then
      Some(16 * HexValue(s[1]).value + HexValue(s[2]).value)
    else None
  }

  /** `count` continuation bytes (10xxxxxx), their six bits each appended to `acc`. */
  function Continuation(s: string, count: nat, acc: nat): (r: Option<nat>)
    ensures r.Some? ==> |s| >= 3 * count
    decreases count
  {
    if count == 0 then Some(acc)
    else match EscapedByte(s)
      case None => None
      case Some(b) =>
        if 0x80 <= b < 0xC0 then Continuation(s[3..], count - 1, acc * 64 + (b - 0x80)) else None
  }

  /** A leading byte of a multi-byte sequence: how many continuation bytes follow, and its own bits. */
  function LeadByte(b: nat): (nat, nat) {
    if 0xC0 <= b < 0xE0 then (1, b - 0xC0)
    else if 0xE0 <= b < 0xF0 then (2, b - 0xE0)
    else if 0xF0 <= b < 0xF8 then (3, b - 0xF0)
    else (0, 0)
  }

  /** The smallest code point a sequence with `count` continuation bytes may encode. */
  function MinScalar(count: nat): nat {
    if count == 1 then 0x80 else if count == 2 then 0x800 else 0x10000
  }

  predicate IsScalar(n: int) {
    0 <= n < 0xD800 || 0xE000 <= n < 0x110000
  }

  function Prepend(c: char, r: Option<string>): (p: Option<string>)
    ensures p.Some? == r.Some?
  {
    if r.Some? then Some([c] + r.value) else None
  }

  /**
   * `decodeURIComponent(s)`; `None` stands for the URIError it throws on a
   * malformed escape or an invalid UTF-8 sequence (overlong, surrogate, out of
   * range).
   */
  function DecodeURIComponent(s: string): (r: Option<string>)
    decreases |s|
  {
    if s == [] then Some([])
    else if s[0] != '%' then Prepend(s[0], DecodeURIComponent(s[1..]))
    else match EscapedByte(s)
      case None => None
      case Some(b) =>
        if b < 0x80 then Prepend(b as char, DecodeURIComponent(s[3..]))
        else
          var (count, bits) := LeadByte(b);
          if count == 0 then None
          else match Continuation(s[3..], count, bits)
            case None => None
            case Some(n) =>
              if MinScalar(count) <= n && IsScalar(n) then
                Prepend(n as char, DecodeURIComponent(s[3 + 3 * count..]))
              else None
  }

  /** Text without a '%' decodes to itself. */
  lemma {:induction false} DecodePlain(s: string)
    requires '%' !in s
    ensures DecodeURIComponent(s) == Some(s)
  {
    if s != [] {
      assert s[0] in s && [s[0]] + s[1..] == s;
      DecodePlain(s[1..]);
    }
  }

  /** A '%' that does not start two hexadecimal digits makes decodeURIComponent throw. */
  lemma DecodeBarePercent(a: string, b: string)
    requires '%' !in a && (|b| < 2 || HexValue(b[0]).None? || HexValue(b[1]).None?)
    ensures DecodeURIComponent(a + "%" + b) == None
    decreases |a|
  {
    if a != [] {
      assert (a + "%" + b)[1..] == a[1..] + "%" + b;
      DecodeBarePercent(a[1..], b);
    } else {
      assert a + "%" + b == "%" + b;
    }
  }

  /** Text without a '%' in front of `s` passes through the decoder unchanged. */
  lemma {:induction false} DecodeAfterPlain(a: string, s: string)
    requires '%' !in a
    ensures DecodeURIComponent(a + s) ==
      (if DecodeURIComponent(s).Some? then Some(a + DecodeURIComponent(s).value) else None)
    decreases |a|
  {
    if a == [] {
      assert a + s == s;
      if DecodeURIComponent(s).Some? {
        assert a + DecodeURIComponent(s).value == DecodeURIComponent(s).value;
      }
    } else {
      assert a[0] in a;
      assert (a + s)[0] == a[0] && (a + s)[1..] == a[1..] + s;
      DecodeAfterPlain(a[1..], s);
      assert [a[0]] + a[1..] == a;
      if DecodeURIComponent(s).Some? {
        assert [a[0]] + (a[1..] + DecodeURIComponent(s).value) == a + DecodeURIComponent(s).value;
      }
    }
  }

  /** The escape `%25` decodes to a literal '%'. */
  lemma DecodeEscapedPercent(s: string)
    ensures DecodeURIComponent("%25" + s) == Prepend('%', DecodeURIComponent(s))
  {
    var t := "%25" + s;
    assert t[0] == '%' && t[1] == '2' && t[2] == '5' && t[3..] == s;
    assert EscapedByte(t) == Some(0x25);
  }

  /** A string holding one `%25` and no other '%' decodes to the same string with a bare '%'. */
  lemma DecodeOnePercent(a: string, b: string)
    requires '%' !in a && '%' !in b
    ensures DecodeURIComponent(a + "%25" + b) == Some(a + "%" + b)
  {
    DecodePlain(b);
    DecodeEscapedPercent(b);
    assert a + "%25" + b == a + ("%25" + b);
    DecodeAfterPlain(a, "%25" + b);
    assert a + ("%" + b) == a + "%" + b;
  }

  lemma HexRoundTrip(d: nat)
    requires d < 16
    ensures HexValue(HexDigit(d)) == Some(d)
  {
  }

  /** The first escape written by PercentBytes reads back as its byte. */
  lemma EscapesAt(bytes: seq<nat>, t: string)
    requires |bytes| >= 1 && forall i :: 0 <= i < |bytes| ==> bytes[i] < 256
    ensures EscapedByte(PercentBytes(bytes) + t) == Some(bytes[0])
    ensures (PercentBytes(bytes) + t)[3..] == PercentBytes(bytes[1..]) + t
  {
    var b, r := bytes[0], PercentBytes(bytes[1..]);
    var s := PercentBytes(bytes) + t;
    PercentBytesHead(bytes);
    ThreeAhead(PercentBytes(bytes), Escape(b), r, t);
    EscapeRead(s, b);
  }

  /** The three characters `%XY` that write the byte `b`. */
  function Escape(b: nat): (e: string)
    requires b < 256
    ensures |e| == 3 && e[0] == '%'
  {
    ['%', HexDigit(b / 16), HexDigit(b % 16)]
  }

  lemma PercentBytesHead(bytes: seq<nat>)
    requires |bytes| >= 1 && forall i :: 0 <= i < |bytes| ==> bytes[i] < 256
    ensures PercentBytes(bytes) == Escape(bytes[0]) + PercentBytes(bytes[1..])
  {
  }

  /** A string that opens with an escape keeps it in its first three characters. */
  lemma ThreeAhead(p: string, e: string, r: string, t: string)
    requires |e| == 3 && p == e + r
    ensures |p + t| >= 3 && (p + t)[..3] == e && (p + t)[3..] == r + t
  {
    assert p + t == e + (r + t);
  }

  lemma EscapeRead(s: string, b: nat)
    requires b < 256 && |s| >= 3 && s[..3] == Escape(b)
    ensures EscapedByte(s) == Some(b)
  {
    HexPair(b);
    assert s[1] == s[..3][1] && s[2] == s[..3][2];
    HexRoundTrip(b / 16);
    HexRoundTrip(b % 16);
  }

  lemma HexPair(b: nat)
    requires b < 256
    ensures b / 16 < 16 && 16 * (b / 16) + b % 16 == b
  {
  }

  /** One continuation byte read off the front of `s`. */
  lemma ContinuationStep(s: string, b: nat, count: nat, acc: nat)
    requires EscapedByte(s) == Some(b) && 0x80 <= b < 0xC0 && count >= 1
    ensures Continuation(s, count, acc) == Continuation(s[3..], count - 1, acc * 64 + (b - 0x80))
  {
  }

  lemma TwoByteArith(n: int)
    requires 0x80 <= n < 0x800
    ensures 0xC2 <= 0xC0 + n / 64 < 0xE0 && (n / 64) * 64 + n % 64 == n
  {
  }

  lemma ThreeByteArith(n: int)
    requires 0x800 <= n < 0x10000
    ensures 0xE0 <= 0xE0 + n / 4096 < 0xF0
    ensures ((n / 4096) * 64 + (n / 64) % 64) * 64 + n % 64 == n
  {
    var q := n / 64;
    assert n == q * 64 + n % 64;
    assert q == (q / 64) * 64 + q % 64;
    assert q / 64 == n / 4096;
  }

  lemma FourByteArith(n: int)
    requires 0x10000 <= n < 0x110000
    ensures 0xF0 <= 0xF0 + n / 262144 < 0xF8
    ensures (((n / 262144) * 64 + (n / 4096) % 64) * 64 + (n / 64) % 64) * 64 + n % 64 == n
  {
    var q := n / 64;
    assert n == q * 64 + n % 64;
    var q2 := q / 64;
    assert q == q2 * 64 + q % 64;
    assert q2 == n / 4096;
    assert q2 == (q2 / 64) * 64 + q2 % 64;
    assert q2 / 64 == n / 262144;
  }

  /** One step of decodeURIComponent on an escape below 0x80. */
  lemma DecodeSingle(u: string, b: nat, t: string)
    requires EscapedByte(u) == Some(b) && b < 0x80 && u[3..] == t
    ensures DecodeURIComponent(u) == Prepend(b as char, DecodeURIComponent(t))
  {
  }

  /** One step of decodeURIComponent on a multi-byte sequence. */
  lemma DecodeMulti(u: string, b: nat, count: nat, bits: nat, n: nat, t: string)
    requires EscapedByte(u) == Some(b) && 0x80 <= b && LeadByte(b) == (count, bits) && count >= 1
    requires Continuation(u[3..], count, bits) == Some(n) && MinScalar(count) <= n && IsScalar(n)
    requires u[3 + 3 * count..] == t
    ensures DecodeURIComponent(u) == Prepend(n as char, DecodeURIComponent(t))
  {
  }

  /** A two-byte sequence `s0`, `s1` in front of `t`. */
  lemma DecodeTwo(s0: string, s1: string, t: string, b0: nat, b1: nat)
    requires EscapedByte(s0) == Some(b0) && s0[3..] == s1
    requires EscapedByte(s1) == Some(b1) && s1[3..] == t
    requires 0xC0 <= b0 < 0xE0 && 0x80 <= b1 < 0xC0
    requires 0x80 <= (b0 - 0xC0) * 64 + (b1 - 0x80)
    ensures DecodeURIComponent(s0) == Prepend(((b0 - 0xC0) * 64 + (b1 - 0x80)) as char, DecodeURIComponent(t))
  {
    ContinuationStep(s1, b1, 1, b0 - 0xC0);
    assert s0[6..] == s0[3..][3..];
    DecodeMulti(s0, b0, 1, b0 - 0xC0, (b0 - 0xC0) * 64 + (b1 - 0x80), t);
  }

  /** A three-byte sequence `s0`, `s1`, `s2` in front of `t`. */
  lemma DecodeThree(s0: string, s1: string, s2: string, t: string, b0: nat, b1: nat, b2: nat)
    requires EscapedByte(s0) == Some(b0) && s0[3..] == s1
    requires EscapedByte(s1) == Some(b1) && s1[3..] == s2
    requires EscapedByte(s2) == Some(b2) && s2[3..] == t
    requires 0xE0 <= b0 < 0xF0 && 0x80 <= b1 < 0xC0 && 0x80 <= b2 < 0xC0
    requires var n := ((b0 - 0xE0) * 64 + (b1 - 0x80)) * 64 + (b2 - 0x80); 0x800 <= n && IsScalar(n)
    ensures DecodeURIComponent(s0) ==
      Prepend((((b0 - 0xE0) * 64 + (b1 - 0x80)) * 64 + (b2 - 0x80)) as char, DecodeURIComponent(t))
  {
    var a1 := (b0 - 0xE0) * 64 + (b1 - 0x80);
    ContinuationStep(s1, b1, 2, b0 - 0xE0);
    ContinuationStep(s2, b2, 1, a1);
    assert s0[9..] == s0[3..][3..][3..];
    DecodeMulti(s0, b0, 2, b0 - 0xE0, a1 * 64 + (b2 - 0x80), t);
  }

  /** A four-byte sequence `s0` … `s3` in front of `t`. */
  lemma DecodeFour(s0: string, s1: string, s2: string, s3: string, t: string, b0: nat, b1: nat, b2: nat, b3: nat)
    requires EscapedByte(s0) == Some(b0) && s0[3..] == s1
    requires EscapedByte(s1) == Some(b1) && s1[3..] == s2
    requires EscapedByte(s2) == Some(b2) && s2[3..] == s3
    requires EscapedByte(s3) == Some(b3) && s3[3..] == t
    requires 0xF0 <= b0 < 0xF8 && 0x80 <= b1 < 0xC0 && 0x80 <= b2 < 0xC0 && 0x80 <= b3 < 0xC0
    requires var n := (((b0 - 0xF0) * 64 + (b1 - 0x80)) * 64 + (b2 - 0x80)) * 64 + (b3 - 0x80);
      0x10000 <= n && IsScalar(n)
    ensures DecodeURIComponent(s0) ==
      Prepend(((((b0 - 0xF0) * 64 + (b1 - 0x80)) * 64 + (b2 - 0x80)) * 64 + (b3 - 0x80)) as char, DecodeURIComponent(t))
  {
    var a1 := (b0 - 0xF0) * 64 + (b1 - 0x80);
    var a2 := a1 * 64 + (b2 - 0x80);
    ContinuationStep(s1, b1, 3, b0 - 0xF0);
    ContinuationStep(s2, b2, 2, a1);
    ContinuationStep(s3, b3, 1, a2);
    assert s0[12..] == s0[3..][3..][3..][3..];
    DecodeMulti(s0, b0, 3, b0 - 0xF0, a2 * 64 + (b3 - 0x80), t);
  }

  lemma EncodeTwo(c: char, t: string)
    requires 0x80 <= c as int < 0x800
    ensures DecodeURIComponent(PercentBytes(Utf8(c)) + t) == Prepend(c, DecodeURIComponent(t))
  {
    var n := c as int;
    var bytes := Utf8(c);
    TwoByteArith(n);
    assert bytes == [0xC0 + n / 64, 0x80 + n % 64];
    EscapesAt(bytes, t);
    EscapesAt(bytes[1..], t);
    assert bytes[1..][1..] == [];
    DecodeTwo(PercentBytes(bytes) + t, PercentBytes(bytes[1..]) + t, t, bytes[0], bytes[1]);
  }

  lemma EncodeThree(c: char, t: string)
    requires 0x800 <= c as int < 0x10000
    ensures DecodeURIComponent(PercentBytes(Utf8(c)) + t) == Prepend(c, DecodeURIComponent(t))
  {
    var n := c as int;
    var bytes := Utf8(c);
    ThreeByteArith(n);
    assert bytes == [0xE0 + n / 4096, 0x80 + (n / 64) % 64, 0x80 + n % 64];
    EscapesAt(bytes, t);
    EscapesAt(bytes[1..], t);
    EscapesAt(bytes[2..], t);
    assert bytes[1..][1..] == bytes[2..] && bytes[2..][1..] == [];
    DecodeThree(PercentBytes(bytes) + t, PercentBytes(bytes[1..]) + t, PercentBytes(bytes[2..]) + t, t,
      bytes[0], bytes[1], bytes[2]);
  }

  lemma EncodeFour(c: char, t: string)
    requires 0x10000 <= c as int
    ensures DecodeURIComponent(PercentBytes(Utf8(c)) + t) == Prepend(c, DecodeURIComponent(t))
  {
    var n := c as int;
    var bytes := Utf8(c);
    FourByteArith(n);
    assert bytes == [0xF0 + n / 262144, 0x80 + (n / 4096) % 64, 0x80 + (n / 64) % 64, 0x80 + n % 64];
    EscapesAt(bytes, t);
    EscapesAt(bytes[1..], t);
    EscapesAt(bytes[2..], t);
    EscapesAt(bytes[3..], t);
    assert bytes[1..][1..] == bytes[2..] && bytes[2..][1..] == bytes[3..] && bytes[3..][1..] == [];
    DecodeFour(PercentBytes(bytes) + t, PercentBytes(bytes[1..]) + t, PercentBytes(bytes[2..]) + t,
      PercentBytes(bytes[3..]) + t, t, bytes[0], bytes[1], bytes[2], bytes[3]);
  }

  /** Decoding the encoding of one character gives that character back, whatever follows. */
  lemma DecodeEncodeChar(c: char, t: string)
    ensures DecodeURIComponent(EncodeChar(c) + t) == Prepend(c, DecodeURIComponent(t))
  {
    var n := c as int;
    if Unreserved(c) {
      var u := EncodeChar(c) + t;
      assert u[0] == c && u[1..] == t;
    } else if n < 0x80 {
      EscapesAt([n], t);
      assert [n][1..] == [];
      DecodeSingle(PercentBytes([n]) + t, n, t);
    } else if n < 0x800 {
      EncodeTwo(c, t);
    } else if n < 0x10000 {
      EncodeThree(c, t);
    } else {
      EncodeFour(c, t);
    }
  }

  /** decodeURIComponent undoes encodeURIComponent on every string. */
  lemma {:induction false} DecodeEncode(s: string)
    ensures DecodeURIComponent(EncodeURIComponent(s)) == Some(s)
  {
    if s != [] {
      DecodeEncodeChar(s[0], EncodeURIComponent(s[1..]));
      DecodeEncode(s[1..]);
      assert [s[0]] + s[1..] == s;
    }
  }

  // ---------------------------------------------------------------------------
  // Query strings as URLSearchParams reads them

  /**
   * How URLSearchParams decodes one name or value: '+' stands for a space,
   * then the escapes are decoded. For malformed escapes the model keeps the
   * text as it was.
   */
  function FormDecode(raw: string): string {
    var spaced := ReplaceAll(raw, "+", " ");
    match DecodeURIComponent(spaced)
    case Some(x) => x
    case None => spaced
  }

  /** What encodeURIComponent wrote, URLSearchParams reads back unchanged. */
  lemma FormDecodeEncoded(s: string)
    ensures FormDecode(EncodeURIComponent(s)) == s
  {
    var e := EncodeURIComponent(s);
    EncodedIsQuerySafe(s);
    ReplaceAllAbsent(e, "+", " ");
    DecodeEncode(s);
  }

  /** One `name=value` piece: split at the first '=', or the whole piece with an empty value. */
  function ParsePair(piece: string): (string, string) {
    if '=' in piece then
      var k := IndexOf(piece, '=');
      (FormDecode(piece[..k]), FormDecode(piece[k + 1..]))
    else (FormDecode(piece), "")
  }

  /** The parameter list of pieces split on '&'; empty pieces are skipped. */
  function ParsePieces(pieces: seq<string>): Query {
    if pieces == [] then []
    else if pieces[0] == "" then ParsePieces(pieces[1..])
    else [ParsePair(pieces[0])] + ParsePieces(pieces[1..])
  }

  /** `new URLSearchParams(search)`: a leading '?' is dropped. */
  function ParseQuery(search: string): Query {
    var body := if |search| > 0 && search[0] == '?' then search[1..] else search;
    ParsePieces(SplitOn(body, '&'))
  }

  /** A parameter name the extension writes literally: unreserved characters only. */
  predicate PlainName(name: string) {
    |name| > 0 && forall i :: 0 <= i < |name| ==> Unreserved(name[i])
  }

  /** `name=` + encodeURIComponent(value) */
  function Piece(p: (string, string)): string {
    p.0 + "=" + EncodeURIComponent(p.1)
  }

  /** The pieces joined with '&'. */
  function BuildQuery(pairs: seq<(string, string)>): string
    requires |pairs| > 0
  {
    if |pairs| == 1 then Piece(pairs[0]) else Piece(pairs[0]) + "&" + BuildQuery(pairs[1..])
  }

  lemma PlainNameFacts(name: string)
    requires PlainName(name)
    ensures '&' !in name && '=' !in name && '+' !in name && '%' !in name
    ensures FormDecode(name) == name
  {
    assert forall i :: 0 <= i < |name| ==> name[i] !in "&=+%";
    ReplaceAllAbsent(name, "+", " ");
    DecodePlain(name);
  }

  lemma PieceRoundTrip(p: (string, string))
    requires PlainName(p.0)
    ensures '&' !in Piece(p) && Piece(p) != ""
    ensures ParsePair(Piece(p)) == p
  {
    var e := EncodeURIComponent(p.1);
    PlainNameFacts(p.0);
    EncodedIsQuerySafe(p.1);
    assert Piece(p) == p.0 + ['='] + e;
    SplitAtFirst(p.0, e, '=');
    FormDecodeEncoded(p.1);
  }

  /** URLSearchParams reads back exactly the pairs a query was built from. */
  lemma {:induction false} ParseBuildQuery(pairs: seq<(string, string)>)
    requires |pairs| > 0 && forall i :: 0 <= i < |pairs| ==> PlainName(pairs[i].0)
    ensures ParseQuery("?" + BuildQuery(pairs)) == pairs
  {
    var s := BuildQuery(pairs);
    assert ("?" + s)[1..] == s;
    ParsePiecesBuild(pairs);
  }

  lemma {:induction false} ParsePiecesBuild(pairs: seq<(string, string)>)
    requires |pairs| > 0 && forall i :: 0 <= i < |pairs| ==> PlainName(pairs[i].0)
    ensures ParsePieces(SplitOn(BuildQuery(pairs), '&')) == pairs
  {
    var first := Piece(pairs[0]);
    PieceRoundTrip(pairs[0]);
    if |pairs| == 1 {
      assert SplitOn(first, '&') == [first];
    } else {
      var rest := BuildQuery(pairs[1..]);
      assert BuildQuery(pairs) == first + ['&'] + rest;
      SplitOnConcat(first, rest, '&');
      var pieces := [first] + SplitOn(rest, '&');
      assert pieces[1..] == SplitOn(rest, '&');
      ParsePiecesBuild(pairs[1..]);
      assert ParsePieces(pieces) == [pairs[0]] + pairs[1..];
      assert [pairs[0]] + pairs[1..] == pairs;
    }
  }

  /** An encoded component cannot break a query apart: it holds no '&', '=', '#', '?' or '+'. */
  lemma EncodedIsQuerySafe(s: string)
    ensures '&' !in EncodeURIComponent(s) && '=' !in EncodeURIComponent(s)
    ensures '#' !in EncodeURIComponent(s) && '?' !in EncodeURIComponent(s)
    ensures '+' !in EncodeURIComponent(s)
  {
    var e := EncodeURIComponent(s);
    assert forall i :: 0 <= i < |e| ==> e[i] !in "&=#?+";
  }
}
