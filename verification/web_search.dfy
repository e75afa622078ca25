/** The `web_search` tool (src/tools/web-search.ts): percent-encoding of the
    query, redirect-link decoding, HTML text clean-up, the bounded result
    collection and the reply shapes. Percent-encoding follows
    `encodeURIComponent` and `decodeURIComponent` (sections 19.2.6.5 and
    19.2.6.6 of ECMA-262, UTF-8 as in RFC 3629). */
module WebSearch {
  import opened Wrappers
  import opened JsText

  // ---------------------------------------------------------------------
  // Percent-encoding

  /** The value of a hexadecimal digit of either case. */
  function HexValue(c: char): (r: Option<nat>)
    ensures r.Some? ==> r.value < 16
  {
    if '0' <= c <= '9' then Some(c as int - '0' as int)
    else if 'A' <= c <= 'F' then Some(c as int - 'A' as int + 10)
    else if 'a' <= c <= 'f' then Some(c as int - 'a' as int + 10)
    else None
  }

  /** The upper-case hexadecimal digit of `d`. */
  function HexDigit(d: nat): (c: char)
    requires d < 16
    ensures HexValue(c) == Some(d)
  {
    if d < 10 then ('0' as int + d) as char else ('A' as int + d - 10) as char
  }

  /** `%XY` for one byte. */
  function EscapeByte(b: nat): (r: string)
    requires b < 256
    ensures |r| == 3
  {
    ['%', HexDigit(b / 16), HexDigit(b % 16)]
  }

  function Escape(bytes: seq<nat>): (r: string)
    requires forall i :: 0 <= i < |bytes| ==> bytes[i] < 256
    ensures |r| == 3 * |bytes|
  {
    if bytes == [] then [] else EscapeByte(bytes[0]) + Escape(bytes[1..])
  }

  /** The characters `encodeURIComponent` leaves as they are. */
  predicate Unreserved(c: char) {
    ('A' <= c <= 'Z') || ('a' <= c <= 'z') || ('0' <= c <= '9') ||
    c == '-' || c == '_' || c == '.' || c == '!' || c == '~' || c == '*' || c == '\'' || c == '(' || c == ')'
  }

  /** The UTF-8 bytes of a code point. */
  function Utf8(cp: nat): (bytes: seq<nat>)
    requires cp < 0x11_0000
    ensures 1 <= |bytes| <= 4 && forall i :: 0 <= i < |bytes| ==> bytes[i] < 256
  {
    if cp < 0x80 then [cp]
    else if cp < 0x800 then [0xC0 + cp / 64, 0x80 + cp % 64]
    else if cp < 0x1_0000 then [0xE0 + cp / 4096, 0x80 + (cp / 64) % 64, 0x80 + cp % 64]
    else [0xF0 + cp / 262144, 0x80 + (cp / 4096) % 64, 0x80 + (cp / 64) % 64, 0x80 + cp % 64]
  }

  function EncodeChar(c: char): string {
    if Unreserved(c) then [c] else Escape(Utf8(c as int))
  }

  /** `encodeURIComponent(s)` */
  function Encode(s: string): (r: string)
    ensures |r| >= |s|
  {
    if s == [] then [] else EncodeChar(s[0]) + Encode(s[1..])
  }

  /** The byte written as `%XY` at the start of `s`. */
  function Octet(s: string): (r: Option<nat>)
    ensures r.Some? ==> r.value < 256 && |s| >= 3
  {
    if |s| >= 3 && s[0] == '%' && HexValue(s[1]).Some? && HexValue(s[2]).Some?
    then Some(16 * HexValue(s[1]).value + HexValue(s[2]).value)
    else None
  }

  /** `count` escaped continuation bytes (`10xxxxxx`) at the start of `s`. */
  function Continuations(s: string, count: nat): (r: Option<seq<nat>>)
    ensures r.Some? ==> |r.value| == count && |s| >= 3 * count
    ensures r.Some? ==> forall i :: 0 <= i < count ==> 0x80 <= r.value[i] < 0xC0
    decreases count
  {
    if count == 0 then Some([])
    else match Octet(s)
      case None => None
      case Some(b) =>
        if !(0x80 <= b < 0xC0) then None
        else match Continuations(s[3..], count - 1)
          case None => None
          case Some(rest) => Some([b] + rest)
  }

  /** The number of leading one bits of a byte at or above 0x80. */
  function LeadingOnes(b: nat): nat {
    if b < 0xC0 then 1 else if b < 0xE0 then 2 else if b < 0xF0 then 3 else if b < 0xF8 then 4 else 5
  }

  /** The code point of a lead byte and its continuation bytes. */
  function Combine(b: nat, cs: seq<nat>): (cp: int)
    requires 0xC0 <= b < 0xF8 && |cs| == LeadingOnes(b) - 1
    requires forall i :: 0 <= i < |cs| ==> 0x80 <= cs[i] < 0xC0
    ensures 0 <= cp < 0x20_0000
    ensures |cs| == 1 ==> cp < 0x800
    ensures |cs| == 2 ==> cp < 0x1_0000
  {
    if |cs| == 1 then (b - 0xC0) * 64 + (cs[0] - 0x80)
    else if |cs| == 2 then (b - 0xE0) * 4096 + (cs[0] - 0x80) * 64 + (cs[1] - 0x80)
    else (b - 0xF0) * 262144 + (cs[0] - 0x80) * 4096 + (cs[1] - 0x80) * 64 + (cs[2] - 0x80)
  }

  /** Not overlong, not a surrogate, not beyond U+10FFFF. */
  predicate WellFormedUtf8(n: nat, cp: int) {
    (n == 2 && cp >= 0x80) ||
    (n == 3 && cp >= 0x800 && (cp < 0xD800 || cp >= 0xE000)) ||
    (n == 4 && 0x1_0000 <= cp < 0x11_0000)
  }

  function Prepend(c: char, r: Option<string>): Option<string> {
    match r
    case None => None
    case Some(t) => Some([c] + t)
  }

  /** `decodeURIComponent(s)`; `None` for a URIError. */
  function Decode(s: string): Option<string>
    decreases |s|
  {
    if s == [] then Some([])
    else if s[0] != '%' then Prepend(s[0], Decode(s[1..]))
    else match Octet(s)
      case None => None
      case Some(b) =>
        if b < 0x80 then Prepend(b as char, Decode(s[3..]))
        else
          var n := LeadingOnes(b);
          if n == 1 || n > 4 then None
          else match Continuations(s[3..], n - 1)
            case None => None
            case Some(cs) =>
              var cp := Combine(b, cs);
              if WellFormedUtf8(n, cp) then Prepend(cp as char, Decode(s[3 * n..])) else None
  }

  lemma OctetOf(b: nat, rest: string)
    requires b < 256
    ensures Octet(EscapeByte(b) + rest) == Some(b)
    ensures (EscapeByte(b) + rest)[3..] == rest
  {
    var s := EscapeByte(b) + rest;
    assert s[1] == HexDigit(b / 16) && s[2] == HexDigit(b % 16);
  }

  lemma {:induction false} ContinuationsOf(cs: seq<nat>, rest: string)
    requires forall i :: 0 <= i < |cs| ==> 0x80 <= cs[i] < 0xC0
    ensures Continuations(Escape(cs) + rest, |cs|) == Some(cs)
    ensures |Escape(cs)| == 3 * |cs|
  {
    if cs != [] {
      assert Escape(cs) == EscapeByte(cs[0]) + Escape(cs[1..]);
      AppendAssoc(EscapeByte(cs[0]), Escape(cs[1..]), rest);
      OctetOf(cs[0], Escape(cs[1..]) + rest);
      ContinuationsOf(cs[1..], rest);
      assert [cs[0]] + cs[1..] == cs;
    }
  }

  /** An escaped lead byte and its continuation bytes decode to the code
      point they combine to. */
  lemma DecodeMultiByte(b: nat, cs: seq<nat>, rest: string)
    requires 0xC0 <= b < 0xF8 && |cs| == LeadingOnes(b) - 1
    requires forall i :: 0 <= i < |cs| ==> 0x80 <= cs[i] < 0xC0
    requires WellFormedUtf8(|cs| + 1, Combine(b, cs))
    ensures Decode(Escape([b] + cs) + rest) == Prepend(Combine(b, cs) as char, Decode(rest))
  {
    EscapedParts(b, cs, rest);
  }

  /** The escaped lead byte, the escaped continuation bytes and the rest. */
  lemma EscapedParts(b: nat, cs: seq<nat>, rest: string)
    requires b < 256 && forall i :: 0 <= i < |cs| ==> 0x80 <= cs[i] < 0xC0
    ensures var s := Escape([b] + cs) + rest;
      s != [] && s[0] == '%' && Octet(s) == Some(b) &&
      Continuations(s[3..], |cs|) == Some(cs) && s[3 * (|cs| + 1)..] == rest
  {
    var x := Escape([b] + cs);
    assert ([b] + cs)[0] == b && ([b] + cs)[1..] == cs;
    assert x == EscapeByte(b) + Escape(cs);
    AppendAssoc(EscapeByte(b), Escape(cs), rest);
    OctetOf(b, Escape(cs) + rest);
    ContinuationsOf(cs, rest);
    DropPrefix(x, rest);
  }

  lemma DropPrefix(x: string, rest: string)
    ensures (x + rest)[|x|..] == rest
  {
  }

  lemma Utf8Two(cp: nat)
    requires 0x80 <= cp < 0x800
    ensures Utf8(cp) == [0xC0 + cp / 64] + [0x80 + cp % 64]
    ensures LeadingOnes(0xC0 + cp / 64) == 2 && Combine(0xC0 + cp / 64, [0x80 + cp % 64]) == cp
  {
  }

  lemma Utf8Three(cp: nat)
    requires 0x800 <= cp < 0x1_0000
    ensures var cs := [0x80 + (cp / 64) % 64, 0x80 + cp % 64];
      Utf8(cp) == [0xE0 + cp / 4096] + cs &&
      LeadingOnes(0xE0 + cp / 4096) == 3 && Combine(0xE0 + cp / 4096, cs) == cp
  {
    assert cp / 64 == (cp / 4096) * 64 + (cp / 64) % 64;
  }

  lemma Utf8Four(cp: nat)
    requires 0x1_0000 <= cp < 0x11_0000
    ensures var cs := [0x80 + (cp / 4096) % 64, 0x80 + (cp / 64) % 64, 0x80 + cp % 64];
      Utf8(cp) == [0xF0 + cp / 262144] + cs &&
      LeadingOnes(0xF0 + cp / 262144) == 4 && Combine(0xF0 + cp / 262144, cs) == cp
  {
    assert cp / 64 == (cp / 4096) * 64 + (cp / 64) % 64;
    assert cp / 4096 == (cp / 262144) * 64 + (cp / 4096) % 64;
  }

  /** The escaped UTF-8 bytes of a character decode back to it. */
  lemma DecodeEscaped(c: char, rest: string)
    ensures Decode(Escape(Utf8(c as int)) + rest) == Prepend(c, Decode(rest))
  {
    var cp := c as int;
    if cp < 0x80 {
      DecodeEscapedOne(c, rest);
    } else if cp < 0x800 {
      DecodeEscapedTwo(c, rest);
    } else if cp < 0x1_0000 {
      DecodeEscapedThree(c, rest);
    } else {
      DecodeEscapedFour(c, rest);
    }
  }

  lemma DecodeEscapedOne(c: char, rest: string)
    requires c as int < 0x80
    ensures Decode(Escape(Utf8(c as int)) + rest) == Prepend(c, Decode(rest))
  {
    var cp := c as int;
    assert [cp][1..] == [];
    assert Escape([cp]) == EscapeByte(cp);
    OctetOf(cp, rest);
  }

  lemma DecodeEscapedTwo(c: char, rest: string)
    requires 0x80 <= c as int < 0x800
    ensures Decode(Escape(Utf8(c as int)) + rest) == Prepend(c, Decode(rest))
  {
    var cp := c as int;
    Utf8Two(cp);
    DecodeMultiByte(0xC0 + cp / 64, [0x80 + cp % 64], rest);
  }

  lemma DecodeEscapedThree(c: char, rest: string)
    requires 0x800 <= c as int < 0x1_0000
    ensures Decode(Escape(Utf8(c as int)) + rest) == Prepend(c, Decode(rest))
  {
    var cp := c as int;
    Utf8Three(cp);
    DecodeMultiByte(0xE0 + cp / 4096, [0x80 + (cp / 64) % 64, 0x80 + cp % 64], rest);
  }

  lemma DecodeEscapedFour(c: char, rest: string)
    requires 0x1_0000 <= c as int
    ensures Decode(Escape(Utf8(c as int)) + rest) == Prepend(c, Decode(rest))
  {
    var cp := c as int;
    Utf8Four(cp);
    DecodeMultiByte(0xF0 + cp / 262144, [0x80 + (cp / 4096) % 64, 0x80 + (cp / 64) % 64, 0x80 + cp % 64], rest);
  }

  /** Decoding undoes encoding. */
  lemma {:induction false} DecodeEncode(s: string)
    ensures Decode(Encode(s)) == Some(s)
  {
    if s != [] {
      var c := s[0];
      var rest := Encode(s[1..]);
      DecodeEncode(s[1..]);
      if Unreserved(c) {
        assert ([c] + rest)[1..] == rest;
      } else {
        DecodeEscaped(c, rest);
      }
      assert [c] + s[1..] == s;
    }
  }

  /** The output of `Encode` consists of unreserved characters, `%` and
      upper-case hexadecimal digits; in particular it has no `&`. */
  lemma {:induction false} EncodeAlphabet(s: string)
    ensures forall c :: c in Encode(s) ==> Unreserved(c) || c == '%'
    ensures '&' !in Encode(s)
  {
    if s != [] {
      EncodeAlphabet(s[1..]);
      if !Unreserved(s[0]) {
        EscapeAlphabet(Utf8(s[0] as int));
      }
    }
  }

  lemma {:induction false} EscapeAlphabet(bytes: seq<nat>)
    requires forall i :: 0 <= i < |bytes| ==> bytes[i] < 256
    ensures forall c :: c in Escape(bytes) ==> Unreserved(c) || c == '%'
  {
    if bytes != [] {
      EscapeAlphabet(bytes[1..]);
    }
  }

  // ---------------------------------------------------------------------
  // Redirect links

  /** `/uddg=([^&]+)/` matches at the start of `s`. */
  predicate UddgAt(s: string) {
    |s| > 5 && s[..5] == "uddg=" && s[5] != '&'
  }

  /** The longest prefix without `&`. */
  function TakeValue(s: string): (r: string)
    ensures '&' !in r && |r| <= |s| && r == s[..|r|]
    ensures |r| == |s| || s[|r|] == '&'
  {
    if s == [] || s[0] == '&' then [] else [s[0]] + TakeValue(s[1..])
  }

  /** The capture of the first match of `/uddg=([^&]+)/`. */
  function FindUddg(s: string): (r: Option<string>)
    ensures r.Some? ==> r.value != [] && '&' !in r.value
    decreases |s|
  {
    if |s| < 6 then None
    else if UddgAt(s) then Some(TakeValue(s[5..]))
    else FindUddg(s[1..])
  }

  /** The message of the URIError that `decodeURIComponent` throws under
      Bun, whose engine is JavaScriptCore. */
  const URI_ERROR: string := "URI error"

  /** `extractUrl(href)`: the decoded redirect target, the link itself when
      it has no `uddg=` value, or the URIError. */
  function ExtractUrl(href: string): Result<string> {
    match FindUddg(href)
    case None => Ok(href)
    case Some(v) =>
      match Decode(v)
      case None => Fail(URI_ERROR)
      case Some(u) => Ok(u)
  }

  lemma {:induction false} FindUddgSkip(p: string, x: string)
    requires forall i :: 0 <= i < |p| ==> !UddgAt((p + x)[i..])
    ensures FindUddg(p + x) == FindUddg(x)
  {
    if p != [] {
      assert (p + x)[0..] == p + x;
      assert (p + x)[1..] == p[1..] + x;
      forall i | 0 <= i < |p| - 1
        ensures !UddgAt((p[1..] + x)[i..])
      {
        assert (p[1..] + x)[i..] == (p + x)[i + 1..];
      }
      FindUddgSkip(p[1..], x);
    } else {
      assert p + x == x;
    }
  }

  lemma {:induction false} TakeValueAt(v: string, t: string)
    requires '&' !in v
    ensures TakeValue(v + "&" + t) == v
  {
    if v != [] {
      assert (v + "&" + t)[1..] == v[1..] + "&" + t;
      TakeValueAt(v[1..], t);
      assert [v[0]] + v[1..] == v;
    }
  }

  const REDIRECT_PREFIX: string := "//duckduckgo.com/l/?"

  /** No match starts inside the redirect path. */
  lemma PrefixSkip(x: string)
    ensures FindUddg(REDIRECT_PREFIX + x) == FindUddg(x)
  {
    var p := REDIRECT_PREFIX;
    forall i | 0 <= i < |p|
      ensures !UddgAt((p + x)[i..])
    {
      assert (p + x)[i] == p[i];
      if p[i] == 'u' {
        assert (p + x)[i + 1] == p[i + 1];
      }
    }
    FindUddgSkip(p, x);
  }

  lemma FindValue(e: string, t: string)
    requires e != [] && '&' !in e
    ensures FindUddg("uddg=" + e + "&" + t) == Some(e)
  {
    var x := "uddg=" + e + "&" + t;
    assert x[..5] == "uddg=" && x[5] == e[0];
    assert x[5..] == e + "&" + t;
    TakeValueAt(e, t);
  }

  /** A search engine redirect link carrying an encoded URL yields that
      URL. */
  lemma ExtractRedirect(u: string, t: string)
    requires u != []
    ensures ExtractUrl(REDIRECT_PREFIX + ("uddg=" + Encode(u) + "&" + t)) == Ok(u)
  {
    var e := Encode(u);
    EncodeAlphabet(u);
    var x := "uddg=" + e + "&" + t;
    PrefixSkip(x);
    FindValue(e, t);
    DecodeEncode(u);
  }

  /** A link without a `uddg=` value is returned unchanged. */
  lemma ExtractDirect(href: string)
    requires forall i :: 0 <= i < |href| ==> !UddgAt(href[i..])
    ensures ExtractUrl(href) == Ok(href)
  {
    assert href + [] == href;
    FindUddgSkip(href, []);
  }

  // ---------------------------------------------------------------------
  // HTML text

  /** `s.replace(/<[^>]*>/g, '')`: every `<` that has a `>` after it starts
      a tag that ends at the first such `>`. */
  function RemoveTags(s: string): string
    decreases |s|
  {
    if s == [] then []
    else if s[0] == '<' && '>' in s then RemoveTags(s[IndexOf(s, '>') + 1..])
    else [s[0]] + RemoveTags(s[1..])
  }

  /** Tag removal only drops characters. */
  lemma {:induction false} RemoveTagsSubset(s: string)
    ensures forall c :: c in RemoveTags(s) ==> c in s
    decreases |s|
  {
    if s == [] {
    } else if s[0] == '<' && '>' in s {
      var k := IndexOf(s, '>') + 1;
      RemoveTagsSubset(s[k..]);
      assert RemoveTags(s) == RemoveTags(s[k..]);
      forall c | c in RemoveTags(s)
        ensures c in s
      {
        assert c in s[k..];
        var j :| 0 <= j < |s[k..]| && s[k..][j] == c;
        assert s[k + j] == c;
      }
    } else {
      RemoveTagsSubset(s[1..]);
    }
  }

  /** Every `<` of `r` has no `>` after it. */
  predicate Unclosed(r: string) {
    forall i :: 0 <= i < |r| && r[i] == '<' ==> '>' !in r[i + 1..]
  }

  /** No `<` is left that a later `>` would close. */
  lemma {:induction false} RemoveTagsUnclosed(s: string)
    ensures Unclosed(RemoveTags(s))
    decreases |s|
  {
    if s == [] {
    } else if s[0] == '<' && '>' in s {
      RemoveTagsUnclosed(s[IndexOf(s, '>') + 1..]);
    } else {
      var rest := RemoveTags(s[1..]);
      var r := [s[0]] + rest;
      RemoveTagsUnclosed(s[1..]);
      RemoveTagsSubset(s[1..]);
      forall i | 0 <= i < |r| && r[i] == '<'
        ensures '>' !in r[i + 1..]
      {
        assert r[i + 1..] == rest[i..];
        if i == 0 {
          assert '>' !in s[1..];
          assert '>' !in rest;
        } else {
          assert rest[i - 1] == '<';
          assert Unclosed(rest);
        }
      }
    }
  }

  /** Text without `<` is left alone. */
  lemma {:induction false} RemoveTagsPlain(s: string)
    requires '<' !in s
    ensures RemoveTags(s) == s
    decreases |s|
  {
    if s != [] {
      RemoveTagsPlain(s[1..]);
      assert [s[0]] + s[1..] == s;
    }
  }

  /** The entity decoding applied after tag removal, in the source's order. */
  function DecodeEntities(s: string): string {
    var a := ReplaceAll(s, "&amp;", "&");
    var b := ReplaceAll(a, "&lt;", "<");
    var c := ReplaceAll(b, "&gt;", ">");
    var d := ReplaceAll(c, "&quot;", "\"");
    var e := ReplaceAll(d, "&#x27;", "'");
    ReplaceAll(e, "&nbsp;", " ")
  }

  /** `stripHtml(html)` */
  function StripHtml(html: string): string {
    Trim(DecodeEntities(RemoveTags(html)))
  }

  /** The cleaned text has no white space at either end, and text without
      `<` or `&` is only trimmed. */
  lemma StripHtmlSpec(s: string)
    ensures var r := StripHtml(s); r == [] || (!IsSpace(r[0]) && !IsSpace(r[|r| - 1]))
    ensures '<' !in s && '&' !in s ==> StripHtml(s) == Trim(s)
  {
    TrimEdges(DecodeEntities(RemoveTags(s)));
    if '<' !in s && '&' !in s {
      RemoveTagsPlain(s);
      EntitiesAbsent(s);
    }
  }

  /** The last four replacements leave text without `&` alone. */
  lemma EntitiesAbsentAfterLt(s: string)
    requires '&' !in s
    ensures ReplaceAll(ReplaceAll(ReplaceAll(ReplaceAll(s, "&gt;", ">"), "&quot;", "\""), "&#x27;", "'"), "&nbsp;", " ") == s
  {
    ReplaceAllAbsent(s, "&gt;", ">");
    ReplaceAllAbsent(s, "&quot;", "\"");
    ReplaceAllAbsent(s, "&#x27;", "'");
    ReplaceAllAbsent(s, "&nbsp;", " ");
  }

  /** Entity decoding leaves text without `&` alone. */
  lemma EntitiesAbsent(s: string)
    requires '&' !in s
    ensures DecodeEntities(s) == s
  {
    ReplaceAllAbsent(s, "&amp;", "&");
    ReplaceAllAbsent(s, "&lt;", "<");
    ReplaceAllAbsent(s, "&gt;", ">");
    ReplaceAllAbsent(s, "&quot;", "\"");
    ReplaceAllAbsent(s, "&#x27;", "'");
    ReplaceAllAbsent(s, "&nbsp;", " ");
  }

  lemma ReplaceAtStart(pat: string, rep: string, rest: string)
    requires pat != []
    ensures ReplaceAll(pat + rest, pat, rep) == rep + ReplaceAll(rest, pat, rep)
  {
    assert (pat + rest)[..|pat|] == pat && (pat + rest)[|pat|..] == rest;
  }

  lemma DecodeDoubleEscape(s: string)
    requires s == "&amp;" + "lt;"
    ensures DecodeEntities(s) == "<"
  {
    ReplaceAtStart("&amp;", "&", "lt;");
    ReplaceAllAbsent("lt;", "&amp;", "&");
    var a := ReplaceAll(s, "&amp;", "&");
    assert a == "&lt;" + [];
    ReplaceAtStart("&lt;", "<", []);
    var b := ReplaceAll(a, "&lt;", "<");
    assert b == "<";
    EntitiesAbsentAfterLt(b);
  }

  /** `&amp;` is decoded first, so an escaped entity is decoded twice. */
  lemma StripDoubleEscape(s: string)
    requires s == "&amp;lt;"
    ensures StripHtml(s) == "<"
  {
    assert s == "&amp;" + "lt;";
    RemoveTagsPlain(s);
    assert RemoveTags(s) == s;
    DecodeDoubleEscape(s);
    TrimOfTrimmed("<");
  }

  // ---------------------------------------------------------------------
  // Result collection

  /** One match of the result pattern: the raw link, title and snippet. */
  datatype RawMatch = RawMatch(href: string, title: string, snippet: string)

  datatype SearchResult = SearchResult(title: string, url: string, snippet: string)

  /** A result with a title and a URL. */
  predicate Complete(r: SearchResult) {
    r.title != [] && r.url != []
  }

  /** What one match contributes: nothing when its title or URL is empty,
      the URIError when its link does not decode. */
  type Conversion = Result<Option<SearchResult>>

  predicate Sound(c: Conversion) {
    c.Ok? && c.value.Some? ==> Complete(c.value.value)
  }

  /** The body of the loop of `parseResults` for one match. */
  function Convert(m: RawMatch): (c: Conversion)
    ensures Sound(c)
  {
    match ExtractUrl(m.href)
    case Fail(e) => Fail(e)
    case Ok(url) =>
      var title := StripHtml(m.title);
      if title != [] && url != [] then Ok(Some(SearchResult(title, url, StripHtml(m.snippet))))
      else Ok(None)
  }

  function MapMatches(convert: RawMatch -> Conversion, ms: seq<RawMatch>): seq<Conversion> {
    seq(|ms|, i requires 0 <= i < |ms| => convert(ms[i]))
  }

  /** Every match converted. */
  function Conversions(ms: seq<RawMatch>): seq<Conversion> {
    MapMatches(Convert, ms)
  }

  function Piece(r: Option<SearchResult>): seq<SearchResult> {
    if r.Some? then [r.value] else []
  }

  /** Every conversion made, in order, without a bound. */
  function Kept(cs: seq<Conversion>): Result<seq<SearchResult>> {
    if cs == [] then Ok([])
    else match cs[0]
      case Fail(e) => Fail(e)
      case Ok(r) =>
        match Kept(cs[1..])
        case Fail(e) => Fail(e)
        case Ok(rest) => Ok(Piece(r) + rest)
  }

  /** The loop of `parseResults` from the state `acc`: it stops when the
      matches run out or `max` results are collected. */
  function Collect(cs: seq<Conversion>, max: int, acc: seq<SearchResult>): Result<seq<SearchResult>>
    decreases |cs|
  {
    if cs == [] || |acc| >= max then Ok(acc)
    else match cs[0]
      case Fail(e) => Fail(e)
      case Ok(r) => Collect(cs[1..], max, acc + Piece(r))
  }

  /** The loop of `parseResults`, with `convert` standing for its body
      for one match. */
  method CollectMatches(ms: seq<RawMatch>, max: int, convert: RawMatch -> Conversion) returns (r: Result<seq<SearchResult>>)
    ensures r == Collect(MapMatches(convert, ms), max, [])
  {
    ghost var cs := MapMatches(convert, ms);
    var results: seq<SearchResult> := [];
    var i := 0;
    while i < |ms| && |results| < max
      invariant 0 <= i <= |ms|
      invariant Collect(cs[i..], max, results) == Collect(cs, max, [])
    {
      var c := convert(ms[i]);
      assert cs[i..][0] == c && cs[i..][1..] == cs[i + 1..];
      if c.Fail? {
        return Fail(c.message);
      }
      ghost var next := results + Piece(c.value);
      assert Collect(cs[i..], max, results) == Collect(cs[i + 1..], max, next);
      if c.value.Some? {
        results := results + [c.value.value];
      }
      assert results == next;
      i := i + 1;
    }
    assert cs == cs[0..];
    r := Ok(results);
  }

  /** `parseResults(html, max)` over the pattern's matches. */
  method ParseResults(ms: seq<RawMatch>, max: int) returns (r: Result<seq<SearchResult>>)
    ensures r == Collect(Conversions(ms), max, [])
  {
    r := CollectMatches(ms, max, Convert);
  }

  lemma {:induction false} CollectSpec(cs: seq<Conversion>, max: int, acc: seq<SearchResult>)
    requires forall j :: 0 <= j < |cs| ==> Sound(cs[j])
    requires forall j :: 0 <= j < |acc| ==> Complete(acc[j])
    requires |acc| <= max || cs == []
    ensures Collect(cs, max, acc).Ok? ==>
      var rs := Collect(cs, max, acc).value;
      (|rs| <= max || rs == acc) &&
      (forall j :: 0 <= j < |rs| ==> Complete(rs[j])) &&
      exists k :: 0 <= k <= |cs| && Kept(cs[..k]).Ok? && rs == acc + Kept(cs[..k]).value &&
        (|rs| < max ==> k == |cs|)
    decreases |cs|
  {
    if cs == [] || |acc| >= max {
      assert cs[..0] == [];
      assert acc + [] == acc;
    } else if cs[0].Ok? {
      var acc' := acc + Piece(cs[0].value);
      CollectSpec(cs[1..], max, acc');
      if Collect(cs, max, acc).Ok? {
        var rs := Collect(cs, max, acc).value;
        var k :| 0 <= k <= |cs[1..]| && Kept(cs[1..][..k]).Ok? && rs == acc' + Kept(cs[1..][..k]).value &&
          (|rs| < max ==> k == |cs[1..]|);
        KeptCons(cs, k);
        AppendAssoc(acc, Piece(cs[0].value), Kept(cs[1..][..k]).value);
        assert rs == acc + Kept(cs[..k + 1]).value;
        if |rs| < max {
          assert cs[..k + 1] == cs;
        }
      }
    }
  }

  /** The kept results of a longer prefix. */
  lemma KeptCons(cs: seq<Conversion>, k: nat)
    requires k < |cs| && cs[0].Ok? && Kept(cs[1..][..k]).Ok?
    ensures Kept(cs[..k + 1]) == Ok(Piece(cs[0].value) + Kept(cs[1..][..k]).value)
  {
    var pre := cs[..k + 1];
    assert pre[0] == cs[0] && pre[1..] == cs[1..][..k];
  }

  lemma CollectFromStart(cs: seq<Conversion>, max: int)
    requires forall j :: 0 <= j < |cs| ==> Sound(cs[j])
    ensures Collect(cs, max, []).Ok? ==>
      var rs := Collect(cs, max, []).value;
      (max <= 0 ==> rs == []) && (max > 0 ==> |rs| <= max) &&
      (forall j :: 0 <= j < |rs| ==> Complete(rs[j])) &&
      exists k :: 0 <= k <= |cs| && Kept(cs[..k]) == Ok(rs) && (|rs| < max ==> k == |cs|)
  {
    if max <= 0 {
      assert cs[..0] == [];
    } else {
      CollectSpec(cs, max, []);
      if Collect(cs, max, []).Ok? {
        var rs := Collect(cs, max, []).value;
        var k :| 0 <= k <= |cs| && Kept(cs[..k]).Ok? && rs == [] + Kept(cs[..k]).value && (|rs| < max ==> k == |cs|);
        assert [] + Kept(cs[..k]).value == Kept(cs[..k]).value;
      }
    }
  }

  /** `parseResults` returns at most `max` results (none when `max` is not
      positive), each with a title and a URL, in the order of the matches:
      the kept results of a prefix of the matches, all of them when fewer
      than `max` were found. */
  lemma ParseResultsSpec(ms: seq<RawMatch>, max: int)
    ensures var cs := Conversions(ms);
      Collect(cs, max, []).Ok? ==>
      var rs := Collect(cs, max, []).value;
      (max <= 0 ==> rs == []) && (max > 0 ==> |rs| <= max) &&
      (forall j :: 0 <= j < |rs| ==> Complete(rs[j])) &&
      exists k :: 0 <= k <= |ms| && Kept(cs[..k]) == Ok(rs) && (|rs| < max ==> k == |ms|)
  {
    var cs := Conversions(ms);
    forall j | 0 <= j < |cs|
      ensures Sound(cs[j])
    {
      assert cs[j] == Convert(ms[j]);
    }
    CollectFromStart(cs, max);
  }

  // ---------------------------------------------------------------------
  // The tool

  /** A JavaScript number. */
  datatype JsNumber = Finite(value: real) | PosInfinity | NegInfinity | NaN

  /** `Math.min(x, 10)` */
  function MinTen(x: JsNumber): JsNumber {
    match x
    case Finite(v) => Finite(if v < 10.0 then v else 10.0)
    case PosInfinity => Finite(10.0)
    case NegInfinity => NegInfinity
    case NaN => NaN
  }

  /** `n < x` for a count `n`. */
  predicate CountBelow(n: nat, x: JsNumber) {
    match x
    case Finite(v) => (n as real) < v
    case PosInfinity => true
    case NegInfinity => false
    case NaN => false
  }

  /** `max = Math.min(max_results ?? 5, 10)` as the number of results the
      loop's test `results.length < max` lets through: a count passes the
      test exactly when it is below the result, so a fractional `max` is
      rounded up and `NaN` lets nothing through. */
  function MaxCount(maxResults: Option<JsNumber>): (r: nat)
    ensures r <= 10
    ensures maxResults.None? ==> r == 5
    ensures forall n: nat :: n < r <==> CountBelow(n, MinTen(maxResults.GetOr(Finite(5.0))))
  {
    var max := MinTen(maxResults.GetOr(Finite(5.0)));
    if max.Finite? && max.value > 0.0 then
      var f := max.value.Floor;
      if f as real == max.value then f else f + 1
    else 0
  }

  const SEARCH_ENDPOINT: string := "https://html.duckduckgo.com/html/?q="

  function SearchUrl(query: string): string {
    SEARCH_ENDPOINT + Encode(query)
  }

  /** The query is recovered from the request URL. */
  lemma SearchUrlQuery(query: string)
    ensures StartsWith(SearchUrl(query), SEARCH_ENDPOINT)
    ensures Decode(SearchUrl(query)[|SEARCH_ENDPOINT|..]) == Some(query)
  {
    assert SearchUrl(query)[|SEARCH_ENDPOINT|..] == Encode(query);
    DecodeEncode(query);
  }

  /** What `fetch` gives back: a failure, or a response with its status and
      the pattern's matches in its body. */
  datatype FetchOutcome = NetworkError(message: string) | Response(ok: bool, status: int, matches: seq<RawMatch>)

  datatype SearchReply = NoResults(message: string, query: string) | Found(query: string, results: seq<SearchResult>)

  const FAILED: string := "Web search failed: "
  const HTTP_ERROR: string := "DuckDuckGo returned HTTP "
  const NO_RESULTS: string := "No results found"

  /** `execute({ query, max_results })` with the request made by `fetch`. */
  function Execute(query: string, maxResults: Option<JsNumber>, fetch: string -> FetchOutcome): Result<SearchReply> {
    match fetch(SearchUrl(query))
    case NetworkError(m) => Fail(FAILED + m)
    case Response(ok, status, ms) =>
      if !ok then Fail(FAILED + HTTP_ERROR + IntToString(status))
      else match Collect(Conversions(ms), MaxCount(maxResults), [])
        case Fail(m) => Fail(FAILED + m)
        case Ok(rs) =>
          if rs == [] then Ok(NoResults(NO_RESULTS, query)) else Ok(Found(query, rs))
  }

  /** A successful search lists between one and `min(max_results ?? 5, 10)`
      complete results, or says that nothing was found; every failure is
      reported with the same prefix. */
  lemma ExecuteSpec(query: string, maxResults: Option<JsNumber>, fetch: string -> FetchOutcome)
    ensures var r := Execute(query, maxResults, fetch);
      (r.Ok? && r.value.Found? ==>
        r.value.query == query && 1 <= |r.value.results| <= MaxCount(maxResults) &&
        forall j :: 0 <= j < |r.value.results| ==> Complete(r.value.results[j])) &&
      (r.Ok? && r.value.NoResults? ==> r.value == NoResults(NO_RESULTS, query)) &&
      (r.Fail? ==> StartsWith(r.message, FAILED))
  {
    var r := Execute(query, maxResults, fetch);
    var o := fetch(SearchUrl(query));
    if o.Response? && o.ok {
      ParseResultsSpec(o.matches, MaxCount(maxResults));
    }
    if r.Fail? {
      assert r.message[..|FAILED|] == FAILED;
    }
  }

  /** A response other than OK fails with its status, whatever the body. */
  lemma ExecuteHttpError(query: string, maxResults: Option<JsNumber>, fetch: string -> FetchOutcome)
    requires fetch(SearchUrl(query)).Response? && !fetch(SearchUrl(query)).ok
    ensures Execute(query, maxResults, fetch) ==
      Fail(FAILED + HTTP_ERROR + IntToString(fetch(SearchUrl(query)).status))
  {
  }
}
