/** Preset exports: printing them and finding Workshop links in text.
  *
  * `\d` matches every decimal digit Unicode knows, so the digit class is a parameter `nd`,
  * fixed only on ASCII; reading the digits as a `u64` accepts ASCII ones alone.
  */
module Preset {
  import opened Results
  import opened Decimal

  const LINK := "filedetails/?id="

  ghost predicate DigitClass(nd: char -> bool) {
    forall c: char :: c as int < 128 ==> (nd(c) <==> IsAsciiDigit(c))
  }

  function DigitRun(nd: char -> bool, s: string): (k: nat)
    ensures k <= |s|
    ensures forall i :: 0 <= i < k ==> nd(s[i])
    ensures k < |s| ==> !nd(s[k])
  {
    if s != [] && nd(s[0]) then 1 + DigitRun(nd, s[1..]) else 0
  }

  /** A match starts at the head of `s`. */
  predicate LinkHere(nd: char -> bool, s: string) {
    |LINK| < |s| && (forall i :: 0 <= i < |LINK| ==> s[i] == LINK[i]) && nd(s[|LINK|])
  }

  /** The captured digit runs of all matches: leftmost first, not overlapping. */
  function Captures(nd: char -> bool, s: string): seq<string>
    decreases |s|
  {
    if s == [] then []
    else if LinkHere(nd, s) then
      var rest := s[|LINK|..];
      var k := DigitRun(nd, rest);
      [rest[..k]] + Captures(nd, rest[k..])
    else Captures(nd, s[1..])
  }

  /** The runs that read as a `u64`. */
  function Ids(runs: seq<string>): seq<U64> {
    if runs == [] then []
    else
      var rest := Ids(runs[1..]);
      match ParseU64(runs[0])
      case Some(id) => [id] + rest
      case None => rest
  }

  function ParsePresetHtml(nd: char -> bool, html: string): seq<U64> {
    Ids(Captures(nd, html))
  }

  /** Looks at the first match only, readable or not. */
  function ExtractSingleId(nd: char -> bool, url: string): Option<U64> {
    var runs := Captures(nd, url);
    if runs == [] then None else ParseU64(runs[0])
  }

  function WorkshopUrl(id: U64): string {
    "https://steamcommunity.com/sharedfiles/" + LINK + ToDecimal(id)
  }

  // ---------------------------------------------------------------------------------------
  // Finding links piecewise

  /** A character no link can contain. */
  predicate Delimiter(nd: char -> bool, c: char) {
    c !in LINK && !nd(c)
  }

  lemma {:induction false} RunStopsAtDelimiter(nd: char -> bool, a: string, d: char, b: string)
    requires !nd(d)
    ensures DigitRun(nd, a + [d] + b) == DigitRun(nd, a)
  {
    if a != [] {
      assert (a + [d] + b)[1..] == a[1..] + [d] + b;
      RunStopsAtDelimiter(nd, a[1..], d, b);
    }
  }

  lemma {:induction false} LinkHereBeforeDelimiter(nd: char -> bool, a: string, d: char, b: string)
    requires Delimiter(nd, d) && a != []
    ensures LinkHere(nd, a + [d] + b) <==> LinkHere(nd, a)
  {
    var s := a + [d] + b;
    assert s[|a|] == d;
    assert |a| < |LINK| ==> LINK[|a|] != d;
  }

  lemma {:induction false} FirstCaptureBeforeDelimiter(nd: char -> bool, a: string, d: char, b: string)
    requires Delimiter(nd, d) && LinkHere(nd, a)
    ensures var rest := a[|LINK|..];
            var k := DigitRun(nd, rest);
            Captures(nd, a + [d] + b) == [rest[..k]] + Captures(nd, rest[k..] + [d] + b)
  {
    var s := a + [d] + b;
    LinkHereBeforeDelimiter(nd, a, d, b);
    var rest := a[|LINK|..];
    assert s[|LINK|..] == rest + [d] + b;
    RunStopsAtDelimiter(nd, rest, d, b);
    var k := DigitRun(nd, rest);
    assert (rest + [d] + b)[..k] == rest[..k];
    assert (rest + [d] + b)[k..] == rest[k..] + [d] + b;
  }

  lemma NoLinkAtDelimiter(nd: char -> bool, d: char, b: string)
    requires Delimiter(nd, d)
    ensures Captures(nd, [d] + b) == Captures(nd, b)
  {
    assert LINK[0] != d;
    assert ([d] + b)[1..] == b;
  }

  lemma SkipBeforeDelimiter(nd: char -> bool, a: string, d: char, b: string)
    requires Delimiter(nd, d) && a != [] && !LinkHere(nd, a)
    ensures Captures(nd, a + [d] + b) == Captures(nd, a[1..] + [d] + b)
  {
    LinkHereBeforeDelimiter(nd, a, d, b);
    assert (a + [d] + b)[1..] == a[1..] + [d] + b;
  }

  /** Links are found separately on both sides of a delimiter. */
  lemma {:induction false} CapturesSplit(nd: char -> bool, a: string, d: char, b: string)
    requires Delimiter(nd, d)
    ensures Captures(nd, a + [d] + b) == Captures(nd, a) + Captures(nd, b)
    decreases |a|
  {
    if a == [] {
      NoLinkAtDelimiter(nd, d, b);
      assert a + [d] + b == [d] + b;
    } else if LinkHere(nd, a) {
      var rest := a[|LINK|..];
      FirstCaptureBeforeDelimiter(nd, a, d, b);
      CapturesSplit(nd, rest[DigitRun(nd, rest)..], d, b);
    } else {
      SkipBeforeDelimiter(nd, a, d, b);
      CapturesSplit(nd, a[1..], d, b);
    }
  }

  /** Text that lacks one of a link's characters holds no link. */
  lemma {:induction false} NoLinkWithout(nd: char -> bool, s: string, j: nat)
    requires j < |LINK| && LINK[j] !in s
    ensures Captures(nd, s) == []
  {
    if s != [] {
      assert |s| > j ==> s[j] != LINK[j];
      NoLinkWithout(nd, s[1..], j);
    }
  }

  /** Somewhere in the text there is a link with at least one digit. */
  ghost predicate HoldsLink(nd: char -> bool, s: string) {
    exists i :: 0 <= i < |s| && LinkHere(nd, s[i..])
  }

  /** A match is found exactly in text that holds a link. */
  lemma {:induction false} CapturesNothingIff(nd: char -> bool, s: string)
    ensures Captures(nd, s) == [] <==> !HoldsLink(nd, s)
  {
    if s != [] {
      assert s[0..] == s;
      if !LinkHere(nd, s) {
        CapturesNothingIff(nd, s[1..]);
        if HoldsLink(nd, s) {
          var i :| 0 <= i < |s| && LinkHere(nd, s[i..]);
          assert s[i..] == s[1..][i - 1..];
        }
        if HoldsLink(nd, s[1..]) {
          var i :| 0 <= i < |s[1..]| && LinkHere(nd, s[1..][i..]);
          assert s[1..][i..] == s[i + 1..];
        }
      }
    }
  }

  lemma {:induction false} RunOfDigits(nd: char -> bool, digits: string)
    requires DigitClass(nd) && AllDigits(digits)
    ensures DigitRun(nd, digits) == |digits|
  {
    if digits != [] {
      assert IsAsciiDigit(digits[0]);
      RunOfDigits(nd, digits[1..]);
    }
  }

  /** A link at the end of a text without another question mark is the one link found. */
  lemma {:induction false} LinkAtEnd(nd: char -> bool, p: string, digits: string)
    requires DigitClass(nd) && '?' !in p && digits != [] && AllDigits(digits)
    ensures Captures(nd, p + LINK + digits) == [digits]
    decreases |p|
  {
    var s := p + LINK + digits;
    if p == [] {
      assert s == LINK + digits;
      assert s[|LINK|..] == digits && s[|LINK|] == digits[0];
      assert IsAsciiDigit(digits[0]);
      RunOfDigits(nd, digits);
      assert digits[..|digits|] == digits && digits[|digits|..] == [];
    } else {
      assert LINK[12] == '?';
      assert s[12] == (if 12 < |p| then p[12] else LINK[12 - |p|]) != '?';
      assert s[1..] == p[1..] + LINK + digits;
      LinkAtEnd(nd, p[1..], digits);
    }
  }

  lemma UrlHasOneLink(nd: char -> bool, id: U64)
    requires DigitClass(nd)
    ensures Captures(nd, WorkshopUrl(id)) == [ToDecimal(id)]
  {
    LinkAtEnd(nd, "https://steamcommunity.com/sharedfiles/", ToDecimal(id));
  }

  /** A printed number is read back exactly when it fits a `u64`. */
  lemma DecimalReads(n: nat)
    ensures ParseU64(ToDecimal(n)) == if n <= U64_MAX then Some(n) else None
  {
    DecimalRoundTrip(n);
  }

  /** `extract_single_id` undoes `workshop_url`. */
  lemma {:induction false} UrlRoundTrip(nd: char -> bool, id: U64)
    requires DigitClass(nd)
    ensures ExtractSingleId(nd, WorkshopUrl(id)) == Some(id)
    ensures ParsePresetHtml(nd, WorkshopUrl(id)) == [id]
    ensures ExtractSingleId(nd, "filedetails/?id=" + ToDecimal(id)) == Some(id)
  {
    UrlHasOneLink(nd, id);
    DecimalReads(id);
    LinkAtEnd(nd, [], ToDecimal(id));
    assert [] + LINK + ToDecimal(id) == LINK + ToDecimal(id);
    assert Ids([ToDecimal(id)][1..]) == [];
  }

  /** Only the first link of a text counts, whatever follows it. */
  lemma {:induction false} FirstLinkDecides(nd: char -> bool, id: U64, d: char, rest: string)
    requires DigitClass(nd) && Delimiter(nd, d)
    ensures ExtractSingleId(nd, WorkshopUrl(id) + [d] + rest) == Some(id)
  {
    CapturesSplit(nd, WorkshopUrl(id), d, rest);
    UrlHasOneLink(nd, id);
    DecimalReads(id);
  }

  /** Even one that cannot be read: then there is no id, whatever follows. */
  lemma {:induction false} UnreadableLinkDecides(nd: char -> bool, n: nat, d: char, rest: string)
    requires DigitClass(nd) && Delimiter(nd, d) && n > U64_MAX
    ensures ExtractSingleId(nd, LINK + ToDecimal(n) + [d] + rest) == None
  {
    CapturesSplit(nd, LINK + ToDecimal(n), d, rest);
    LinkAtEnd(nd, [], ToDecimal(n));
    assert [] + LINK + ToDecimal(n) == LINK + ToDecimal(n);
    DecimalReads(n);
  }

  // ---------------------------------------------------------------------------------------
  // Escaping

  function EscapeChar(c: char): string {
    match c
    case '&' => "&amp;"
    case '<' => "&lt;"
    case '>' => "&gt;"
    case '"' => "&quot;"
    case '\'' => "&#39;"
    case _ => [c]
  }

  function Escape(text: string): string {
    if text == [] then [] else EscapeChar(text[0]) + Escape(text[1..])
  }

  lemma {:induction false} EscapeOfConcat(a: string, b: string)
    ensures Escape(a + b) == Escape(a) + Escape(b)
  {
    if a == [] {
      assert a + b == b;
    } else {
      assert (a + b)[1..] == a[1..] + b;
      EscapeOfConcat(a[1..], b);
    }
  }

  lemma EscapeNext(text: string, i: nat)
    requires i < |text|
    ensures Escape(text[..i + 1]) == Escape(text[..i]) + EscapeChar(text[i])
  {
    EscapeOfConcat(text[..i], [text[i]]);
    assert text[..i + 1] == text[..i] + [text[i]];
    assert [text[i]][1..] == [];
  }

  method EscapeHtml(text: string) returns (out: string)
    ensures out == Escape(text)
  {
    out := "";
    for i := 0 to |text|
      invariant out == Escape(text[..i])
    {
      EscapeNext(text, i);
      match text[i] {
        case '&' => out := out + "&amp;";
        case '<' => out := out + "&lt;";
        case '>' => out := out + "&gt;";
        case '"' => out := out + "&quot;";
        case '\'' => out := out + "&#39;";
        case c => out := out + [c];
      }
    }
    assert text[..|text|] == text;
  }

  predicate IsSpecial(c: char) {
    c == '&' || c == '<' || c == '>' || c == '"' || c == '\''
  }

  /** What stands between `&` and `;`. */
  function EntityName(c: char): string
    requires IsSpecial(c)
  {
    match c
    case '&' => "amp"
    case '<' => "lt"
    case '>' => "gt"
    case '"' => "quot"
    case '\'' => "#39"
  }

  lemma EscapedIsEntity(c: char)
    requires IsSpecial(c)
    ensures EscapeChar(c) == ['&'] + EntityName(c) + [';']
    ensures '?' !in EntityName(c)
  {
  }

  // ---------------------------------------------------------------------------------------
  // Links in escaped text

  /** What escaped and printed text relies on in a link finder: markup characters separate, and
    * there is no link without a question mark and a slash. */
  ghost predicate FindsLinks(find: string -> seq<U64>) {
    && (forall a, d, b {:trigger Splits(find, a, d, b)} :: IsMarkup(d) ==> Splits(find, a, d, b))
    && (forall s {:trigger Silent(find, s)} :: '?' !in s || '/' !in s ==> Silent(find, s))
  }

  ghost predicate Splits(find: string -> seq<U64>, a: string, d: char, b: string) {
    find(a + [d] + b) == find(a) + find(b)
  }

  ghost predicate Silent(find: string -> seq<U64>, s: string) {
    find(s) == []
  }

  predicate IsMarkup(c: char) {
    IsSpecial(c) || c == ';' || c == ' ' || c == '\n'
  }

  lemma {:induction false} IdsOfConcat(a: seq<string>, b: seq<string>)
    ensures Ids(a + b) == Ids(a) + Ids(b)
  {
    if a == [] {
      assert a + b == b;
    } else {
      assert (a + b)[1..] == a[1..] + b;
      IdsOfConcat(a[1..], b);
    }
  }

  lemma ParseSplits(nd: char -> bool, a: string, d: char, b: string)
    requires DigitClass(nd) && IsMarkup(d)
    ensures ParsePresetHtml(nd, a + [d] + b) == ParsePresetHtml(nd, a) + ParsePresetHtml(nd, b)
  {
    CapturesSplit(nd, a, d, b);
    IdsOfConcat(Captures(nd, a), Captures(nd, b));
  }

  /** `parse_preset_html` is such a finder. */
  lemma {:induction false} ParserFindsLinks(nd: char -> bool)
    requires DigitClass(nd)
    ensures FindsLinks(html => ParsePresetHtml(nd, html))
  {
    var find := html => ParsePresetHtml(nd, html);
    forall a, d, b | IsMarkup(d) ensures Splits(find, a, d, b) {
      ParseSplits(nd, a, d, b);
    }
    forall s | '?' !in s || '/' !in s ensures Silent(find, s) {
      assert LINK[11] == '/' && LINK[12] == '?';
      NoLinkWithout(nd, s, if '?' !in s then 12 else 11);
    }
  }

  /** Text between markup characters contributes its own links and separates its neighbours. */
  lemma {:induction false} FramedTextSeparates(
      find: string -> seq<U64>, a: string, d: char, text: string, d': char, b: string)
    requires FindsLinks(find) && IsMarkup(d) && IsMarkup(d')
    ensures find(a + ([d] + text + [d']) + b) == find(a) + find(text) + find(b)
  {
    var rest := text + [d'] + b;
    assert a + ([d] + text + [d']) + b == a + [d] + rest;
    assert Splits(find, a, d, rest) && Splits(find, text, d', b);
  }

  lemma EntitySeparates(find: string -> seq<U64>, a: string, c: char, b: string)
    requires FindsLinks(find) && IsSpecial(c)
    ensures find(a + EscapeChar(c) + b) == find(a) + find(b)
  {
    EscapedIsEntity(c);
    assert Silent(find, EntityName(c));
    FramedTextSeparates(find, a, '&', EntityName(c), ';', b);
  }

  /** After any text `a`, escaping `t` neither creates nor destroys a link. */
  lemma {:induction false} EscapeKeepsLinksAfter(find: string -> seq<U64>, a: string, t: string)
    requires FindsLinks(find)
    ensures find(a + Escape(t)) == find(a + t)
    decreases |t|
  {
    if t == [] {
      assert a + Escape(t) == a + t;
    } else {
      var rest := t[1..];
      assert a + t == a + [t[0]] + rest;
      assert a + Escape(t) == a + EscapeChar(t[0]) + Escape(rest);
      if IsSpecial(t[0]) {
        EntitySeparates(find, a, t[0], Escape(rest));
        EscapeKeepsLinksAfter(find, [], rest);
        assert [] + Escape(rest) == Escape(rest) && [] + rest == rest;
        assert Splits(find, a, t[0], rest);
      } else {
        EscapeKeepsLinksAfter(find, a + [t[0]], rest);
      }
    }
  }

  /** Escaping neither creates nor destroys a link. */
  lemma {:induction false} EscapeKeepsLinks(nd: char -> bool, t: string)
    requires DigitClass(nd)
    ensures ParsePresetHtml(nd, Escape(t)) == ParsePresetHtml(nd, t)
  {
    ParserFindsLinks(nd);
    EscapeKeepsLinksAfter(html => ParsePresetHtml(nd, html), [], t);
    assert [] + Escape(t) == Escape(t) && [] + t == t;
  }

  /** Escaped text cannot open or close a tag or an attribute value. */
  lemma {:induction false} EscapedTextIsInert(t: string)
    ensures forall c :: c in Escape(t) && IsSpecial(c) ==> c == '&'
  {
    if t != [] {
      EscapedTextIsInert(t[1..]);
    }
  }

  /** Reads entities back. */
  function Unescape(s: string): string {
    if s == [] then []
    else if "&amp;" <= s then ['&'] + Unescape(s[5..])
    else if "&lt;" <= s then ['<'] + Unescape(s[4..])
    else if "&gt;" <= s then ['>'] + Unescape(s[4..])
    else if "&quot;" <= s then ['"'] + Unescape(s[6..])
    else if "&#39;" <= s then ['\''] + Unescape(s[5..])
    else [s[0]] + Unescape(s[1..])
  }

  lemma UnescapeFirst(c: char, rest: string)
    ensures Unescape(EscapeChar(c) + rest) == [c] + Unescape(rest)
  {
    var s := EscapeChar(c) + rest;
    assert s[|EscapeChar(c)|..] == rest;
    if IsSpecial(c) {
      assert s[1] == EscapeChar(c)[1];
    } else {
      assert s[0] == c;
    }
  }

  /** Escaping is undone by reading the entities back, so no two texts escape alike. */
  lemma {:induction false} EscapeRoundTrip(t: string)
    ensures Unescape(Escape(t)) == t
  {
    if t != [] {
      EscapeRoundTrip(t[1..]);
      UnescapeFirst(t[0], Escape(t[1..]));
    }
  }
}
