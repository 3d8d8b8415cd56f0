/**
 * The input-handling helpers of `utils/sanitization.ts`: HTML and XML
 * escaping, input sanitising, the crawl-delay normaliser and the `<meta>`
 * tag builder. `isValidUrl`, `safeGetUrlParts` and `safeJsonParse` wrap the
 * browser's URL and JSON parsers and appear elsewhere as parameters.
 */
module Sanitization {
  import opened Wrappers
  import opened Text

  // ---------------------------------------------------------------------
  // Escaping
  // ---------------------------------------------------------------------

  /** The entity `escapeHtml` writes for an apostrophe. */
  const HtmlApos := "&#39;"
  /** The entity `escapeXml` writes for an apostrophe: the predefined
      `&apos;` of section 4.6 of the XML 1.0 (Fifth Edition) recommendation. */
  const XmlApos := "&apos;"

  /** The two apostrophe entities the helpers use. */
  predicate IsAposEntity(apos: string) {
    apos == HtmlApos || apos == XmlApos
  }

  /** What `str.replace(/[&<>"']/g, ...)` writes for one character, given the
      apostrophe entity of the map in use. */
  function Entity(c: char, apos: string): string {
    match c
    case '&' => "&amp;"
    case '<' => "&lt;"
    case '>' => "&gt;"
    case '"' => "&quot;"
    case '\'' => apos
    case _ => [c]
  }

  /** Character-by-character replacement shared by `escapeHtml` and
      `escapeXml`; the two differ only in `apos`. */
  function Escape(s: string, apos: string): (r: string)
    requires IsAposEntity(apos)
    ensures |r| >= |s|
    ensures forall i :: 0 <= i < |r| ==> r[i] != '<' && r[i] != '>' && r[i] != '"' && r[i] != '\''
    decreases |s|
  {
    if s == [] then "" else Entity(s[0], apos) + Escape(s[1..], apos)
  }

  /** `r[i..]` begins with one of the five entities. */
  predicate EntityAt(r: string, i: nat, apos: string)
    requires i <= |r|
  {
    || StartsWith(r[i..], "&amp;") || StartsWith(r[i..], "&lt;")
    || StartsWith(r[i..], "&gt;") || StartsWith(r[i..], "&quot;")
    || StartsWith(r[i..], apos)
  }

  /** An ampersand inside the entity written for `c` is its first
      character, and that entity begins there. */
  lemma EntityAmpersand(c: char, apos: string, t: string, i: nat)
    requires IsAposEntity(apos)
    requires i < |Entity(c, apos)| && Entity(c, apos)[i] == '&'
    ensures EntityAt(Entity(c, apos) + t, i, apos)
  {
    var e := Entity(c, apos);
    assert (e + t)[..|e|] == e;
    if c == '&' {
    } else if c == '<' {
    } else if c == '>' {
    } else if c == '"' {
    } else if c == '\'' {
    } else {
    }
  }

  /** An entity found in `t` is still found after a prefix. */
  lemma EntityAtShift(e: string, t: string, j: nat, apos: string)
    requires j <= |t| && EntityAt(t, j, apos)
    ensures EntityAt(e + t, |e| + j, apos)
  {
    assert (e + t)[|e| + j..] == t[j..];
  }

  /** Every ampersand in escaped text begins an entity. */
  lemma {:induction false} EscapeAmpersands(s: string, apos: string)
    requires IsAposEntity(apos)
    ensures forall i :: 0 <= i < |Escape(s, apos)| && Escape(s, apos)[i] == '&' ==> EntityAt(Escape(s, apos), i, apos)
    decreases |s|
  {
    if s != [] {
      var e, t := Entity(s[0], apos), Escape(s[1..], apos);
      var r := Escape(s, apos);
      assert r == e + t;
      EscapeAmpersands(s[1..], apos);
      forall i | 0 <= i < |r| && r[i] == '&'
        ensures EntityAt(r, i, apos)
      {
        if i < |e| {
          EntityAmpersand(s[0], apos, t, i);
        } else {
          EntityAtShift(e, t, i - |e|, apos);
        }
      }
    }
  }

  /** Escaping distributes over concatenation. */
  lemma {:induction false} EscapeConcat(a: string, b: string, apos: string)
    requires IsAposEntity(apos)
    ensures Escape(a + b, apos) == Escape(a, apos) + Escape(b, apos)
    decreases |a|
  {
    if a == [] {
      assert a + b == b;
    } else {
      assert (a + b)[0] == a[0] && (a + b)[1..] == a[1..] + b;
      EscapeConcat(a[1..], b, apos);
    }
  }

  /** Decodes the five entities that `Escape(_, apos)` writes; any other
      character is copied. */
  function Unescape(s: string, apos: string): string
    requires IsAposEntity(apos)
    decreases |s|
  {
    if s == [] then ""
    else if StartsWith(s, "&amp;") then "&" + Unescape(s[5..], apos)
    else if StartsWith(s, "&lt;") then "<" + Unescape(s[4..], apos)
    else if StartsWith(s, "&gt;") then ">" + Unescape(s[4..], apos)
    else if StartsWith(s, "&quot;") then "\"" + Unescape(s[6..], apos)
    else if StartsWith(s, apos) then "'" + Unescape(s[|apos|..], apos)
    else [s[0]] + Unescape(s[1..], apos)
  }

  /** Decoding the escape of one character followed by more text yields that
      character followed by the decoding of the rest. */
  lemma UnescapeEntity(c: char, t: string, apos: string)
    requires IsAposEntity(apos)
    ensures Unescape(Entity(c, apos) + t, apos) == [c] + Unescape(t, apos)
  {
    var e := Entity(c, apos);
    var x := e + t;
    assert x[..|e|] == e && x[|e|..] == t;
    assert StartsWith(x, e);
    if c == '&' {
    } else if c == '<' {
      DiffersAt(x, "&amp;", 1);
    } else if c == '>' {
      DiffersAt(x, "&amp;", 1);
      DiffersAt(x, "&lt;", 1);
    } else if c == '"' {
      DiffersAt(x, "&amp;", 1);
      DiffersAt(x, "&lt;", 1);
      DiffersAt(x, "&gt;", 1);
    } else if c == '\'' {
      if apos == HtmlApos {
        DiffersAt(x, "&amp;", 1);
      } else {
        DiffersAt(x, "&amp;", 2);
      }
      DiffersAt(x, "&lt;", 1);
      DiffersAt(x, "&gt;", 1);
      DiffersAt(x, "&quot;", 1);
    } else {
      DiffersAt(x, "&amp;", 0);
      DiffersAt(x, "&lt;", 0);
      DiffersAt(x, "&gt;", 0);
      DiffersAt(x, "&quot;", 0);
      DiffersAt(x, apos, 0);
    }
  }

  /** Escaping loses nothing: decoding the entities gives back the input. */
  lemma {:induction false} UnescapeEscape(s: string, apos: string)
    requires IsAposEntity(apos)
    ensures Unescape(Escape(s, apos), apos) == s
    decreases |s|
  {
    if s != [] {
      UnescapeEscape(s[1..], apos);
      UnescapeEntity(s[0], Escape(s[1..], apos), apos);
      assert s == [s[0]] + s[1..];
    }
  }

  /** The apostrophe entity only matters where the input has an apostrophe. */
  lemma {:induction false} EscapeWithoutApostrophe(s: string, a1: string, a2: string)
    requires IsAposEntity(a1) && IsAposEntity(a2)
    requires '\'' !in s
    ensures Escape(s, a1) == Escape(s, a2)
    decreases |s|
  {
    if s != [] {
      assert s[1..] <= s[1..];
      assert forall c :: c in s[1..] ==> c in s;
      EscapeWithoutApostrophe(s[1..], a1, a2);
    }
  }

  /** Text without any of the five special characters is left unchanged. */
  lemma {:induction false} EscapePlain(s: string, apos: string)
    requires IsAposEntity(apos)
    requires forall i :: 0 <= i < |s| ==> s[i] !in "&<>\"'"
    ensures Escape(s, apos) == s
    decreases |s|
  {
    if s != [] {
      EscapePlain(s[1..], apos);
      assert s == [s[0]] + s[1..];
    }
  }

  /** `&apos;` is one character longer than `&#39;`, once per apostrophe. */
  lemma {:induction false} EscapeXmlLength(s: string)
    ensures |Escape(s, XmlApos)| == |Escape(s, HtmlApos)| + Count(s, '\'')
    decreases |s|
  {
    if s != [] {
      EscapeXmlLength(s[1..]);
      assert s == [s[0]] + s[1..];
      CountConcat([s[0]], s[1..], '\'');
      EntityLength(s[0]);
    }
  }

  /** The two entity maps differ only in the apostrophe: `&apos;` is one
      character longer than `&#39;`. */
  lemma EntityLength(c: char)
    ensures |Entity(c, XmlApos)| == |Entity(c, HtmlApos)| + Count([c], '\'')
  {
    if c == '\'' {
    } else {
      assert '\'' !in [c];
    }
  }

  /** `escapeHtml`: the result holds no `<`, `>`, `"` or `'`, and it is
      empty only for empty input. */
  function EscapeHtml(s: string): (r: string)
    ensures forall i :: 0 <= i < |r| ==> r[i] != '<' && r[i] != '>' && r[i] != '"' && r[i] != '\''
    ensures r == "" <==> s == ""
  {
    Escape(s, HtmlApos)
  }

  /** `escapeXml`: as `EscapeHtml`, with `&apos;` for the apostrophe. */
  function EscapeXml(s: string): (r: string)
    ensures forall i :: 0 <= i < |r| ==> r[i] != '<' && r[i] != '>' && r[i] != '"' && r[i] != '\''
    ensures r == "" <==> s == ""
  {
    Escape(s, XmlApos)
  }

  /** Every `&` that `escapeHtml` writes begins one of its five entities,
      and decoding them gives back the input. */
  lemma EscapeHtmlEntities(s: string)
    ensures forall i :: 0 <= i < |EscapeHtml(s)| && EscapeHtml(s)[i] == '&' ==> EntityAt(EscapeHtml(s), i, HtmlApos)
    ensures Unescape(EscapeHtml(s), HtmlApos) == s
  {
    EscapeAmpersands(s, HtmlApos);
    UnescapeEscape(s, HtmlApos);
  }

  /** Every `&` that `escapeXml` writes begins one of the five predefined
      XML entities, and decoding them gives back the input. */
  lemma EscapeXmlEntities(s: string)
    ensures forall i :: 0 <= i < |EscapeXml(s)| && EscapeXml(s)[i] == '&' ==> EntityAt(EscapeXml(s), i, XmlApos)
    ensures Unescape(EscapeXml(s), XmlApos) == s
  {
    EscapeAmpersands(s, XmlApos);
    UnescapeEscape(s, XmlApos);
  }

  /** Both escapes distribute over concatenation. */
  lemma EscapeHtmlXmlConcat(a: string, b: string)
    ensures EscapeHtml(a + b) == EscapeHtml(a) + EscapeHtml(b)
    ensures EscapeXml(a + b) == EscapeXml(a) + EscapeXml(b)
  {
    EscapeConcat(a, b, HtmlApos);
    EscapeConcat(a, b, XmlApos);
  }

  /** `escapeXml` and `escapeHtml` agree exactly on the inputs without an
      apostrophe. */
  lemma EscapeXmlVersusHtml(s: string)
    ensures EscapeXml(s) == EscapeHtml(s) <==> '\'' !in s
  {
    EscapeXmlLength(s);
    if '\'' !in s {
      EscapeWithoutApostrophe(s, XmlApos, HtmlApos);
    }
  }

  // ---------------------------------------------------------------------
  // sanitizeInput
  // ---------------------------------------------------------------------

  /** The class `[\x00-\x08\x0B-\x0C\x0E-\x1F\x7F]`: C0 controls other than
      tab, line feed and carriage return, and DEL. */
  predicate IsStrippedControl(c: char) {
    c <= '\U{8}' || c == '\U{B}' || c == '\U{C}' || ('\U{E}' <= c <= '\U{1F}') || c == '\U{7F}'
  }

  /** Removes every character of the control class, keeping the others in
      order. */
  function StripControls(s: string): (r: string)
    ensures |r| <= |s|
    ensures forall c :: c in r <==> c in s && !IsStrippedControl(c)
    ensures (forall i :: 0 <= i < |s| ==> !IsStrippedControl(s[i])) ==> r == s
    decreases |s|
  {
    if s == [] then ""
    else if IsStrippedControl(s[0]) then StripControls(s[1..])
    else [s[0]] + StripControls(s[1..])
  }

  /** Stripping works character by character: it distributes over
      concatenation, so the kept characters stay in order and keep their
      multiplicity. */
  lemma {:induction false} StripControlsConcat(a: string, b: string)
    ensures StripControls(a + b) == StripControls(a) + StripControls(b)
    decreases |a|
  {
    if a == [] {
      assert a + b == b;
    } else {
      assert (a + b)[0] == a[0] && (a + b)[1..] == a[1..] + b;
      StripControlsConcat(a[1..], b);
    }
  }

  /** The default `maxLength` of `sanitizeInput`. */
  const DefaultMaxLength: nat := 2000

  /** `sanitizeInput(input, maxLength)`: strip the control class, trim, and
      keep at most `maxLength` characters. The result is a prefix of the
      stripped, trimmed input, so it never starts with whitespace; it is
      that whole string whenever it fits. */
  function SanitizeInput(input: string, maxLength: nat): (r: string)
    ensures |r| <= maxLength
    ensures forall i :: 0 <= i < |r| ==> !IsStrippedControl(r[i])
    ensures StartsWith(Trim(StripControls(input)), r)
    ensures r == [] || !IsSpace(r[0])
    ensures |Trim(StripControls(input))| <= maxLength ==> r == Trim(StripControls(input))
    ensures |Trim(StripControls(input))| > maxLength ==> |r| == maxLength
  {
    if input == "" then ""
    else
      var cleaned := Trim(StripControls(input));
      TrimStartSuffix(StripControls(input));
      assert forall c :: c in cleaned ==> c in StripControls(input);
      if |cleaned| > maxLength then cleaned[..maxLength] else cleaned
  }

  /** Sanitising is idempotent when the trimmed text already fits. (When it
      does not, the cut can leave trailing whitespace that a second pass
      trims.) */
  lemma SanitizeIdempotent(input: string, maxLength: nat)
    requires |Trim(StripControls(input))| <= maxLength
    ensures SanitizeInput(SanitizeInput(input, maxLength), maxLength) == SanitizeInput(input, maxLength)
  {
    var r := SanitizeInput(input, maxLength);
    assert StripControls(r) == r;
    TrimNoOp(r);
  }

  /** A cut that ends in whitespace is trimmed again by a second pass:
      `x y` cut to two characters keeps `x` and the space, and a second pass
      drops the space. */
  lemma SanitizeNotIdempotentAfterCut(x: char, y: char)
    requires !IsSpace(x) && !IsStrippedControl(x)
    requires !IsSpace(y) && !IsStrippedControl(y)
    ensures SanitizeInput([x, ' ', y], 2) == [x, ' ']
    ensures SanitizeInput([x, ' '], 2) == [x]
  {
    CutFirstPass(x, y);
    CutSecondPass(x);
  }

  lemma CutFirstPass(x: char, y: char)
    requires !IsSpace(x) && !IsStrippedControl(x)
    requires !IsSpace(y) && !IsStrippedControl(y)
    ensures SanitizeInput([x, ' ', y], 2) == [x, ' ']
  {
    var s := [x, ' ', y];
    assert StripControls(s) == s by {
      assert forall i :: 0 <= i < |s| ==> !IsStrippedControl(s[i]);
    }
    TrimNoOp(s);
    assert s[..2] == [x, ' '];
  }

  lemma CutSecondPass(x: char)
    requires !IsSpace(x) && !IsStrippedControl(x)
    ensures SanitizeInput([x, ' '], 2) == [x]
  {
    var t := [x, ' '];
    assert StripControls(t) == t by {
      assert forall i :: 0 <= i < |t| ==> !IsStrippedControl(t[i]);
    }
    assert TrimStart(t) == t;
    assert t[..1] == [x];
    assert TrimEnd([x]) == [x];
  }



  // ---------------------------------------------------------------------
  // validateCrawlDelay
  // ---------------------------------------------------------------------

  /** `replace(/[^0-9]/g, '')`. */
  function KeepDigits(s: string): (r: string)
    ensures forall i :: 0 <= i < |r| ==> IsAsciiDigit(r[i])
    ensures forall c :: c in r <==> c in s && IsAsciiDigit(c)
    ensures (forall i :: 0 <= i < |s| ==> IsAsciiDigit(s[i])) ==> r == s
    decreases |s|
  {
    if s == [] then ""
    else if IsAsciiDigit(s[0]) then [s[0]] + KeepDigits(s[1..])
    else KeepDigits(s[1..])
  }

  /** `replace(/[^0-9]/g, '')` works character by character: it distributes
      over concatenation, so the digits keep their order and multiplicity. */
  lemma {:induction false} KeepDigitsConcat(a: string, b: string)
    ensures KeepDigits(a + b) == KeepDigits(a) + KeepDigits(b)
    decreases |a|
  {
    if a == [] {
      assert a + b == b;
    } else {
      assert (a + b)[0] == a[0] && (a + b)[1..] == a[1..] + b;
      KeepDigitsConcat(a[1..], b);
    }
  }

  predicate AllDigits(s: string) {
    forall i :: 0 <= i < |s| ==> IsAsciiDigit(s[i])
  }

  /** The value of a string of decimal digits, as `parseInt(s, 10)` reads it. */
  function DigitsValue(s: string): nat
    requires AllDigits(s)
    decreases |s|
  {
    if s == [] then 0
    else DigitsValue(s[..|s| - 1]) * 10 + (s[|s| - 1] as int - '0' as int)
  }

  /** `String(n)`: the decimal digits of `n` with no leading zero. */
  function NatToDecimal(n: nat): (r: string)
    ensures r != [] && AllDigits(r)
    ensures r[0] == '0' ==> n == 0
    decreases n
  {
    if n < 10 then [('0' as int + n) as char]
    else NatToDecimal(n / 10) + [('0' as int + n % 10) as char]
  }

  /** Reading back the decimal form of `n` gives `n`. */
  lemma {:induction false} DigitsValueOfDecimal(n: nat)
    ensures DigitsValue(NatToDecimal(n)) == n
    decreases n
  {
    var r := NatToDecimal(n);
    if n >= 10 {
      DigitsValueOfDecimal(n / 10);
      assert r[..|r| - 1] == NatToDecimal(n / 10);
    }
  }

  /** Delays up to 3600 are written with at most four digits. */
  lemma DecimalShort(n: nat)
    requires n <= 3600
    ensures |NatToDecimal(n)| <= 4
  {
    if n >= 10 {
      assert |NatToDecimal(n)| == |NatToDecimal(n / 10)| + 1;
      if n / 10 >= 10 {
        assert |NatToDecimal(n / 10)| == |NatToDecimal(n / 100)| + 1;
        if n / 100 >= 10 {
          assert n / 100 / 10 == n / 1000 < 10;
          assert |NatToDecimal(n / 100)| == |NatToDecimal(n / 1000)| + 1;
        }
      }
    }
  }

  /** The largest crawl delay the helper lets through: one hour. */
  const MaxCrawlDelay: nat := 3600

  lemma MaxCrawlDelayDecimal()
    ensures NatToDecimal(MaxCrawlDelay) == "3600"
  {
    assert NatToDecimal(3) == "3";
    assert NatToDecimal(36) == "36";
    assert NatToDecimal(360) == "360";
  }

  /** `validateCrawlDelay`: keep the digits of the sanitised input; the empty
      string when there are none, otherwise the canonical decimal of the
      number they spell, capped at 3600. */
  function ValidateCrawlDelay(value: string): (r: string)
    ensures r == "" <==> KeepDigits(SanitizeInput(value, DefaultMaxLength)) == ""
    ensures r != "" ==> AllDigits(r) && |r| <= 4 && r == NatToDecimal(DigitsValue(r))
    ensures r != "" ==> DigitsValue(r) <= MaxCrawlDelay
    ensures r != "" ==> var d := KeepDigits(SanitizeInput(value, DefaultMaxLength));
                        DigitsValue(r) == if DigitsValue(d) > MaxCrawlDelay then MaxCrawlDelay else DigitsValue(d)
  {
    if value == "" then ""
    else
      var sanitized := KeepDigits(SanitizeInput(value, DefaultMaxLength));
      if sanitized == "" then ""
      else
        var num := DigitsValue(sanitized);
        if num > MaxCrawlDelay then
          MaxCrawlDelayDecimal();
          DigitsValueOfDecimal(MaxCrawlDelay);
          "3600"
        else
          DigitsValueOfDecimal(num);
          DecimalShort(num);
          NatToDecimal(num)
  }

  /** A short run of digits passes through `sanitizeInput` unchanged. */
  lemma DigitsSanitized(r: string)
    requires r != "" && AllDigits(r) && |r| <= DefaultMaxLength
    ensures SanitizeInput(r, DefaultMaxLength) == r
  {
    assert StripControls(r) == r by {
      forall i | 0 <= i < |r| ensures !IsStrippedControl(r[i]) {
        assert IsAsciiDigit(r[i]);
      }
    }
    assert !IsSpace(r[0]) && !IsSpace(r[|r| - 1]) by {
      assert IsAsciiDigit(r[0]) && IsAsciiDigit(r[|r| - 1]);
    }
    TrimNoOp(r);
  }

  /** Normalising twice changes nothing. */
  lemma ValidateCrawlDelayIdempotent(value: string)
    ensures ValidateCrawlDelay(ValidateCrawlDelay(value)) == ValidateCrawlDelay(value)
  {
    var r := ValidateCrawlDelay(value);
    if r != "" {
      DigitsSanitized(r);
      assert KeepDigits(r) == r;
    }
  }


  // ---------------------------------------------------------------------
  // createMetaTag
  // ---------------------------------------------------------------------

  /** One rendered attribute, `key="escaped value"`. */
  function Attribute(key: string, value: string): string {
    key + "=\"" + EscapeHtml(value) + "\""
  }

  /** `.filter(([_, value]) => value && ...)`: the entries with a non-empty
      value, in order. */
  function NonEmptyEntries(props: seq<(string, string)>): (r: seq<(string, string)>)
    ensures |r| <= |props|
    ensures forall i :: 0 <= i < |r| ==> r[i].1 != "" && r[i] in props
    ensures forall e :: e in props && e.1 != "" ==> e in r
    ensures (forall i :: 0 <= i < |props| ==> props[i].1 == "") ==> r == []
    decreases |props|
  {
    if props == [] then []
    else if props[0].1 == "" then NonEmptyEntries(props[1..])
    else [props[0]] + NonEmptyEntries(props[1..])
  }

  /** The filter keeps the entries' order: it distributes over
      concatenation, and one entry is kept exactly when its value is
      filled. */
  lemma {:induction false} NonEmptyEntriesConcat(a: seq<(string, string)>, b: seq<(string, string)>)
    ensures NonEmptyEntries(a + b) == NonEmptyEntries(a) + NonEmptyEntries(b)
    decreases |a|
  {
    if a == [] {
      assert a + b == b;
    } else {
      assert (a + b)[0] == a[0] && (a + b)[1..] == a[1..] + b;
      NonEmptyEntriesConcat(a[1..], b);
    }
  }

  /** `.map(([key, value]) => ...)`. */
  function Attributes(entries: seq<(string, string)>): (r: seq<string>)
    ensures |r| == |entries|
    ensures forall i :: 0 <= i < |entries| ==> r[i] == Attribute(entries[i].0, entries[i].1)
    decreases |entries|
  {
    if entries == [] then [] else [Attribute(entries[0].0, entries[0].1)] + Attributes(entries[1..])
  }

  /** `createMetaTag(props)`, the entries given in `Object.entries` order. */
  function CreateMetaTag(props: seq<(string, string)>): (r: string)
    ensures StartsWith(r, "<meta ") && EndsWith(r, " />")
    ensures (forall i :: 0 <= i < |props| ==> props[i].1 == "") ==> r == "<meta  />"
  {
    "<meta " + MetaBody(props) + " />"
  }

  /** The attribute text of the tag: the filled entries rendered in order,
      separated by single spaces. */
  function MetaBody(props: seq<(string, string)>): string {
    Join(Attributes(NonEmptyEntries(props)), " ")
  }

  /** A rendered attribute gives its value back: between `key="` and the
      closing quote stands the escaped value, which decodes to the value. */
  lemma AttributeReadsBack(k: string, v: string)
    ensures var m := Between(Attribute(k, v), k + "=\"", "\"");
            m == Some(EscapeHtml(v)) && Unescape(m.value, HtmlApos) == v
  {
    BetweenWrap(k + "=\"", EscapeHtml(v), "\"");
    EscapeHtmlEntities(v);
  }

  /** One entry is kept exactly when its value is filled. */
  lemma NonEmptyEntriesSingle(k: string, v: string)
    ensures NonEmptyEntries([(k, v)]) == if v == "" then [] else [(k, v)]
  {
    assert [(k, v)][1..] == [];
  }

  /** Rendering one more entry appends its attribute. */
  lemma AttributesSnoc(es: seq<(string, string)>, k: string, v: string)
    ensures Attributes(es + [(k, v)]) == Attributes(es) + [Attribute(k, v)]
  {
    var r := Attributes(es + [(k, v)]);
    assert forall i :: 0 <= i < |es| ==> r[i] == Attribute(es[i].0, es[i].1);
  }

  /** Adding one more entry: an empty value changes nothing; a filled one
      puts its attribute just before ` />`, after a single space when an
      attribute is already there. */
  lemma CreateMetaTagSnoc(props: seq<(string, string)>, k: string, v: string)
    ensures v == "" ==> MetaBody(props + [(k, v)]) == MetaBody(props)
    ensures v != "" ==>
              MetaBody(props + [(k, v)])
              == MetaBody(props) + (if NonEmptyEntries(props) == [] then "" else " ") + Attribute(k, v)
  {
    NonEmptyEntriesConcat(props, [(k, v)]);
    NonEmptyEntriesSingle(k, v);
    var es := NonEmptyEntries(props);
    if v == "" {
      assert es + [] == es;
    } else {
      AttributesSnoc(es, k, v);
      if es != [] {
        JoinSnoc(Attributes(es), Attribute(k, v), " ");
      }
    }
  }

  /** A tag of one filled entry reads back as that entry's value. */
  lemma CreateMetaTagReadsBack(k: string, v: string)
    requires v != ""
    ensures var m := Between(CreateMetaTag([(k, v)]), "<meta " + k + "=\"", "\" />");
            m == Some(EscapeHtml(v)) && Unescape(m.value, HtmlApos) == v
  {
    NonEmptyEntriesSingle(k, v);
    assert Attributes([(k, v)]) == [Attribute(k, v)];
    var open, e := "<meta " + k + "=\"", EscapeHtml(v);
    calc {
      CreateMetaTag([(k, v)]);
      "<meta " + (k + "=\"" + e + "\"") + " />";
      open + e + "\" />";
    }
    BetweenWrap(open, e, "\" />");
    EscapeHtmlEntities(v);
  }

  /** One rendered attribute holds two quotes and no angle bracket, when
      its key holds none. */
  lemma AttributeCount(k: string, v: string, c: char)
    requires c == '"' || c == '<' || c == '>'
    requires c !in k
    ensures Count(Attribute(k, v), c) == if c == '"' then 2 else 0
  {
    var e := EscapeHtml(v);
    CountConcat(k + "=\"" + e, "\"", c);
    CountConcat(k + "=\"", e, c);
    CountConcat(k, "=\"", c);
    if c == '"' {
    } else if c == '<' {
    } else {
    }
  }

  /** Quotes and angle brackets in the rendered attributes: two quotes per
      entry and no angle bracket, when no key holds one. */
  lemma {:induction false} AttributesCount(entries: seq<(string, string)>, c: char)
    requires c == '"' || c == '<' || c == '>'
    requires forall i :: 0 <= i < |entries| ==> c !in entries[i].0
    ensures CountAll(Attributes(entries), c) == if c == '"' then 2 * |entries| else 0
    decreases |entries|
  {
    if entries != [] {
      AttributeCount(entries[0].0, entries[0].1, c);
      assert Attributes(entries)[1..] == Attributes(entries[1..]);
      AttributesCount(entries[1..], c);
    }
  }

  /** The same count over the joined attribute text. */
  lemma AttributesJoinCount(entries: seq<(string, string)>, c: char)
    requires c == '"' || c == '<' || c == '>'
    requires forall i :: 0 <= i < |entries| ==> c !in entries[i].0
    ensures Count(Join(Attributes(entries), " "), c) == if c == '"' then 2 * |entries| else 0
  {
    AttributesCount(entries, c);
    CountJoin(Attributes(entries), " ", c);
  }

  /** The fixed text around the attributes adds one `<`, one `>` and no
      quote. */
  lemma MetaWrapperCounts(body: string)
    ensures Count("<meta " + body + " />", '"') == Count(body, '"')
    ensures Count("<meta " + body + " />", '<') == Count(body, '<') + 1
    ensures Count("<meta " + body + " />", '>') == Count(body, '>') + 1
  {
    assert Count("<meta ", '"') == 0 && Count(" />", '"') == 0;
    assert Count("<meta ", '<') == 1 && Count(" />", '<') == 0;
    assert Count("<meta ", '>') == 0 && Count(" />", '>') == 1;
  }

  /** No value can break out of the tag: with keys free of quotes and angle
      brackets, the tag holds one `<`, one `>`, and two quotes per non-empty
      entry, whatever the values are. */
  lemma CreateMetaTagWellFormed(props: seq<(string, string)>)
    requires forall i :: 0 <= i < |props| ==> '"' !in props[i].0 && '<' !in props[i].0 && '>' !in props[i].0
    ensures Count(CreateMetaTag(props), '"') == 2 * |NonEmptyEntries(props)|
    ensures Count(CreateMetaTag(props), '<') == 1
    ensures Count(CreateMetaTag(props), '>') == 1
  {
    var entries := NonEmptyEntries(props);
    var body := Join(Attributes(entries), " ");
    assert CreateMetaTag(props) == "<meta " + body + " />";
    forall c | c == '"' || c == '<' || c == '>'
      ensures Count(body, c) == if c == '"' then 2 * |entries| else 0
    {
      forall i | 0 <= i < |entries| ensures c !in entries[i].0 {
        var j :| 0 <= j < |props| && props[j] == entries[i];
      }
      AttributesJoinCount(entries, c);
    }
    MetaWrapperCounts(body);
  }
}
