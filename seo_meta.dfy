/**
 * The meta-tag builders of `pages/SEOMetaGenerator.tsx`, lifted out of their
 * React state: the character-counter colouring, the `<title>`, description
 * and keywords tags, the Open Graph and Twitter Card tag lists, and the name
 * of the downloaded HTML file.
 */
module SeoMeta {
  import opened Wrappers
  import opened Text
  import opened Sanitization

  // ---------------------------------------------------------------------
  // Character counters
  // ---------------------------------------------------------------------

  const Emerald := "text-emerald-400"
  const Amber := "text-amber-400"
  const Rose := "text-rose-400"

  /** `counterClass`: within the good limit, within the warning limit, or
      over both. */
  function CounterClass(count: int, good: int, warn: int): (cls: string)
    ensures cls == Emerald <==> count <= good
    ensures cls == Amber <==> good < count <= warn
    ensures cls == Rose <==> good < count && warn < count
  {
    if count <= good then Emerald
    else if count <= warn then Amber
    else Rose
  }

  /** How far over its limits a counter is. */
  function Severity(cls: string): nat {
    if cls == Emerald then 0 else if cls == Amber then 1 else 2
  }

  /** A longer text never gets a milder colour. */
  lemma CounterClassMonotone(c1: int, c2: int, good: int, warn: int)
    requires c1 <= c2
    ensures Severity(CounterClass(c1, good, warn)) <= Severity(CounterClass(c2, good, warn))
  {
  }

  /** The title counter: good up to 60 characters, a warning up to 70. */
  function TitleCounter(title: string): (cls: string)
    ensures cls == Emerald <==> |title| <= 60
    ensures cls == Amber <==> 60 < |title| <= 70
    ensures cls == Rose <==> 70 < |title|
  {
    CounterClass(|title|, 60, 70)
  }

  /** The description counter: good up to 160 characters, a warning up to
      200. */
  function DescriptionCounter(description: string): (cls: string)
    ensures cls == Emerald <==> |description| <= 160
    ensures cls == Amber <==> 160 < |description| <= 200
    ensures cls == Rose <==> 200 < |description|
  {
    CounterClass(|description|, 160, 200)
  }

  // ---------------------------------------------------------------------
  // Tags with one content attribute
  // ---------------------------------------------------------------------

  /** `<meta attr="key" content="..." />` with the content escaped. */
  datatype MetaTag = MetaTag(attr: string, key: string, content: string)
  {
    /** Everything up to and including the quote that opens the content. */
    function Open(): string {
      "<" + "meta " + attr + "=" + "\"" + key + "\"" + " content=" + "\""
    }

    function Render(): string {
      Open() + EscapeHtml(content) + Close
    }
  }

  const Close := "\" />"

  /** Reads the content of a rendered tag back. */
  function ReadContent(line: string, attr: string, key: string): Option<string> {
    match Between(line, MetaTag(attr, key, "").Open(), Close)
    case None => None
    case Some(m) => Some(Unescape(m, HtmlApos))
  }

  /** No content can close its attribute or the tag early: what lies between
      the opening quote and the closing `" />` holds no quote or angle
      bracket, and decodes to the content. */
  lemma MetaTagContentReadsBack(t: MetaTag)
    ensures var m := Between(t.Render(), t.Open(), Close);
            && m == Some(EscapeHtml(t.content))
            && (forall i :: 0 <= i < |m.value| ==> m.value[i] != '"' && m.value[i] != '<' && m.value[i] != '>')
    ensures ReadContent(t.Render(), t.attr, t.key) == Some(t.content)
  {
    EscapeHtmlEntities(t.content);
    BetweenWrap(t.Open(), EscapeHtml(t.content), Close);
    assert MetaTag(t.attr, t.key, "").Open() == t.Open();
  }

  /** Counts of a quote or an angle bracket in the fixed parts of a tag. */
  lemma CountSingle(x: char, c: char)
    ensures Count([x], c) == if x == c then 1 else 0
  {
  }

  /** No quote or angle bracket in the fixed words of a tag. */
  lemma WordsCount(c: char)
    requires c == '"' || c == '<' || c == '>'
    ensures Count("meta ", c) == 0 && Count(" content=", c) == 0
  {
    assert c !in "meta ";
    assert c !in " content=";
  }

  lemma CloseCount(c: char)
    requires c == '"' || c == '<' || c == '>'
    ensures Count(Close, c) == if c == '"' || c == '>' then 1 else 0
  {
    if c == '<' {
    } else if c == '>' {
    } else {
    }
  }

  /** Counting over the parts of the opening of a tag. */
  lemma PartsCount(p0: string, p1: string, p2: string, p3: string, p4: string,
                   p5: string, p6: string, p7: string, p8: string, c: char)
    ensures Count(p0 + p1 + p2 + p3 + p4 + p5 + p6 + p7 + p8, c)
         == Count(p0, c) + Count(p1, c) + Count(p2, c) + Count(p3, c) + Count(p4, c)
            + Count(p5, c) + Count(p6, c) + Count(p7, c) + Count(p8, c)
  {
  }

  /** Counts of `c` in the opening of a tag: one `<` and three quotes. */
  lemma OpenCount(t: MetaTag, c: char)
    requires c == '"' || c == '<' || c == '>'
    requires c !in t.attr && c !in t.key
    ensures Count(t.Open(), c) == if c == '"' then 3 else if c == '<' then 1 else 0
  {
    var q := "\"";
    var lt, quote := if c == '<' then 1 else 0, if c == '"' then 1 else 0;
    assert Count("<", c) == lt && Count("=", c) == 0 && Count(q, c) == quote by {
      CountSingle('<', c);
      CountSingle('=', c);
      CountSingle('"', c);
    }
    assert Count("meta ", c) == 0 && Count(" content=", c) == 0 by {
      WordsCount(c);
    }
    assert Count(t.attr, c) == 0 && Count(t.key, c) == 0;
    PartsCount("<", "meta ", t.attr, "=", q, t.key, q, " content=", q, c);
  }

  /** Counts of `c` in the rendered tag around the escaped content. */
  lemma MetaTagCount(t: MetaTag, c: char)
    requires c == '"' || c == '<' || c == '>'
    requires c !in t.attr && c !in t.key
    ensures Count(t.Render(), c) == if c == '"' then 4 else 1
  {
    var o, e := t.Open(), EscapeHtml(t.content);
    CountConcat(o + e, Close, c);
    CountConcat(o, e, c);
    assert Count(e, c) == 0 by {
      assert c !in e;
    }
    OpenCount(t, c);
    CloseCount(c);
  }

  /** With a fixed attribute and key, the tag holds exactly four quotes, one
      `<` and one `>`, whatever the content. */
  lemma MetaTagWellFormed(t: MetaTag)
    requires forall c :: c in t.attr + t.key ==> c != '"' && c != '<' && c != '>'
    ensures Count(t.Render(), '"') == 4
    ensures Count(t.Render(), '<') == 1
    ensures Count(t.Render(), '>') == 1
  {
    forall c | c == '"' || c == '<' || c == '>' ensures Count(t.Render(), c) == if c == '"' then 4 else 1 {
      assert c !in t.attr && c !in t.key by {
        assert forall x :: x in t.attr ==> x in t.attr + t.key;
        assert forall x :: x in t.key ==> x in t.attr + t.key;
      }
      MetaTagCount(t, c);
    }
  }

  // ---------------------------------------------------------------------
  // Title, description, keywords
  // ---------------------------------------------------------------------

  /** `title || siteName`. */
  function TitleText(title: string, siteName: string): string {
    if title != "" then title else siteName
  }

  /** `metaTitle`. */
  function MetaTitle(title: string, siteName: string): (r: string)
    ensures StartsWith(r, "<title>") && EndsWith(r, "</title>")
  {
    "<title>" + EscapeHtml(TitleText(title, siteName)) + "</title>"
  }

  /** The title element's text decodes to the title, or to the site name
      when the title is empty, and cannot close the element early. */
  lemma MetaTitleReadsBack(title: string, siteName: string)
    ensures var m := Between(MetaTitle(title, siteName), "<title>", "</title>");
            && m.Some?
            && Unescape(m.value, HtmlApos) == TitleText(title, siteName)
            && '<' !in m.value
  {
    EscapeHtmlEntities(TitleText(title, siteName));
    BetweenWrap("<title>", EscapeHtml(TitleText(title, siteName)), "</title>");
  }

  /** `metaDescription`: always produced. */
  function MetaDescription(description: string): (r: string)
    ensures r != ""
    ensures ReadContent(r, "name", "description") == Some(description)
  {
    MetaTagContentReadsBack(MetaTag("name", "description", description));
    MetaTag("name", "description", description).Render()
  }

  /** `metaKeywords`: empty when there are no keywords. */
  function MetaKeywords(keywords: string): (r: string)
    ensures r == "" <==> keywords == ""
    ensures keywords != "" ==> ReadContent(r, "name", "keywords") == Some(keywords)
  {
    if keywords == "" then ""
    else
      MetaTagContentReadsBack(MetaTag("name", "keywords", keywords));
      MetaTag("name", "keywords", keywords).Render()
  }

  /** `htmlMetaBlock`: the non-empty tags among title, description and
      keywords, joined by newlines. */
  function HtmlMetaBlock(title: string, siteName: string, description: string, keywords: string): string {
    Join(NonEmptyParts([MetaTitle(title, siteName), MetaDescription(description), MetaKeywords(keywords)]), "\n")
  }

  /** The block holds the title tag, then the description tag, then the
      keywords tag exactly when there are keywords: two or three items. */
  lemma HtmlMetaBlockItems(title: string, siteName: string, description: string, keywords: string)
    ensures var items := NonEmptyParts([MetaTitle(title, siteName), MetaDescription(description), MetaKeywords(keywords)]);
            && items == [MetaTitle(title, siteName), MetaDescription(description)] + (if keywords != "" then [MetaKeywords(keywords)] else [])
            && |items| == (if keywords == "" then 2 else 3)
    ensures HtmlMetaBlock(title, siteName, description, keywords)
         == MetaTitle(title, siteName) + "\n" + MetaDescription(description)
            + (if keywords != "" then "\n" + MetaKeywords(keywords) else "")
  {
    ThreeItems(MetaTitle(title, siteName), MetaDescription(description), MetaKeywords(keywords));
  }

  /** Joining two non-empty items and an optional third. */
  lemma ThreeItems(t: string, d: string, k: string)
    requires t != "" && d != ""
    ensures NonEmptyParts([t, d, k]) == [t, d] + (if k != "" then [k] else [])
    ensures Join(NonEmptyParts([t, d, k]), "\n") == t + "\n" + d + (if k != "" then "\n" + k else "")
  {
    assert [t, d, k][1..] == [d, k] && [d, k][1..] == [k] && [k][1..] == [];
    var tail: seq<string> := if k != "" then [k] else [];
    assert NonEmptyParts([k]) == tail;
    assert NonEmptyParts([d, k]) == [d] + tail;
    assert NonEmptyParts([t, d, k]) == [t] + ([d] + tail);
    if k != "" {
      assert [t] + ([d] + tail) == [t, d, k];
      assert Join([d, k], "\n") == d + "\n" + k;
      assert Join([t, d, k], "\n") == t + "\n" + (d + "\n" + k);
      AppendAssoc(t + "\n", d + "\n", k);
      AppendAssoc(t + "\n", d, "\n");
    } else {
      assert [t] + ([d] + tail) == [t, d];
      assert [t, d][1..] == [d];
      assert Join([t, d], "\n") == t + "\n" + d;
    }
  }

  // ---------------------------------------------------------------------
  // Open Graph and Twitter Card lists
  // ---------------------------------------------------------------------

  /** A tag that is emitted only when its form field is non-empty. */
  datatype Slot = Slot(field: string, tag: MetaTag)

  /** The tags of the slots whose field is non-empty, in slot order. */
  function Emitted(slots: seq<Slot>): seq<MetaTag>
    decreases |slots|
  {
    if slots == [] then []
    else (Emitted(slots[..|slots| - 1])
      + (if slots[|slots| - 1].field != "" then [slots[|slots| - 1].tag] else []))
  }

  lemma EmittedSnoc(slots: seq<Slot>, s: Slot)
    ensures Emitted(slots + [s]) == Emitted(slots) + (if s.field != "" then [s.tag] else [])
  {
    assert (slots + [s])[..|slots|] == slots;
  }

  /** Every emitted tag is the tag of a slot with a non-empty field. */
  lemma {:induction false} EmittedFromSlots(slots: seq<Slot>)
    ensures forall t :: t in Emitted(slots) ==> exists j :: 0 <= j < |slots| && slots[j].field != "" && slots[j].tag == t
    decreases |slots|
  {
    if slots != [] {
      var front := slots[..|slots| - 1];
      EmittedFromSlots(front);
      forall t | t in Emitted(slots)
        ensures exists j :: 0 <= j < |slots| && slots[j].field != "" && slots[j].tag == t
      {
        if t in Emitted(front) {
          var j :| 0 <= j < |front| && front[j].field != "" && front[j].tag == t;
          assert slots[j] == front[j];
        } else {
          assert slots[|slots| - 1].tag == t;
        }
      }
    }
  }

  /** A slot with a non-empty field has its tag emitted. */
  lemma {:induction false} EmittedKeeps(slots: seq<Slot>, i: nat)
    requires i < |slots| && slots[i].field != ""
    ensures slots[i].tag in Emitted(slots)
    decreases |slots|
  {
    if i < |slots| - 1 {
      EmittedKeeps(slots[..|slots| - 1], i);
    }
  }

  /** The keys of the slots are pairwise distinct. */
  predicate DistinctKeys(slots: seq<Slot>) {
    forall i, j :: 0 <= i < j < |slots| ==> slots[i].tag.key != slots[j].tag.key
  }

  /** With distinct keys, a slot's tag is emitted exactly when its field is
      non-empty. */
  lemma EmittedIff(slots: seq<Slot>, i: nat)
    requires DistinctKeys(slots) && i < |slots|
    ensures slots[i].tag in Emitted(slots) <==> slots[i].field != ""
  {
    EmittedFromSlots(slots);
    if slots[i].field != "" {
      EmittedKeeps(slots, i);
    }
  }

  /** The number of emitted tags is the number of non-empty fields. */
  function Filled(slots: seq<Slot>): nat
    decreases |slots|
  {
    if slots == [] then 0
    else Filled(slots[..|slots| - 1]) + (if slots[|slots| - 1].field != "" then 1 else 0)
  }

  lemma {:induction false} EmittedLength(slots: seq<Slot>)
    ensures |Emitted(slots)| == Filled(slots)
    decreases |slots|
  {
    if slots != [] {
      EmittedLength(slots[..|slots| - 1]);
    }
  }

  /** With distinct keys, the emitted list holds one tag per filled slot,
      each slot's tag exactly when its field is non-empty. */
  lemma EmittedShape(slots: seq<Slot>)
    requires DistinctKeys(slots)
    ensures |Emitted(slots)| == Filled(slots)
    ensures forall i :: 0 <= i < |slots| ==> (slots[i].tag in Emitted(slots) <==> slots[i].field != "")
  {
    EmittedLength(slots);
    forall i | 0 <= i < |slots| ensures slots[i].tag in Emitted(slots) <==> slots[i].field != "" {
      EmittedIff(slots, i);
    }
  }

  /** A filled first slot puts its tag first. */
  lemma EmittedFirst(slots: seq<Slot>)
    requires slots != [] && slots[0].field != ""
    ensures Emitted(slots) != [] && Emitted(slots)[0] == slots[0].tag
  {
    assert Emitted(slots[..1]) == [slots[0].tag] by {
      EmittedSnoc([], slots[0]);
      assert slots[..1] == [] + [slots[0]];
    }
    EmittedPrefix(slots, 1);
  }

  /** A fixed tag appended after the emitted ones, with a key no slot uses,
      is last and is not mistaken for any slot's tag. */
  lemma EmittedThenFixed(slots: seq<Slot>, t: MetaTag)
    requires DistinctKeys(slots)
    requires forall i :: 0 <= i < |slots| ==> slots[i].tag.key != t.key
    ensures |Emitted(slots) + [t]| == Filled(slots) + 1
    ensures forall i :: 0 <= i < |slots| ==> (slots[i].tag in Emitted(slots) + [t] <==> slots[i].field != "")
  {
    EmittedShape(slots);
  }

  /** The rendered tags, in order. */
  function RenderAll(tags: seq<MetaTag>): (r: seq<string>)
    ensures |r| == |tags|
    ensures forall i :: 0 <= i < |tags| ==> r[i] == tags[i].Render()
  {
    seq(|tags|, i requires 0 <= i < |tags| => tags[i].Render())
  }

  /** `uploadedImage || socialImage`: the image both lists use. */
  function ImageSource(uploadedImage: string, socialImage: string): string {
    if uploadedImage != "" then uploadedImage else socialImage
  }

  const OgTypeTag := MetaTag("property", "og:type", "website")

  /** The optional Open Graph tags in their fixed order. */
  function OgSlots(siteName: string, title: string, description: string, pageUrl: string,
                   socialImage: string, uploadedImage: string): seq<Slot>
  {
    var image := ImageSource(uploadedImage, socialImage);
    [ Slot(siteName, MetaTag("property", "og:site_name", siteName)),
      Slot(title, MetaTag("property", "og:title", title)),
      Slot(description, MetaTag("property", "og:description", description)),
      Slot(pageUrl, MetaTag("property", "og:url", pageUrl)),
      Slot(image, MetaTag("property", "og:image", image)) ]
  }

  /** The Open Graph tag list: the filled optional tags, then `og:type`. */
  function OgTagList(siteName: string, title: string, description: string, pageUrl: string,
                     socialImage: string, uploadedImage: string): seq<MetaTag>
  {
    Emitted(OgSlots(siteName, title, description, pageUrl, socialImage, uploadedImage)) + [OgTypeTag]
  }

  /** Lower-case letters and underscores need no escaping. */
  lemma EscapeLowercase(s: string)
    requires forall i :: 0 <= i < |s| ==> 'Z' < s[i] <= 'z'
    ensures EscapeHtml(s) == s
  {
    EscapePlain(s, HtmlApos);
  }

  /** `escapeHtml` leaves the fixed `og:type` content alone. */
  lemma OgTypeContentPlain()
    ensures EscapeHtml("website") == "website"
  {
    EscapeLowercase("website");
  }

  /** `escapeHtml` leaves the fixed `twitter:card` content alone. */
  lemma CardContentPlain()
    ensures EscapeHtml("summary_large_image") == "summary_large_image"
  {
    EscapeLowercase("summary_large_image");
  }


  /** Rendering distributes over appending one tag. */
  lemma RenderAllSnoc(tags: seq<MetaTag>, t: MetaTag)
    ensures RenderAll(tags + [t]) == RenderAll(tags) + [t.Render()]
  {
  }

  /** Five one-element appends spell out a five-element sequence. */
  lemma FiveSnocs<T>(a: T, b: T, c: T, d: T, e: T)
    ensures [] + [a] + [b] + [c] + [d] + [e] == [a, b, c, d, e]
  {
  }

  /** One conditional `push`: the tag of a slot is appended when its field
      is non-empty, so the list stays the rendering of the slots seen so
      far. */
  method PushIfFilled(tags: seq<string>, ghost done: seq<Slot>, s: Slot) returns (r: seq<string>)
    requires tags == RenderAll(Emitted(done))
    ensures r == RenderAll(Emitted(done + [s]))
  {
    EmittedSnoc(done, s);
    if s.field != "" {
      r := tags + [s.tag.Render()];
    } else {
      r := tags;
    }
  }

  /** `ogTags`: pushes each filled tag in turn, then `og:type`, and joins
      them with newlines. */
  method OgTags(siteName: string, title: string, description: string, pageUrl: string,
                socialImage: string, uploadedImage: string) returns (r: string)
    ensures r == Join(RenderAll(OgTagList(siteName, title, description, pageUrl, socialImage, uploadedImage)), "\n")
  {
    var tags: seq<string> := [];
    var imageSource := ImageSource(uploadedImage, socialImage);
    var s0 := Slot(siteName, MetaTag("property", "og:site_name", siteName));
    tags := PushIfFilled(tags, [], s0);
    var s1 := Slot(title, MetaTag("property", "og:title", title));
    tags := PushIfFilled(tags, [] + [s0], s1);
    var s2 := Slot(description, MetaTag("property", "og:description", description));
    tags := PushIfFilled(tags, [] + [s0] + [s1], s2);
    var s3 := Slot(pageUrl, MetaTag("property", "og:url", pageUrl));
    tags := PushIfFilled(tags, [] + [s0] + [s1] + [s2], s3);
    var s4 := Slot(imageSource, MetaTag("property", "og:image", imageSource));
    tags := PushIfFilled(tags, [] + [s0] + [s1] + [s2] + [s3], s4);
    ghost var slots := OgSlots(siteName, title, description, pageUrl, socialImage, uploadedImage);
    assert tags == RenderAll(Emitted(slots)) by {
      FiveSnocs(s0, s1, s2, s3, s4);
    }
    RenderAllSnoc(Emitted(slots), OgTypeTag);
    tags := tags + [OgTypeTag.Render()];
    r := Join(tags, "\n");
  }

  /** The Open Graph list: each optional tag is present exactly when its
      field is non-empty, in the fixed order, with the chosen image; the
      list always ends with `og:type` "website", so it is never empty. */
  lemma OgTagListShape(siteName: string, title: string, description: string, pageUrl: string,
                       socialImage: string, uploadedImage: string)
    ensures var slots := OgSlots(siteName, title, description, pageUrl, socialImage, uploadedImage);
            var tags := OgTagList(siteName, title, description, pageUrl, socialImage, uploadedImage);
            && |tags| == Filled(slots) + 1
            && tags[|tags| - 1] == OgTypeTag
            && (forall i :: 0 <= i < |slots| ==> (slots[i].tag in tags <==> slots[i].field != ""))
            && (ImageSource(uploadedImage, socialImage) != "" ==>
                  MetaTag("property", "og:image", ImageSource(uploadedImage, socialImage)) in tags)
  {
    var slots := OgSlots(siteName, title, description, pageUrl, socialImage, uploadedImage);
    OgKeysDistinct(siteName, title, description, pageUrl, socialImage, uploadedImage);
    EmittedThenFixed(slots, OgTypeTag);
    assert slots[4].tag == MetaTag("property", "og:image", ImageSource(uploadedImage, socialImage));
    assert slots[4].field == ImageSource(uploadedImage, socialImage);
  }

  /** The `og:*` keys are pairwise distinct, and none of the optional ones
      is `og:type`. */
  lemma OgKeysDistinct(siteName: string, title: string, description: string, pageUrl: string,
                       socialImage: string, uploadedImage: string)
    ensures var slots := OgSlots(siteName, title, description, pageUrl, socialImage, uploadedImage);
            && DistinctKeys(slots)
            && forall i :: 0 <= i < |slots| ==> slots[i].tag.key != OgTypeTag.key
  {
    var keys := ["og:site_name", "og:title", "og:description", "og:url", "og:image", "og:type"];
    assert keys[0][3] == 's' && keys[2][3] == 'd' && keys[3][3] == 'u' && keys[4][3] == 'i';
    assert keys[1][3] == 't' && keys[5][3] == 't' && keys[1][4] == 'i' && keys[5][4] == 'y';
  }


  /** The `ogTags` text is never empty and ends with the `og:type` tag. */
  lemma OgTagsEndWithType(siteName: string, title: string, description: string, pageUrl: string,
                          socialImage: string, uploadedImage: string)
    ensures EndsWith(Join(RenderAll(OgTagList(siteName, title, description, pageUrl, socialImage, uploadedImage)), "\n"),
                     OgTypeTag.Render())
  {
    var tags := OgTagList(siteName, title, description, pageUrl, socialImage, uploadedImage);
    var lines := RenderAll(tags);
    JoinEndsWithLast(lines, "\n");
    assert lines[|lines| - 1] == tags[|tags| - 1].Render();
  }


  /** `String.prototype.replace(c, '')` with a one-character string pattern:
      removes only the first occurrence. */
  function RemoveFirst(s: string, c: char): string
    decreases |s|
  {
    if s == [] then []
    else if s[0] == c then s[1..]
    else [s[0]] + RemoveFirst(s[1..], c)
  }

  /** Without `c` nothing changes; otherwise exactly the character at the
      first position of `c` is dropped. */
  lemma {:induction false} RemoveFirstSpec(s: string, c: char)
    ensures c !in s ==> RemoveFirst(s, c) == s
    ensures c in s ==> RemoveFirst(s, c) == s[..FirstIndex(s, c)] + s[FirstIndex(s, c) + 1..]
    decreases |s|
  {
    if s != [] && s[0] != c {
      RemoveFirstSpec(s[1..], c);
      if c in s {
        assert c in s[1..];
        var k := FirstIndex(s[1..], c);
        assert FirstIndex(s, c) == k + 1;
        assert s[..k + 1] == [s[0]] + s[1..][..k];
        assert s[1..][k + 1..] == s[k + 2..];
      } else {
        assert s == [s[0]] + s[1..];
      }
    }
  }

  /** Removing the first occurrence leaves one fewer. */
  lemma {:induction false} RemoveFirstCount(s: string, c: char)
    ensures Count(RemoveFirst(s, c), c) == if c in s then Count(s, c) - 1 else Count(s, c)
    decreases |s|
  {
    if s != [] {
      assert s == [s[0]] + s[1..];
      if s[0] != c {
        RemoveFirstCount(s[1..], c);
        assert RemoveFirst(s, c) == [s[0]] + RemoveFirst(s[1..], c);
        assert c in s <==> c in s[1..];
      }
    }
  }

  const TwitterCardTag := MetaTag("name", "twitter:card", "summary_large_image")

  /** `"@" + author.replace('@', '')`: the handle with one leading `@`
      when the author was typed with it. */
  function Creator(author: string): string {
    "@" + RemoveFirst(author, '@')
  }

  /** The Twitter Card tags in their fixed order; the card tag's field is
      never empty. */
  function TwitterSlots(author: string, title: string, description: string,
                        socialImage: string, uploadedImage: string): seq<Slot>
  {
    var image := ImageSource(uploadedImage, socialImage);
    [ Slot("summary_large_image", TwitterCardTag),
      Slot(author, MetaTag("name", "twitter:creator", Creator(author))),
      Slot(title, MetaTag("name", "twitter:title", title)),
      Slot(description, MetaTag("name", "twitter:description", description)),
      Slot(image, MetaTag("name", "twitter:image", image)) ]
  }

  function TwitterTagList(author: string, title: string, description: string,
                          socialImage: string, uploadedImage: string): seq<MetaTag>
  {
    Emitted(TwitterSlots(author, title, description, socialImage, uploadedImage))
  }

  /** The creator tag as the source writes it, `@` outside the escape, is
      the rendering of the creator content. */
  lemma CreatorAsWritten(author: string)
    ensures var t := MetaTag("name", "twitter:creator", Creator(author));
            t.Render() == t.Open() + "@" + EscapeHtml(RemoveFirst(author, '@')) + Close
  {
    var x := RemoveFirst(author, '@');
    var t := MetaTag("name", "twitter:creator", Creator(author));
    EscapeHtmlXmlConcat("@", x);
    EscapePlain("@", HtmlApos);
    AppendAssoc(t.Open(), "@", EscapeHtml(x));
  }

  /** `twitterTags`: the card tag, then each filled tag in turn, joined with
      newlines. The creator tag is pushed as its rendering, which is the
      source's inline form by `CreatorAsWritten`. */
  method TwitterTags(author: string, title: string, description: string,
                     socialImage: string, uploadedImage: string) returns (r: string)
    ensures r == Join(RenderAll(TwitterTagList(author, title, description, socialImage, uploadedImage)), "\n")
  {
    var tags: seq<string> := [];
    var imageSource := ImageSource(uploadedImage, socialImage);
    var s0 := Slot("summary_large_image", TwitterCardTag);
    EmittedSnoc([], s0);
    RenderAllSnoc([], TwitterCardTag);
    tags := tags + [TwitterCardTag.Render()];
    var s1 := Slot(author, MetaTag("name", "twitter:creator", Creator(author)));
    tags := PushIfFilled(tags, [] + [s0], s1);
    var s2 := Slot(title, MetaTag("name", "twitter:title", title));
    tags := PushIfFilled(tags, [] + [s0] + [s1], s2);
    var s3 := Slot(description, MetaTag("name", "twitter:description", description));
    tags := PushIfFilled(tags, [] + [s0] + [s1] + [s2], s3);
    var s4 := Slot(imageSource, MetaTag("name", "twitter:image", imageSource));
    tags := PushIfFilled(tags, [] + [s0] + [s1] + [s2] + [s3], s4);
    assert tags == RenderAll(Emitted(TwitterSlots(author, title, description, socialImage, uploadedImage))) by {
      FiveSnocs(s0, s1, s2, s3, s4);
    }
    r := Join(tags, "\n");
  }

  /** The Twitter list starts with the large-image card; each other tag is
      present exactly when its field is non-empty; the creator handle carries
      one `@` fewer of the author's own. */
  lemma TwitterTagListShape(author: string, title: string, description: string,
                            socialImage: string, uploadedImage: string)
    ensures var slots := TwitterSlots(author, title, description, socialImage, uploadedImage);
            var tags := TwitterTagList(author, title, description, socialImage, uploadedImage);
            && tags != [] && tags[0] == TwitterCardTag
            && |tags| == Filled(slots)
            && (forall i :: 0 <= i < |slots| ==> (slots[i].tag in tags <==> slots[i].field != ""))
  {
    var slots := TwitterSlots(author, title, description, socialImage, uploadedImage);
    TwitterKeysDistinct(author, title, description, socialImage, uploadedImage);
    EmittedShape(slots);
    assert slots[0] == Slot("summary_large_image", TwitterCardTag);
    EmittedFirst(slots);
  }


  /** The `twitter:*` keys are pairwise distinct. */
  lemma TwitterKeysDistinct(author: string, title: string, description: string,
                            socialImage: string, uploadedImage: string)
    ensures DistinctKeys(TwitterSlots(author, title, description, socialImage, uploadedImage))
  {
    var keys := ["twitter:card", "twitter:creator", "twitter:title", "twitter:description", "twitter:image"];
    assert keys[0][9] == 'a' && keys[1][9] == 'r';
    assert keys[2][8] == 't' && keys[3][8] == 'd' && keys[4][8] == 'i' && keys[0][8] == 'c';
  }

  /** The creator handle holds exactly one `@` more than the author after
      the first `@` is removed. */
  lemma CreatorCount(author: string)
    ensures Count(Creator(author), '@') == (if '@' in author then Count(author, '@') else Count(author, '@') + 1)
  {
    RemoveFirstCount(author, '@');
  }

  /** The tags of a prefix of the slots come first. */
  lemma {:induction false} EmittedPrefix(slots: seq<Slot>, n: nat)
    requires n <= |slots|
    ensures |Emitted(slots[..n])| <= |Emitted(slots)|
    ensures Emitted(slots)[..|Emitted(slots[..n])|] == Emitted(slots[..n])
    decreases |slots| - n
  {
    if n == |slots| {
      assert slots[..n] == slots;
    } else {
      EmittedPrefix(slots, n + 1);
      EmittedSnoc(slots[..n], slots[n]);
      assert slots[..n + 1] == slots[..n] + [slots[n]];
    }
  }

  // ---------------------------------------------------------------------
  // Download file name
  // ---------------------------------------------------------------------

  /** `.replace(/\s+/g, '-')`: each run of whitespace becomes one `-`. */
  function ReplaceSpaceRuns(s: string): (r: string)
    ensures forall i :: 0 <= i < |r| ==> !IsSpace(r[i])
    ensures |r| <= |s|
    decreases |s|
  {
    if s == [] then []
    else if IsSpace(s[0]) then
      var rest := TrimStart(s);
      assert |rest| < |s|;
      "-" + ReplaceSpaceRuns(rest)
    else [s[0]] + ReplaceSpaceRuns(s[1..])
  }

  /** Text without whitespace is left unchanged. */
  lemma {:induction false} ReplaceSpaceRunsPlain(s: string)
    requires forall i :: 0 <= i < |s| ==> !IsSpace(s[i])
    ensures ReplaceSpaceRuns(s) == s
    decreases |s|
  {
    if s != [] {
      ReplaceSpaceRunsPlain(s[1..]);
      assert s == [s[0]] + s[1..];
    }
  }

  /** Leading whitespace that is followed by more text is removed whole. */
  lemma {:induction false} TrimStartSkipsRun(a: string, b: string)
    requires AllSpace(a)
    requires b == [] || !IsSpace(b[0])
    ensures TrimStart(a + b) == b
    decreases |a|
  {
    if a != [] {
      assert (a + b)[1..] == a[1..] + b;
      TrimStartSkipsRun(a[1..], b);
    } else {
      assert a + b == b;
    }
  }

  /** Trimming the start of text that holds a non-whitespace character
      does not reach past it. */
  lemma {:induction false} TrimStartConcat(a: string, b: string)
    requires a != [] && !IsSpace(a[|a| - 1])
    ensures TrimStart(a + b) == TrimStart(a) + b
    decreases |a|
  {
    if IsSpace(a[0]) {
      assert (a + b)[1..] == a[1..] + b;
      TrimStartConcat(a[1..], b);
    }
  }

  /** One unfolding of `ReplaceSpaceRuns` at a whitespace character. */
  lemma RunsAtSpace(x: string)
    requires x != [] && IsSpace(x[0])
    ensures ReplaceSpaceRuns(x) == "-" + ReplaceSpaceRuns(TrimStart(x))
  {
  }

  /** One unfolding of `ReplaceSpaceRuns` at any other character. */
  lemma RunsAtPlain(x: string)
    requires x != [] && !IsSpace(x[0])
    ensures ReplaceSpaceRuns(x) == [x[0]] + ReplaceSpaceRuns(x[1..])
  {
  }

  /** A maximal whitespace run between two pieces of text becomes one `-`
      between their replacements. */
  lemma {:induction false} ReplaceSpaceRunsSplit(a: string, w: string, b: string)
    requires w != [] && AllSpace(w)
    requires a == [] || !IsSpace(a[|a| - 1])
    requires b == [] || !IsSpace(b[0])
    ensures ReplaceSpaceRuns(a + w + b) == ReplaceSpaceRuns(a) + "-" + ReplaceSpaceRuns(b)
    decreases |a|, 1
  {
    if a == [] {
      SplitAtStart(w, b);
      assert a + w + b == w + b;
    } else if IsSpace(a[0]) {
      SplitAfterSpace(a, w, b);
    } else {
      SplitAfterPlain(a, w, b);
    }
  }

  /** The case of `ReplaceSpaceRunsSplit` where nothing precedes the run. */
  lemma SplitAtStart(w: string, b: string)
    requires w != [] && AllSpace(w)
    requires b == [] || !IsSpace(b[0])
    ensures ReplaceSpaceRuns(w + b) == "-" + ReplaceSpaceRuns(b)
  {
    RunsAtSpace(w + b);
    TrimStartSkipsRun(w, b);
  }

  /** The case of `ReplaceSpaceRunsSplit` where `a` starts with whitespace. */
  lemma {:induction false} SplitAfterSpace(a: string, w: string, b: string)
    requires w != [] && AllSpace(w)
    requires a == [] || !IsSpace(a[|a| - 1])
    requires b == [] || !IsSpace(b[0])
    requires a != [] && IsSpace(a[0])
    ensures ReplaceSpaceRuns(a + w + b) == ReplaceSpaceRuns(a) + "-" + ReplaceSpaceRuns(b)
    decreases |a|, 0
  {
    var s := a + w + b;
    var a' := TrimStart(a);
    TrimStartKeepsLast(a);
    assert |a'| < |a| by {
      assert a' == TrimStart(a[1..]);
    }
    var x, y := ReplaceSpaceRuns(a'), ReplaceSpaceRuns(b);
    calc {
      ReplaceSpaceRuns(s);
    == { RunsAtSpace(s); }
      "-" + ReplaceSpaceRuns(TrimStart(s));
    == { assert s == a + (w + b);
         TrimStartConcat(a, w + b);
         AppendAssoc(a', w, b); }
      "-" + ReplaceSpaceRuns(a' + w + b);
    == { ReplaceSpaceRunsSplit(a', w, b); }
      "-" + (x + "-" + y);
    ==
      ("-" + x) + "-" + y;
    == { RunsAtSpace(a); }
      ReplaceSpaceRuns(a) + "-" + y;
    }
  }

  /** The case of `ReplaceSpaceRunsSplit` where `a` starts with any other
      character. */
  lemma {:induction false} SplitAfterPlain(a: string, w: string, b: string)
    requires w != [] && AllSpace(w)
    requires a == [] || !IsSpace(a[|a| - 1])
    requires b == [] || !IsSpace(b[0])
    requires a != [] && !IsSpace(a[0])
    ensures ReplaceSpaceRuns(a + w + b) == ReplaceSpaceRuns(a) + "-" + ReplaceSpaceRuns(b)
    decreases |a|, 0
  {
    var s := a + w + b;
    var x, y := ReplaceSpaceRuns(a[1..]), ReplaceSpaceRuns(b);
    calc {
      ReplaceSpaceRuns(s);
    == { RunsAtPlain(s); }
      [s[0]] + ReplaceSpaceRuns(s[1..]);
    == { assert s[0] == a[0] && s[1..] == a[1..] + w + b; }
      [a[0]] + ReplaceSpaceRuns(a[1..] + w + b);
    == { ReplaceSpaceRunsSplit(a[1..], w, b); }
      [a[0]] + (x + "-" + y);
    ==
      ([a[0]] + x) + "-" + y;
    == { RunsAtPlain(a); }
      ReplaceSpaceRuns(a) + "-" + y;
    }
  }



  /** `toLowerCase` on one character, for the ASCII letters. */
  function LowerChar(c: char): (d: char)
    ensures !('A' <= d <= 'Z')
    ensures IsSpace(d) <==> IsSpace(c)
  {
    if 'A' <= c <= 'Z' then (c as int + 32) as char else c
  }

  function ToLowerAscii(s: string): (r: string)
    ensures |r| == |s|
    ensures forall i :: 0 <= i < |s| ==> r[i] == LowerChar(s[i])
  {
    seq(|s|, i requires 0 <= i < |s| => LowerChar(s[i]))
  }

  /** `title || siteName || 'meta'`. */
  function FilenameBase(title: string, siteName: string): (base: string)
    ensures base != ""
  {
    if title != "" then title else if siteName != "" then siteName else "meta"
  }

  /** The download name: the base with whitespace runs turned into `-`,
      lower-cased, plus `.html`. It holds no whitespace and no upper-case
      ASCII letter. */
  function Filename(title: string, siteName: string): (r: string)
    ensures EndsWith(r, ".html") && |r| > 5
    ensures forall i :: 0 <= i < |r| ==> !IsSpace(r[i]) && !('A' <= r[i] <= 'Z')
  {
    var slug := ToLowerAscii(ReplaceSpaceRuns(FilenameBase(title, siteName)));
    assert |slug| > 0 by {
      var b := FilenameBase(title, siteName);
      assert b[0] == (ReplaceSpaceRuns(b))[0] || IsSpace(b[0]);
    }
    slug + ".html"
  }

  /** A base without whitespace or capitals is used as it is. */
  lemma FilenamePlain(title: string, siteName: string)
    requires var b := FilenameBase(title, siteName);
             forall i :: 0 <= i < |b| ==> !IsSpace(b[i]) && !('A' <= b[i] <= 'Z')
    ensures Filename(title, siteName) == FilenameBase(title, siteName) + ".html"
  {
    var b := FilenameBase(title, siteName);
    ReplaceSpaceRunsPlain(b);
    assert ToLowerAscii(b) == b;
  }
}
