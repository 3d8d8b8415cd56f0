/**
 * The robots.txt and sitemap.xml generator of
 * `pages/RobotsAndSitemapGenerator.tsx`, lifted out of its React state:
 * each memoised value is a function (or, where the source accumulates a
 * string step by step, a method) of the form fields. The browser's URL
 * parser is passed in as `isValidUrl` and `origin`, JavaScript's
 * `!isNaN(Number(s))` as `isNumeric`, and today's date as `isoDate`.
 *
 * The robots.txt records are those of RFC 9309: `User-agent`, `Allow` and
 * `Disallow` (sections 2.2.1 and 2.2.2) and the `Crawl-delay` and `Sitemap`
 * "other records" (section 2.2.4). The sitemap follows the Sitemaps XML
 * protocol 0.9.
 */
module RobotsSitemap {
  import opened Wrappers
  import opened Text
  import opened Sanitization

  // ---------------------------------------------------------------------
  // Form validation
  // ---------------------------------------------------------------------

  const UrlRequired := "Website URL is required"
  const UrlInvalid := "Invalid URL format (must start with http:// or https://)"
  const SitemapUrlInvalid := "Invalid sitemap URL format"

  /** `urlError`: empty exactly when the website URL is present and valid. */
  function UrlError(websiteUrl: string, isValidUrl: string -> bool): (r: string)
    ensures r == "" <==> websiteUrl != "" && isValidUrl(websiteUrl)
    ensures websiteUrl == "" ==> r == UrlRequired
    ensures websiteUrl != "" && !isValidUrl(websiteUrl) ==> r == UrlInvalid
  {
    if websiteUrl == "" then UrlRequired
    else if !isValidUrl(websiteUrl) then UrlInvalid
    else ""
  }

  /** `sitemapError`: the sitemap URL is optional, so only a present,
      invalid URL is an error. */
  function SitemapError(sitemapUrl: string, isValidUrl: string -> bool): (r: string)
    ensures r == "" <==> sitemapUrl == "" || isValidUrl(sitemapUrl)
    ensures r != "" ==> r == SitemapUrlInvalid
  {
    if sitemapUrl == "" then ""
    else if !isValidUrl(sitemapUrl) then SitemapUrlInvalid
    else ""
  }

  /** `baseUrl`: the origin of a valid website URL, or empty. `origin` returns
      `None` where `new URL(...)` throws. */
  function BaseUrl(websiteUrl: string, isValidUrl: string -> bool, origin: string -> Option<string>): (r: string)
    ensures r != "" ==> UrlError(websiteUrl, isValidUrl) == "" && origin(websiteUrl) == Some(r)
    ensures UrlError(websiteUrl, isValidUrl) != "" ==> r == ""
    ensures UrlError(websiteUrl, isValidUrl) == "" && origin(websiteUrl).Some? ==> r == origin(websiteUrl).value
    ensures origin(websiteUrl).None? ==> r == ""
  {
    if websiteUrl == "" || !isValidUrl(websiteUrl) then ""
    else match origin(websiteUrl)
      case None => ""
      case Some(o) => o
  }

  // ---------------------------------------------------------------------
  // robots.txt
  // ---------------------------------------------------------------------

  /** One robots.txt line. */
  datatype Record =
    | UserAgent(agent: string)
    | Allow(path: string)
    | Disallow(path: string)
    | CrawlDelay(delay: string)
    | Sitemap(url: string)
  {
    /** The field name followed by the colon and space the builder writes. */
    function Key(): string {
      match this
      case UserAgent(_) => "User-agent: "
      case Allow(_) => "Allow: "
      case Disallow(_) => "Disallow: "
      case CrawlDelay(_) => "Crawl-delay: "
      case Sitemap(_) => "Sitemap: "
    }

    function Value(): string {
      match this
      case UserAgent(v) => v
      case Allow(v) => v
      case Disallow(v) => v
      case CrawlDelay(v) => v
      case Sitemap(v) => v
    }

    function Render(): string {
      Key() + Value()
    }
  }

  /** Reads one line back into a record. */
  function ParseRecord(line: string): Option<Record> {
    if StartsWith(line, "User-agent: ") then Some(UserAgent(line[12..]))
    else if StartsWith(line, "Allow: ") then Some(Allow(line[7..]))
    else if StartsWith(line, "Disallow: ") then Some(Disallow(line[10..]))
    else if StartsWith(line, "Crawl-delay: ") then Some(CrawlDelay(line[13..]))
    else if StartsWith(line, "Sitemap: ") then Some(Sitemap(line[9..]))
    else None
  }

  /** Every rendered record reads back as itself. */
  lemma ParseRenderRecord(r: Record)
    ensures ParseRecord(r.Render()) == Some(r)
  {
    var line := r.Render();
    var k := |r.Key()|;
    assert line[..k] == r.Key() && line[k..] == r.Value();
    assert line[0] == r.Key()[0];
    match r
    case UserAgent(_) =>
    case Allow(_) =>
      DiffersAt(line, "User-agent: ", 0);
    case Disallow(_) =>
      DiffersAt(line, "User-agent: ", 0);
      DiffersAt(line, "Allow: ", 0);
    case CrawlDelay(_) =>
      DiffersAt(line, "User-agent: ", 0);
      DiffersAt(line, "Allow: ", 0);
      DiffersAt(line, "Disallow: ", 0);
    case Sitemap(_) =>
      DiffersAt(line, "User-agent: ", 0);
      DiffersAt(line, "Allow: ", 0);
      DiffersAt(line, "Disallow: ", 0);
      DiffersAt(line, "Crawl-delay: ", 0);
  }

  /** `sitemapUrl || `${baseUrl}/sitemap.xml``. */
  function SitemapTarget(sitemapUrl: string, baseUrl: string): string {
    if sitemapUrl != "" then sitemapUrl else baseUrl + "/sitemap.xml"
  }

  /** The records `robotsTxt` emits, in order: one group for every crawler
      that allows or disallows the whole site, then the optional crawl delay
      and the optional sitemap. */
  function RobotsRecords(allowAllBots: bool, crawlDelay: string, sitemapUrl: string, baseUrl: string,
                         isValidUrl: string -> bool, isNumeric: string -> bool): (rs: seq<Record>)
    ensures 2 <= |rs| <= 4
  {
    var target := SitemapTarget(sitemapUrl, baseUrl);
    [UserAgent("*"), if allowAllBots then Allow("/") else Disallow("/")]
    + (if crawlDelay != "" && isNumeric(crawlDelay) then [CrawlDelay(crawlDelay)] else [])
    + (if target != "" && isValidUrl(target) then [Sitemap(target)] else [])
  }

  /** The records always open with `User-agent: *` and the allow-all or
      disallow-all rule; a crawl delay is written exactly when it is present
      and numeric, a sitemap exactly for the chosen target when it is a valid
      URL, and the delay comes before the sitemap. */
  lemma RobotsRecordsShape(allowAllBots: bool, crawlDelay: string, sitemapUrl: string, baseUrl: string,
                           isValidUrl: string -> bool, isNumeric: string -> bool)
    ensures var rs := RobotsRecords(allowAllBots, crawlDelay, sitemapUrl, baseUrl, isValidUrl, isNumeric);
            && rs[0] == UserAgent("*")
            && rs[1] == (if allowAllBots then Allow("/") else Disallow("/"))
            && (CrawlDelay(crawlDelay) in rs <==> crawlDelay != "" && isNumeric(crawlDelay))
            && (forall i :: 2 <= i < |rs| ==> rs[i].CrawlDelay? || rs[i].Sitemap?)
            && (forall i, j :: 0 <= i < |rs| && 0 <= j < |rs| && rs[i].CrawlDelay? && rs[j].Sitemap? ==> i < j)
            && (forall u :: Sitemap(u) in rs <==>
                  u == SitemapTarget(sitemapUrl, baseUrl) && u != "" && isValidUrl(u))
  {
  }


  /** The records, each rendered and followed by a newline. */
  function Terminated(rs: seq<Record>): string
    decreases |rs|
  {
    if rs == [] then "" else rs[0].Render() + "\n" + Terminated(rs[1..])
  }

  function Renders(rs: seq<Record>): (lines: seq<string>)
    ensures |lines| == |rs|
    ensures forall i :: 0 <= i < |rs| ==> lines[i] == rs[i].Render()
    decreases |rs|
  {
    if rs == [] then [] else [rs[0].Render()] + Renders(rs[1..])
  }

  /** `content += line + '\n'` for one record: the text stays the
      newline-terminated rendering of the records written so far. */
  method AppendRecord(content: string, ghost rs: seq<Record>, r: Record) returns (c: string)
    requires content == Terminated(rs)
    ensures c == Terminated(rs + [r])
  {
    TerminatedSnoc(rs, r);
    c := content + r.Render() + "\n";
  }

  /** `robotsTxt`: accumulates the record lines and trims the result. */
  method RobotsTxt(baseUrl: string, allowAllBots: bool, crawlDelay: string, sitemapUrl: string,
                   isValidUrl: string -> bool, isNumeric: string -> bool) returns (content: string)
    ensures baseUrl == "" ==> content == ""
    ensures baseUrl != "" ==>
      content == Trim(Terminated(RobotsRecords(allowAllBots, crawlDelay, sitemapUrl, baseUrl, isValidUrl, isNumeric)))
  {
    if baseUrl == "" {
      return "";
    }
    ghost var rs: seq<Record> := [];
    content := "";
    if allowAllBots {
      content := AppendRecord(content, rs, UserAgent("*"));
      rs := rs + [UserAgent("*")];
      content := AppendRecord(content, rs, Allow("/"));
      rs := rs + [Allow("/")];
    } else {
      content := AppendRecord(content, rs, UserAgent("*"));
      rs := rs + [UserAgent("*")];
      content := AppendRecord(content, rs, Disallow("/"));
      rs := rs + [Disallow("/")];
    }
    ghost var rules := rs;
    assert rules == [UserAgent("*"), if allowAllBots then Allow("/") else Disallow("/")];

    if crawlDelay != "" && isNumeric(crawlDelay) {
      content := AppendRecord(content, rs, CrawlDelay(crawlDelay));
      rs := rs + [CrawlDelay(crawlDelay)];
    }
    assert rs == rules + (if crawlDelay != "" && isNumeric(crawlDelay) then [CrawlDelay(crawlDelay)] else []);

    var finalSitemapUrl := SitemapTarget(sitemapUrl, baseUrl);
    if finalSitemapUrl != "" && isValidUrl(finalSitemapUrl) {
      content := AppendRecord(content, rs, Sitemap(finalSitemapUrl));
      rs := rs + [Sitemap(finalSitemapUrl)];
    }
    assert rs == RobotsRecords(allowAllBots, crawlDelay, sitemapUrl, baseUrl, isValidUrl, isNumeric);
    content := Trim(content);
  }

  lemma {:induction false} TerminatedSnoc(rs: seq<Record>, r: Record)
    ensures Terminated(rs + [r]) == Terminated(rs) + r.Render() + "\n"
    decreases |rs|
  {
    if rs == [] {
      assert [r][1..] == [];
    } else {
      var head := rs[0].Render() + "\n";
      calc {
        Terminated(rs + [r]);
        { assert (rs + [r])[0] == rs[0] && (rs + [r])[1..] == rs[1..] + [r]; }
        head + Terminated(rs[1..] + [r]);
        { TerminatedSnoc(rs[1..], r); }
        head + (Terminated(rs[1..]) + r.Render() + "\n");
        (head + Terminated(rs[1..])) + r.Render() + "\n";
      }
    }
  }

  /** The terminated text is the lines joined by newlines, plus a newline. */
  lemma {:induction false} TerminatedJoin(rs: seq<Record>)
    requires rs != []
    ensures Terminated(rs) == Join(Renders(rs), "\n") + "\n"
    decreases |rs|
  {
    if |rs| > 1 {
      TerminatedJoin(rs[1..]);
      assert Renders(rs)[1..] == Renders(rs[1..]);
    }
  }

  /** Each rendered record begins with a letter of its field name. */
  lemma RenderStartsWithKey(r: Record)
    ensures r.Render() != [] && r.Render()[0] == r.Key()[0] && !IsSpace(r.Render()[0])
  {
  }

  /** A join starts with its first part. */
  lemma JoinStartsWith(parts: seq<string>, sep: string)
    requires parts != []
    ensures StartsWith(Join(parts, sep), parts[0])
  {
  }

  /** Trailing whitespace of a join comes only from its last part, when that
      part starts with a non-whitespace character. */
  lemma JoinTrimEndLast(lines: seq<string>, sep: string)
    requires lines != []
    requires lines[|lines| - 1] != [] && !IsSpace(lines[|lines| - 1][0])
    ensures TrimEnd(Join(lines, sep)) == Join(lines[..|lines| - 1] + [TrimEnd(lines[|lines| - 1])], sep)
  {
    var n := |lines|;
    var last := lines[n - 1];
    var front := lines[..n - 1];
    if n == 1 {
      assert front + [TrimEnd(last)] == [TrimEnd(last)];
    } else {
      assert front + [last] == lines;
      JoinSnoc(front, last, sep);
      TrimEndConcat(Join(front, sep) + sep, last);
      JoinSnoc(front, TrimEnd(last), sep);
    }
  }

  /** A string that starts with a non-whitespace character loses nothing at
      its start when trimmed. */
  lemma TrimStartNoOp(s: string)
    requires s != [] && !IsSpace(s[0])
    ensures TrimStart(s) == s
  {
  }

  /** Trimming the accumulated text only removes the final newline and any
      whitespace that ends the last record's value: the text is the lines
      joined by newlines, the last line trimmed at its end. */
  lemma RobotsTextLines(rs: seq<Record>)
    requires rs != []
    ensures Trim(Terminated(rs)) == Join(Renders(rs)[..|rs| - 1] + [TrimEnd(rs[|rs| - 1].Render())], "\n")
  {
    var lines := Renders(rs);
    var joined := Join(lines, "\n");
    TerminatedJoin(rs);
    RenderStartsWithKey(rs[0]);
    RenderStartsWithKey(rs[|rs| - 1]);
    JoinStartsWith(lines, "\n");
    assert joined[0] == lines[0][0];
    TrimStartNoOp(joined + "\n");
    TrimEndAppendSpace(joined, '\n');
    JoinTrimEndLast(lines, "\n");
  }

  /** Reads a robots.txt text back, one record per line. */
  function ParseRobots(text: string): seq<Option<Record>> {
    ParseLines(Split(text, '\n'))
  }

  function ParseLines(lines: seq<string>): (r: seq<Option<Record>>)
    ensures |r| == |lines|
    ensures forall i :: 0 <= i < |lines| ==> r[i] == ParseRecord(lines[i])
    decreases |lines|
  {
    if lines == [] then [] else [ParseRecord(lines[0])] + ParseLines(lines[1..])
  }

  /** The records, each wrapped in `Some`. */
  function Parsed(rs: seq<Record>): (r: seq<Option<Record>>)
    ensures |r| == |rs|
    ensures forall i :: 0 <= i < |rs| ==> r[i] == Some(rs[i])
    decreases |rs|
  {
    if rs == [] then [] else [Some(rs[0])] + Parsed(rs[1..])
  }

  /** Values that keep every record on its own line, with a last value that
      trimming leaves alone. */
  predicate LineSafe(rs: seq<Record>) {
    && rs != []
    && (forall i :: 0 <= i < |rs| ==> '\n' !in rs[i].Value())
    && var v := rs[|rs| - 1].Value(); v != [] && !IsSpace(v[|v| - 1])
  }

  /** The field names hold no newline, start with a letter and end with the
      space that separates them from the value. */
  lemma KeyFacts(r: Record)
    ensures var k := r.Key(); '\n' !in k && k != [] && !IsSpace(k[0]) && k[|k| - 1] == ' '
  {
  }

  lemma {:induction false} RenderedLinesWithoutNewline(rs: seq<Record>)
    requires forall i :: 0 <= i < |rs| ==> '\n' !in rs[i].Value()
    ensures forall i :: 0 <= i < |rs| ==> '\n' !in Renders(rs)[i]
  {
    forall i | 0 <= i < |rs| ensures '\n' !in Renders(rs)[i] {
      KeyFacts(rs[i]);
    }
  }

  lemma {:induction false} RenderedLinesParse(rs: seq<Record>)
    ensures ParseLines(Renders(rs)) == Parsed(rs)
  {
    forall i | 0 <= i < |rs| ensures ParseRecord(Renders(rs)[i]) == Some(rs[i]) {
      ParseRenderRecord(rs[i]);
    }
  }

  /** A record whose value ends with a non-whitespace character is left
      alone by `TrimEnd`. */
  lemma RenderTrimEnd(r: Record)
    requires var v := r.Value(); v != [] && !IsSpace(v[|v| - 1])
    ensures TrimEnd(r.Render()) == r.Render()
  {
    var line := r.Render();
    assert line[|line| - 1] == r.Value()[|r.Value()| - 1];
  }

  /** For line-safe records trimming removes only the final newline. */
  lemma LineSafeTrim(rs: seq<Record>)
    requires LineSafe(rs)
    ensures Trim(Terminated(rs)) == Join(Renders(rs), "\n")
  {
    var lines := Renders(rs);
    RenderTrimEnd(rs[|rs| - 1]);
    SnocLast(lines);
    RobotsTextLines(rs);
  }

  /** Round trip: the robots.txt text of line-safe records parses back, line
      by line, into exactly the records it was built from. */
  lemma RobotsTextParsesBack(rs: seq<Record>)
    requires LineSafe(rs)
    ensures ParseRobots(Trim(Terminated(rs))) == Parsed(rs)
  {
    LineSafeTrim(rs);
    RenderedLinesWithoutNewline(rs);
    SplitJoin(Renders(rs), '\n');
    RenderedLinesParse(rs);
  }

  /** With a crawl delay made of digits and a sitemap URL that holds no
      newline and does not end with whitespace, the records are line-safe. */
  lemma RobotsRecordsLineSafe(allowAllBots: bool, delay: string, sitemapUrl: string, baseUrl: string,
                              isValidUrl: string -> bool, isNumeric: string -> bool)
    requires forall i :: 0 <= i < |delay| ==> IsAsciiDigit(delay[i])
    requires var t := SitemapTarget(sitemapUrl, baseUrl); '\n' !in t && (t == [] || !IsSpace(t[|t| - 1]))
    ensures LineSafe(RobotsRecords(allowAllBots, delay, sitemapUrl, baseUrl, isValidUrl, isNumeric))
  {
    var t := SitemapTarget(sitemapUrl, baseUrl);
    var rule := if allowAllBots then Allow("/") else Disallow("/");
    var rs := RobotsRecords(allowAllBots, delay, sitemapUrl, baseUrl, isValidUrl, isNumeric);
    assert '\n' !in delay;
    forall i | 0 <= i < |rs| ensures '\n' !in rs[i].Value() {
      assert rs[i] == UserAgent("*") || rs[i] == rule || rs[i] == CrawlDelay(delay) || rs[i] == Sitemap(t);
    }
    if t != "" && isValidUrl(t) {
      assert rs[|rs| - 1] == Sitemap(t);
    } else if delay != "" && isNumeric(delay) {
      assert rs[|rs| - 1] == CrawlDelay(delay);
      assert IsAsciiDigit(delay[|delay| - 1]);
    } else {
      assert rs == [UserAgent("*"), rule];
    }
  }

  /** The generator's output, under the same conditions, reads back as its
      records. */
  lemma RobotsTxtParsesBack(allowAllBots: bool, rawDelay: string, sitemapUrl: string, baseUrl: string,
                            isValidUrl: string -> bool, isNumeric: string -> bool)
    requires var t := SitemapTarget(sitemapUrl, baseUrl); '\n' !in t && (t == [] || !IsSpace(t[|t| - 1]))
    ensures var rs := RobotsRecords(allowAllBots, ValidateCrawlDelay(rawDelay), sitemapUrl, baseUrl, isValidUrl, isNumeric);
            ParseRobots(Trim(Terminated(rs))) == Parsed(rs)
  {
    var delay := ValidateCrawlDelay(rawDelay);
    assert forall i :: 0 <= i < |delay| ==> IsAsciiDigit(delay[i]);
    RobotsRecordsLineSafe(allowAllBots, delay, sitemapUrl, baseUrl, isValidUrl, isNumeric);
    RobotsTextParsesBack(RobotsRecords(allowAllBots, ValidateCrawlDelay(rawDelay), sitemapUrl, baseUrl, isValidUrl, isNumeric));
  }

  // ---------------------------------------------------------------------
  // Sitemap path list
  // ---------------------------------------------------------------------

  /** The six paths every sitemap lists first. */
  const DefaultPaths: seq<string> := ["/", "/about", "/services", "/tools", "/blog", "/contact"]

  /** A path the sitemap accepts: `p && p.startsWith('/')`. */
  predicate IsPath(p: string) {
    p != "" && p[0] == '/'
  }

  /** `.map(p => p.trim())`. */
  function TrimAll(lines: seq<string>): (r: seq<string>)
    ensures |r| == |lines|
    ensures forall i :: 0 <= i < |lines| ==> r[i] == Trim(lines[i])
  {
    seq(|lines|, i requires 0 <= i < |lines| => Trim(lines[i]))
  }

  /** Every trimmed line is left alone by a second `trim`. */
  lemma TrimAllTrimmed(lines: seq<string>)
    ensures forall p :: p in TrimAll(lines) ==> Trim(p) == p
  {
    forall p | p in TrimAll(lines)
      ensures Trim(p) == p
    {
      var i :| 0 <= i < |lines| && TrimAll(lines)[i] == p;
      TrimIdempotent(lines[i]);
    }
  }

  /** `.filter(p => p && p.startsWith('/'))`: the entries that are paths, in
      order. */
  function KeepPaths(ts: seq<string>): (r: seq<string>)
    ensures forall p :: p in r <==> p in ts && IsPath(p)
    decreases |ts|
  {
    if ts == [] then [] else (if IsPath(ts[0]) then [ts[0]] else []) + KeepPaths(ts[1..])
  }

  /** `.map(p => p.trim()).filter(p => p && p.startsWith('/'))`: exactly the
      trimmed lines that are paths, each of them already trimmed. */
  function PathLines(lines: seq<string>): (r: seq<string>)
    ensures forall p :: p in r <==> p in TrimAll(lines) && IsPath(p)
    ensures forall i :: 0 <= i < |r| ==> IsPath(r[i]) && Trim(r[i]) == r[i]
  {
    TrimAllTrimmed(lines);
    KeepPaths(TrimAll(lines))
  }

  /** The filter keeps the entries' order: it distributes over
      concatenation. */
  lemma {:induction false} KeepPathsConcat(a: seq<string>, b: seq<string>)
    ensures KeepPaths(a + b) == KeepPaths(a) + KeepPaths(b)
    decreases |a|
  {
    if a == [] {
      assert a + b == b;
    } else {
      assert (a + b)[0] == a[0] && (a + b)[1..] == a[1..] + b;
      KeepPathsConcat(a[1..], b);
    }
  }

  /** Line by line: the lines' paths come out in the lines' order, and one
      line gives its trimmed text exactly when that is a path. */
  lemma PathLinesConcat(a: seq<string>, b: seq<string>)
    ensures PathLines(a + b) == PathLines(a) + PathLines(b)
    ensures forall l :: PathLines([l]) == if IsPath(Trim(l)) then [Trim(l)] else []
  {
    assert TrimAll(a + b) == TrimAll(a) + TrimAll(b);
    KeepPathsConcat(TrimAll(a), TrimAll(b));
    forall l ensures PathLines([l]) == if IsPath(Trim(l)) then [Trim(l)] else [] {
      var t := [Trim(l)];
      assert TrimAll([l]) == t;
      assert t[1..] == [] && KeepPaths(t[1..]) == [];
      assert KeepPaths(t) == (if IsPath(Trim(l)) then [Trim(l)] else []) + KeepPaths(t[1..]);
    }
  }

  /** The user's extra paths: one per line of the text area. */
  function CustomPaths(additionalPaths: string): seq<string> {
    if additionalPaths == "" then [] else PathLines(Split(additionalPaths, '\n'))
  }

  predicate NoDuplicates<T(==)>(s: seq<T>) {
    forall i, j :: 0 <= i < j < |s| ==> s[i] != s[j]
  }

  /** `Array.from(new Set(s))`: the first occurrence of every element, in the
      order of first occurrence. */
  function Dedup<T(==,!new)>(s: seq<T>): (r: seq<T>)
    ensures NoDuplicates(r)
    ensures forall x :: x in r <==> x in s
    decreases |s|
  {
    if s == [] then []
    else
      var d := Dedup(s[..|s| - 1]);
      assert forall x :: x in s <==> x in s[..|s| - 1] || x == s[|s| - 1];
      if s[|s| - 1] in d then d else d + [s[|s| - 1]]
  }

  lemma {:induction false} FirstIndexSnoc<T(!new)>(s: seq<T>, y: T, x: T)
    requires x in s
    ensures FirstIndex(s + [y], x) == FirstIndex(s, x)
    decreases |s|
  {
    if s[0] != x {
      assert (s + [y])[1..] == s[1..] + [y];
      FirstIndexSnoc(s[1..], y, x);
    }
  }

  /** Dedup keeps first occurrences in their order: listed elements appear in
      the order of their first occurrence in the input. */
  lemma {:induction false} DedupKeepsFirstOccurrenceOrder<T(!new)>(s: seq<T>)
    ensures forall i, j :: 0 <= i < j < |Dedup(s)| ==> FirstIndex(s, Dedup(s)[i]) < FirstIndex(s, Dedup(s)[j])
    decreases |s|
  {
    if s != [] {
      var s', x := s[..|s| - 1], s[|s| - 1];
      assert s == s' + [x];
      var d := Dedup(s');
      DedupKeepsFirstOccurrenceOrder(s');
      forall y | y in s' ensures FirstIndex(s, y) == FirstIndex(s', y) {
        FirstIndexSnoc(s', x, y);
      }
      if x !in d {
        assert x !in s';
        assert FirstIndex(s, x) == |s'|;
      }
    }
  }

  /** Dedup of a concatenation starts with the dedup of the first part. */
  lemma {:induction false} DedupPrefix<T(!new)>(a: seq<T>, b: seq<T>)
    ensures |Dedup(a)| <= |Dedup(a + b)| && Dedup(a + b)[..|Dedup(a)|] == Dedup(a)
    decreases |b|
  {
    if b == [] {
      assert a + b == a;
    } else {
      var b' := b[..|b| - 1];
      assert (a + b)[..|a + b| - 1] == a + b';
      DedupPrefix(a, b');
    }
  }

  /** Dedup of a sequence without duplicates followed by more elements starts
      with that sequence. */
  lemma DedupExtends<T(!new)>(a: seq<T>, b: seq<T>)
    requires NoDuplicates(a)
    ensures |a| <= |Dedup(a + b)| && Dedup(a + b)[..|a|] == a
  {
    DedupNoDuplicates(a);
    DedupPrefix(a, b);
  }

  /** A sequence without duplicates is its own dedup. */
  lemma {:induction false} DedupNoDuplicates<T(!new)>(s: seq<T>)
    requires NoDuplicates(s)
    ensures Dedup(s) == s
    decreases |s|
  {
    if s != [] {
      var s' := s[..|s| - 1];
      assert NoDuplicates(s');
      DedupNoDuplicates(s');
      assert s[|s| - 1] !in s';
      assert s' + [s[|s| - 1]] == s;
    }
  }

  /** `uniquePaths`. */
  function SitemapPaths(additionalPaths: string): seq<string> {
    NonEmptyParts(Dedup(DefaultPaths + CustomPaths(additionalPaths)))
  }

  /** The six defaults are trimmed paths. */
  lemma DefaultPathsArePaths()
    ensures forall i :: 0 <= i < |DefaultPaths| ==> IsPath(DefaultPaths[i]) && Trim(DefaultPaths[i]) == DefaultPaths[i]
  {
    forall i | 0 <= i < |DefaultPaths| ensures IsPath(DefaultPaths[i]) && Trim(DefaultPaths[i]) == DefaultPaths[i] {
      var p := DefaultPaths[i];
      assert p[0] == '/';
      assert !IsSpace(p[|p| - 1]) by {
        assert p[|p| - 1] in "/tuslcg";
      }
      TrimNoOp(p);
    }
  }

  lemma DefaultPathsDistinct()
    ensures NoDuplicates(DefaultPaths)
  {
  }

  /** The candidates of the path list are all trimmed paths. */
  lemma CandidatesArePaths(additionalPaths: string)
    ensures var all := DefaultPaths + CustomPaths(additionalPaths);
            forall i :: 0 <= i < |all| ==> IsPath(all[i]) && Trim(all[i]) == all[i]
  {
    DefaultPathsArePaths();
  }

  /** `.filter(Boolean)` removes nothing: every candidate is a path. */
  lemma SitemapPathsDedup(additionalPaths: string)
    ensures SitemapPaths(additionalPaths) == Dedup(DefaultPaths + CustomPaths(additionalPaths))
    ensures forall p :: p in SitemapPaths(additionalPaths) ==> IsPath(p) && Trim(p) == p
  {
    var all := DefaultPaths + CustomPaths(additionalPaths);
    var d := Dedup(all);
    CandidatesArePaths(additionalPaths);
    forall i | 0 <= i < |d| ensures IsPath(d[i]) && Trim(d[i]) == d[i] {
      assert d[i] in all;
    }
  }

  /** The path list: the six defaults first and at their places, then the
      user's trimmed lines that start with `/`; every path once; each of them
      a trimmed path. */
  lemma SitemapPathsShape(additionalPaths: string)
    ensures var ps := SitemapPaths(additionalPaths);
      && |ps| >= 6 && ps[..6] == DefaultPaths
      && NoDuplicates(ps)
      && (forall p :: p in ps <==> p in DefaultPaths || p in CustomPaths(additionalPaths))
      && (forall i :: 0 <= i < |ps| ==> IsPath(ps[i]) && Trim(ps[i]) == ps[i])
  {
    SitemapPathsDedup(additionalPaths);
    DefaultPathsDistinct();
    DedupExtends(DefaultPaths, CustomPaths(additionalPaths));
  }

  /** The order of the listed paths is their order of first occurrence in the
      defaults followed by the user's lines. */
  lemma SitemapPathsOrder(additionalPaths: string)
    ensures var all := DefaultPaths + CustomPaths(additionalPaths);
            var ps := SitemapPaths(additionalPaths);
            forall i, j :: 0 <= i < j < |ps| ==>
              ps[i] in all && ps[j] in all && FirstIndex(all, ps[i]) < FirstIndex(all, ps[j])
  {
    SitemapPathsDedup(additionalPaths);
    DedupKeepsFirstOccurrenceOrder(DefaultPaths + CustomPaths(additionalPaths));
  }

  // ---------------------------------------------------------------------
  // sitemap.xml
  // ---------------------------------------------------------------------

  const XmlDeclaration := "<?xml version=\"1.0\" encoding=\"UTF-8\"?>\n"
  const UrlsetOpen := "<urlset xmlns=\"http://www.sitemaps.org/schemas/sitemap/0.9\">\n"
  const UrlsetClose := "</urlset>\n"

  /** One `<url>` block: the escaped location, the shared modification date,
      a weekly change frequency and priority 0.8. */
  function UrlEntry(baseUrl: string, path: string, isoDate: string): string {
    "  <url>\n"
    + "    <loc>" + EscapeXml(baseUrl + path) + "</loc>\n"
    + "    <lastmod>" + isoDate + "</lastmod>\n"
    + "    <changefreq>weekly</changefreq>\n"
    + "    <priority>0.8</priority>\n"
    + "  </url>\n"
  }

  /** The blocks of the paths, one per path, in order. */
  function UrlEntries(baseUrl: string, paths: seq<string>, isoDate: string): (r: seq<string>)
    ensures |r| == |paths|
    ensures forall i :: 0 <= i < |paths| ==> r[i] == UrlEntry(baseUrl, paths[i], isoDate)
    decreases |paths|
  {
    if paths == [] then []
    else UrlEntries(baseUrl, paths[..|paths| - 1], isoDate) + [UrlEntry(baseUrl, paths[|paths| - 1], isoDate)]
  }

  /** One more path adds its block at the end. */
  lemma UrlEntriesSnoc(baseUrl: string, paths: seq<string>, i: nat, isoDate: string)
    requires i < |paths|
    ensures Concat(UrlEntries(baseUrl, paths[..i + 1], isoDate))
         == Concat(UrlEntries(baseUrl, paths[..i], isoDate)) + UrlEntry(baseUrl, paths[i], isoDate)
  {
    assert paths[..i + 1][..i] == paths[..i];
    ConcatSnoc(UrlEntries(baseUrl, paths[..i], isoDate), UrlEntry(baseUrl, paths[i], isoDate));
  }

  /** The path list as `sitemapXml` builds it: the defaults, with the
      user's path lines pushed after them, de-duplicated. */
  method UniquePaths(additionalPaths: string) returns (uniquePaths: seq<string>)
    ensures uniquePaths == SitemapPaths(additionalPaths)
  {
    var paths := DefaultPaths;
    if additionalPaths != "" {
      var customPaths := PathLines(Split(additionalPaths, '\n'));
      paths := paths + customPaths;
    }
    assert paths == DefaultPaths + CustomPaths(additionalPaths);
    uniquePaths := NonEmptyParts(Dedup(paths));
  }

  /** `sitemapXml`: builds the path list, then appends one block per path. */
  method SitemapXml(baseUrl: string, additionalPaths: string, isoDate: string) returns (xml: string)
    ensures baseUrl == "" ==> xml == ""
    ensures baseUrl != "" ==>
      xml == XmlDeclaration + UrlsetOpen + Concat(UrlEntries(baseUrl, SitemapPaths(additionalPaths), isoDate)) + UrlsetClose
  {
    if baseUrl == "" {
      return "";
    }
    var uniquePaths := UniquePaths(additionalPaths);
    SitemapPathsDedup(additionalPaths);

    xml := XmlDeclaration;
    xml := xml + UrlsetOpen;
    ghost var head := xml;
    var i := 0;
    while i < |uniquePaths|
      invariant 0 <= i <= |uniquePaths|
      invariant xml == head + Concat(UrlEntries(baseUrl, uniquePaths[..i], isoDate))
    {
      var path := uniquePaths[i];
      assert IsPath(path);
      TrimKeepsFirst(path);
      ghost var before := Concat(UrlEntries(baseUrl, uniquePaths[..i], isoDate));
      if path != "" && Trim(path) != "" {
        xml := xml + UrlEntry(baseUrl, path, isoDate);
      }
      UrlEntriesSnoc(baseUrl, uniquePaths, i, isoDate);
      AppendAssoc(head, before, UrlEntry(baseUrl, path, isoDate));
      i := i + 1;
    }
    assert uniquePaths[..i] == uniquePaths;
    xml := xml + UrlsetClose;
  }

  // ---------------------------------------------------------------------
  // Download
  // ---------------------------------------------------------------------

  /** `downloadFile`'s MIME type: XML for `.xml` names, plain text otherwise. */
  function DownloadMime(filename: string): (mime: string)
    ensures mime == "application/xml" <==> EndsWith(filename, ".xml")
    ensures mime == "text/plain" <==> !EndsWith(filename, ".xml")
  {
    if EndsWith(filename, ".xml") then "application/xml" else "text/plain"
  }
}
