# Web tool builders: sanitising, robots.txt/sitemap, SEO meta tags, image compression

A Dafny model of the logic behind four browser tools of a small React site.

- The input-handling helpers in `utils/sanitization.ts`:
  - HTML and XML escaping;
  - `sanitizeInput`;
  - the crawl-delay normaliser;
  - the `<meta>` tag builder.
- The robots.txt and sitemap.xml builders in `pages/RobotsAndSitemapGenerator.tsx`:
  - URL validation messages;
  - the accumulated robots.txt text;
  - the de-duplicated path list;
  - the `<url>` blocks of the sitemap.
- The SEO tag builders in `pages/SEOMetaGenerator.tsx`:
  - the character-counter colours;
  - the title, description and keywords tags;
  - the Open Graph and Twitter Card lists, which push each tag only when its field is filled;
  - the download file name.
- The target-size search of `compressImage` in `pages/ImageCompressor.tsx`:
  - the long edge is clamped to 1920 pixels;
  - a quality loop steps from 0.92 down to 0.45;
  - a resolution loop shrinks the canvas while the blob is above 100 KiB and an edge is above 600 pixels;
  - a missing blob makes the search fail;
  - for PDF output, the image is centred on an A4 page.

Files:

- `wrappers.dfy`: the `Option` and `Result` types.
- `text.dfy`: the JavaScript string built-ins the code relies on: `trim` (ECMAScript white space and line terminators), `split` and `join` with one-character separators, `filter(Boolean)`, and occurrence counts.
- `sanitization.dfy`, `robots_sitemap.dfy`, `seo_meta.dfy`, `image_compressor.dfy`: one module per source file.

How the source's code is modelled:

- Pure expressions are functions.
- `robotsTxt`, `sitemapXml`, `ogTags` and `twitterTags` build their text or array step by step, so they are methods. Each is proved equal to a specification function, and the lemmas are proved about that function.
- `compressImage` is a method with two loops; each loop is its own method.

How the search is specified:

- Each call of the canvas encoder is recorded as an `Attempt`: the canvas size, the quality, what the encoder returned, and which phase made the call.
- The predicates `Search`, `Step` and `Stopped` say which traces of attempts the search may produce.
- The lemmas prove what every such trace satisfies, including that the trace is unique for a given encoder.

## Model

| member | source | states |
|---|---|---|
| `Sanitization.EscapeHtml` | utils/sanitization.ts:10-22 | The result holds no `<`, `>`, `"` or `'`, and it is empty exactly when the input is. |
| `Sanitization.EscapeXml` | utils/sanitization.ts:27-39 | The same, for the XML map. |
| `Sanitization.EscapeHtmlEntities` | utils/sanitization.ts:10-22 | Every `&` in the result starts one of the five HTML entities, and decoding the entities gives the input back. |
| `Sanitization.EscapeXmlEntities` | utils/sanitization.ts:27-39 | Every `&` starts one of the five predefined XML entities, and decoding gives the input back. |
| `Sanitization.UnescapeEscape` | utils/sanitization.ts:13-21 | Decoding the escape of any string gives that string (round trip), for either apostrophe entity. |
| `Sanitization.EscapeAmpersands` | utils/sanitization.ts:21 | Every ampersand in escaped text begins an entity, so no input ampersand survives bare. |
| `Sanitization.EscapeConcat` | utils/sanitization.ts:21 | Escaping character by character distributes over concatenation. |
| `Sanitization.EscapePlain` | utils/sanitization.ts:21 | Text without any of the five special characters is unchanged. |
| `Sanitization.EscapeHtmlXmlConcat` | utils/sanitization.ts:10-39 | Both escapes distribute over concatenation. |
| `Sanitization.EscapeXmlVersusHtml` | utils/sanitization.ts:10-39 | The two escapes agree exactly on inputs without an apostrophe. |
| `Sanitization.EscapeXmlLength` | utils/sanitization.ts:10-39 | The XML escape is longer than the HTML escape by exactly one character per apostrophe. |
| `Sanitization.StripControls` | utils/sanitization.ts:51 | The result is no longer than the input. A character occurs in it exactly when it occurs in the input and lies outside the class `[\x00-\x08\x0B-\x0C\x0E-\x1F\x7F]`. Input without such a character is unchanged. With `StripControlsConcat`, the kept characters are in their input order and multiplicity. |
| `Sanitization.StripControlsConcat` | utils/sanitization.ts:51 | Stripping distributes over concatenation. The result is therefore exactly the input's non-control characters, in order and with their multiplicity. |
| `Sanitization.SanitizeInput` | utils/sanitization.ts:47-62 | The result is at most `maxLength` long and holds no stripped control character. It is a prefix of the trimmed, stripped input and does not start with white space. It equals that text whenever the text fits. When the text is longer, the result is exactly its first `maxLength` characters. |
| `Sanitization.SanitizeIdempotent` | utils/sanitization.ts:47-62 | Sanitising twice equals sanitising once whenever the trimmed text fits in `maxLength`. |
| `Sanitization.SanitizeNotIdempotentAfterCut` | utils/sanitization.ts:54-59 | When the cut leaves trailing white space, a second pass trims it: `[x,' ',y]` with limit 2 gives `[x,' ']`, and that gives `[x]`. The function is idempotent only in the fitting case. |
| `Sanitization.KeepDigits` | utils/sanitization.ts:118 | The result is all ASCII digits. It holds exactly the input's digits, and input that is all digits is unchanged. With `KeepDigitsConcat`, the digits are kept in input order and multiplicity. |
| `Sanitization.KeepDigitsConcat` | utils/sanitization.ts:118 | The digit filter distributes over concatenation, so `"2a1"` gives `"21"`: the result is the input's digits in order, each as often as it occurs. |
| `Sanitization.NatToDecimal` | utils/sanitization.ts:122 | The decimal form is a non-empty digit string with no leading zero unless the number is 0. |
| `Sanitization.DigitsValueOfDecimal` | utils/sanitization.ts:119-122 | `parseInt(String(n))` is `n` (round trip). |
| `Sanitization.ValidateCrawlDelay` | utils/sanitization.ts:116-123 | The result is empty exactly when the sanitised input has no digit. Otherwise it is the canonical decimal, at most four digits long, of the number those digits spell, capped at 3600. |
| `Sanitization.ValidateCrawlDelayIdempotent` | utils/sanitization.ts:116-123 | Normalising a normalised delay changes nothing. |
| `Sanitization.NonEmptyEntries` | utils/sanitization.ts:106 | Exactly the input's entries with a non-empty value are kept. Every kept entry is drawn from the input, and every filled entry of the input is kept. When every value is empty, nothing is kept. |
| `Sanitization.NonEmptyEntriesConcat` | utils/sanitization.ts:106 | The filter distributes over concatenation, so the kept entries stay in entry order. |
| `Sanitization.NonEmptyEntriesSingle` | utils/sanitization.ts:106 | One entry is kept exactly when its value is filled. |
| `Sanitization.Attributes` | utils/sanitization.ts:107 | One attribute per kept entry, the i-th rendering the i-th entry as `key="escapeHtml(value)"`. |
| `Sanitization.AttributeReadsBack` | utils/sanitization.ts:107 | Between `key="` and the closing quote of an attribute stands the escaped value, and it decodes back to the value. |
| `Sanitization.CreateMetaTag` | utils/sanitization.ts:104-111 | The tag starts with `<meta ` and ends with ` />`. With no filled entry it is `<meta  />`. |
| `Sanitization.CreateMetaTagSnoc` | utils/sanitization.ts:104-111 | Adding an entry with an empty value leaves the attribute text unchanged. Adding a filled entry appends its `key="escapeHtml(value)"` attribute, after one space when an attribute is already there. By induction, the tag holds the filled entries' attributes in entry order, separated by single spaces. |
| `Sanitization.CreateMetaTagReadsBack` | utils/sanitization.ts:104-111 | The tag of one filled entry is `<meta key="`, the escaped value and `" />`, and its value decodes back. |
| `Sanitization.CreateMetaTagWellFormed` | utils/sanitization.ts:104-111 | With keys free of quotes and angle brackets, the tag holds two quotes per kept entry, one `<` and one `>`, whatever the values are. |
| `Text.TrimIdempotent` | utils/sanitization.ts:54 | `trim` is idempotent. |
| `Text.Trim` | utils/sanitization.ts:54 | The result does not start or end with ECMAScript white space and is no longer than the input. |
| `Text.JoinSplit` | pages/RobotsAndSitemapGenerator.tsx:99-100 | Joining the parts of `split(sep)` with `sep` gives back the input. |
| `Text.Split` | pages/RobotsAndSitemapGenerator.tsx:100 | `split` gives at least one part, and no part holds the separator. |
| `RobotsSitemap.UrlError` | pages/RobotsAndSitemapGenerator.tsx:35-39 | There is no error exactly when the website URL is present and valid. The two messages are returned in their two cases. |
| `RobotsSitemap.SitemapError` | pages/RobotsAndSitemapGenerator.tsx:41-45 | There is no error exactly when the sitemap URL is absent or valid. |
| `RobotsSitemap.BaseUrl` | pages/RobotsAndSitemapGenerator.tsx:47-55 | A URL that passes validation and has an origin gives that origin. A URL error, or a URL the parser rejects, gives an empty base. A non-empty base is always such an origin. |
| `RobotsSitemap.ParseRenderRecord` | pages/RobotsAndSitemapGenerator.tsx:63-76 | Every robots.txt line the builder writes reads back as its record. |
| `RobotsSitemap.RobotsRecords` | pages/RobotsAndSitemapGenerator.tsx:62-77 | Two to four records are written. |
| `RobotsSitemap.AppendRecord` | pages/RobotsAndSitemapGenerator.tsx:63-76 | One `content +=` keeps the text equal to the terminated rendering of the records so far. |
| `RobotsSitemap.RobotsTxt` | pages/RobotsAndSitemapGenerator.tsx:57-80 | Without a base URL the text is empty. Otherwise it is the trimmed, newline-terminated rendering of `RobotsRecords`. |
| `RobotsSitemap.TerminatedJoin` | pages/RobotsAndSitemapGenerator.tsx:60-79 | The accumulated text is the lines joined by newlines plus a final newline. |
| `RobotsSitemap.RobotsTextLines` | pages/RobotsAndSitemapGenerator.tsx:79 | `trim()` removes only the final newline and any trailing white space of the last line. |
| `RobotsSitemap.RobotsTextParsesBack` | pages/RobotsAndSitemapGenerator.tsx:57-80 | The trimmed text of line-safe records parses back, line by line, into those records. |
| `RobotsSitemap.RobotsTxtParsesBack` | pages/RobotsAndSitemapGenerator.tsx:57-80 | Given a crawl delay from `validateCrawlDelay` and a sitemap target that holds no newline and does not end in white space, the generated robots.txt parses back into its records (round trip). |
| `RobotsSitemap.PathLines` | pages/RobotsAndSitemapGenerator.tsx:99-102 | The kept lines are exactly the trimmed lines that are non-empty and start with `/`. Each is already trimmed. |
| `RobotsSitemap.KeepPathsConcat` | pages/RobotsAndSitemapGenerator.tsx:102 | The path filter distributes over concatenation, so the kept entries stay in order. |
| `RobotsSitemap.PathLinesConcat` | pages/RobotsAndSitemapGenerator.tsx:99-102 | The lines are handled one by one, in order. A single line gives its trimmed text exactly when that is a path, and nothing otherwise. |
| `RobotsSitemap.Dedup` | pages/RobotsAndSitemapGenerator.tsx:107 | `Array.from(new Set(s))` has no duplicates and holds the same elements. |
| `RobotsSitemap.DedupKeepsFirstOccurrenceOrder` | pages/RobotsAndSitemapGenerator.tsx:106-107 | De-duplication lists elements in the order of their first occurrence. |
| `RobotsSitemap.DedupNoDuplicates` | pages/RobotsAndSitemapGenerator.tsx:107 | A list without duplicates is its own de-duplication. |
| `RobotsSitemap.SitemapPathsShape` | pages/RobotsAndSitemapGenerator.tsx:89-107 | The six defaults come first, in their places. The list holds every candidate once and nothing else, and every entry is a trimmed path. |
| `RobotsSitemap.SitemapPathsOrder` | pages/RobotsAndSitemapGenerator.tsx:98-107 | Paths appear in their order of first occurrence among the defaults followed by the user's lines. |
| `RobotsSitemap.SitemapPathsDedup` | pages/RobotsAndSitemapGenerator.tsx:107 | `.filter(Boolean)` after the dedup removes nothing. |
| `RobotsSitemap.UniquePaths` | pages/RobotsAndSitemapGenerator.tsx:89-107 | The pushed-then-deduplicated list equals the specification `SitemapPaths`. |
| `RobotsSitemap.SitemapXml` | pages/RobotsAndSitemapGenerator.tsx:82-126 | Without a base URL the text is empty. Otherwise it is the declaration, the `urlset` opening, one escaped `<url>` block per unique path in order, and the closing tag. |
| `RobotsSitemap.DownloadMime` | pages/RobotsAndSitemapGenerator.tsx:136-137 | `application/xml` exactly for `.xml` names, `text/plain` exactly otherwise. |
| `SeoMeta.CounterClass` | pages/SEOMetaGenerator.tsx:8-12 | Each of the three colours is chosen exactly in its range of counts. |
| `SeoMeta.CounterClassMonotone` | pages/SEOMetaGenerator.tsx:8-12 | A longer text never gets a milder colour. |
| `SeoMeta.TitleCounter` | pages/SEOMetaGenerator.tsx:180 | The limits are 60 and 70, each range exactly. |
| `SeoMeta.DescriptionCounter` | pages/SEOMetaGenerator.tsx:187 | The limits are 160 and 200, each range exactly. |
| `SeoMeta.MetaTagContentReadsBack` | pages/SEOMetaGenerator.tsx:54-76 | In every `<meta … content="…" />` tag, the text between the opening quote and `" />` is the escaped content. It holds no quote or angle bracket and decodes back to the content. |
| `SeoMeta.MetaTagWellFormed` | pages/SEOMetaGenerator.tsx:54-76 | With a fixed attribute and key, every tag holds exactly four quotes, one `<` and one `>`, whatever the user typed. |
| `SeoMeta.MetaTitle` | pages/SEOMetaGenerator.tsx:53 | The tag is wrapped in `<title>` and `</title>`. |
| `SeoMeta.MetaTitleReadsBack` | pages/SEOMetaGenerator.tsx:53 | The element's text decodes to `title || siteName` and holds no `<`. |
| `SeoMeta.MetaDescription` | pages/SEOMetaGenerator.tsx:54 | The tag is always produced, and its content reads back as the description. |
| `SeoMeta.MetaKeywords` | pages/SEOMetaGenerator.tsx:55 | The tag is empty exactly without keywords. Otherwise its content reads back as the keywords. |
| `SeoMeta.HtmlMetaBlockItems` | pages/SEOMetaGenerator.tsx:80 | The block is the title tag, then the description tag, then the keywords tag exactly when there are keywords: two or three items joined by newlines. |
| `SeoMeta.EmittedShape` | pages/SEOMetaGenerator.tsx:57-78 | With distinct keys, conditional pushes give one tag per filled field, and a slot's tag is present exactly when its field is non-empty. |
| `SeoMeta.EmittedPrefix` | pages/SEOMetaGenerator.tsx:57-78 | The tags of earlier pushes come first, in order. |
| `SeoMeta.PushIfFilled` | pages/SEOMetaGenerator.tsx:60-64 | One `if (field) tags.push(...)` extends the rendered list by the slot's tag exactly when its field is filled. |
| `SeoMeta.OgTags` | pages/SEOMetaGenerator.tsx:57-67 | The pushed-and-joined text equals the joined rendering of `OgTagList`. |
| `SeoMeta.OgTagListShape` | pages/SEOMetaGenerator.tsx:57-67 | There is one tag per filled field plus `og:type`. Each optional OG tag is present exactly when its field is filled, and a non-empty `uploadedImage \|\| socialImage` yields an `og:image` tag with that content. `og:type` "website" is always last. |
| `SeoMeta.OgTagsEndWithType` | pages/SEOMetaGenerator.tsx:65-66 | The joined OG text ends with the `og:type` tag. |
| `SeoMeta.RemoveFirstSpec` | pages/SEOMetaGenerator.tsx:73 | `replace('@', '')` removes exactly the first `@`, and changes nothing when there is none. |
| `SeoMeta.RemoveFirstCount` | pages/SEOMetaGenerator.tsx:73 | The removal leaves one `@` fewer when there was one. |
| `SeoMeta.CreatorCount` | pages/SEOMetaGenerator.tsx:73 | The creator handle holds as many `@` as the author when the author holds one, and one more otherwise. |
| `SeoMeta.CreatorAsWritten` | pages/SEOMetaGenerator.tsx:73 | The creator tag renders as its opening, a literal `@`, the escaped author without its first `@`, and the closing, which is what the template writes. |
| `SeoMeta.TwitterTags` | pages/SEOMetaGenerator.tsx:69-78 | The pushed-and-joined text equals the joined rendering of `TwitterTagList`. |
| `SeoMeta.TwitterTagListShape` | pages/SEOMetaGenerator.tsx:69-78 | The list starts with the `summary_large_image` card. Every other tag is present exactly when its field is filled. The length is the number of filled fields. |
| `SeoMeta.ReplaceSpaceRuns` | pages/SEOMetaGenerator.tsx:153 | The result holds no white space and is no longer than the input. |
| `SeoMeta.ReplaceSpaceRunsSplit` | pages/SEOMetaGenerator.tsx:153 | A maximal run of white space between two pieces becomes exactly one `-`. |
| `SeoMeta.ReplaceSpaceRunsPlain` | pages/SEOMetaGenerator.tsx:153 | Text without white space is unchanged. |
| `SeoMeta.FilenameBase` | pages/SEOMetaGenerator.tsx:153 | `title \|\| siteName \|\| 'meta'` is never empty. |
| `SeoMeta.Filename` | pages/SEOMetaGenerator.tsx:153 | The name ends with `.html`, has a non-empty stem, and holds no white space and no upper-case ASCII letter. |
| `SeoMeta.FilenamePlain` | pages/SEOMetaGenerator.tsx:153 | A base without white space or capitals is used as it is. |
| `ImageCompressor.ExtensionRoundTrip` | pages/ImageCompressor.tsx:366 | Each format's extension names that format again. |
| `ImageCompressor.MimeMatchesExtension` | pages/ImageCompressor.tsx:130 | The canvas MIME type agrees with the extension for jpg, png and webp. `image/webp` is used exactly for WebP and PDF. |
| `ImageCompressor.DownloadNameParts` | pages/ImageCompressor.tsx:366 | The download name is `compressed-`, then the source name (or `image`), then `.` and the extension; each part can be read back. |
| `ImageCompressor.Round` | pages/ImageCompressor.tsx:117-118 | `Math.round` gives the integer within half a unit, with halves rounded up. |
| `ImageCompressor.ClampToMaxDimBounds` | pages/ImageCompressor.tsx:113-119 | An image within 1920×1920 is untouched. Otherwise neither edge exceeds 1920 and the longer edge is exactly 1920. |
| `ImageCompressor.ToBlob` | pages/ImageCompressor.tsx:131-132 | A canvas with a zero edge never yields a blob. |
| `ImageCompressor.QualityAfterStep` | pages/ImageCompressor.tsx:138 | One quality step goes from the k-th value of 0.92, 0.85, … (floored at 0.45) to the next. While above 0.45, k is at most 6. |
| `ImageCompressor.BeforeDownscale` | pages/ImageCompressor.tsx:134-141 | Every attempt before the resolution loop uses the unchanged clamped canvas. The k-th uses quality `max(0.45, 0.92 - 0.07k)`. There are at most seven retries. |
| `ImageCompressor.DownscaleStays` | pages/ImageCompressor.tsx:137-159 | Once the search downscales, every later attempt is a downscale. The two loops never interleave. |
| `ImageCompressor.DownscaleBounds` | pages/ImageCompressor.tsx:153-158 | Every downscale uses a scale factor in [0.8, 0.92] and a quality in [0.4, 0.45]. |
| `ImageCompressor.QualityBounds` | pages/ImageCompressor.tsx:134-159 | Quality stays in [0.4, 0.92] and never rises. |
| `ImageCompressor.ShrinkEdge` | pages/ImageCompressor.tsx:146-147 | `round(w * sf)` never grows an edge or makes it negative, and strictly shrinks an edge above 600. |
| `ImageCompressor.EdgesShrink` | pages/ImageCompressor.tsx:143-159 | The canvas never grows from attempt to attempt and never exceeds the clamped size. |
| `ImageCompressor.FirstWithinBudget` | pages/ImageCompressor.tsx:135-145 | A first encode within 100 KiB ends the search after that one encode. |
| `ImageCompressor.SmallNeverDownscaled` | pages/ImageCompressor.tsx:145 | A clamped canvas with both edges at most 600 is never downscaled. |
| `ImageCompressor.GaveUp` | pages/ImageCompressor.tsx:137-159 | A search that ends over budget has quality at most 0.45 and both edges at most 600. |
| `ImageCompressor.StepUnique` | pages/ImageCompressor.tsx:137-159 | From a given attempt, the encoder determines the next step. |
| `ImageCompressor.SearchUnique` | pages/ImageCompressor.tsx:134-159 | Two stopped traces of the same encoder from the same canvas are equal, so the specification determines the search. |
| `ImageCompressor.QualityLoop` | pages/ImageCompressor.tsx:134-141 | The quality loop yields a valid trace that has not downscaled and ends within budget or at quality 0.45. |
| `ImageCompressor.ResolutionLoop` | pages/ImageCompressor.tsx:143-159 | The resolution loop extends the trace (the given trace is a prefix of the result) to one that is valid and stopped. It terminates because the sum of the edges falls. |
| `ImageCompressor.Redraw` | pages/ImageCompressor.tsx:146-156 | One pass resizes by the current factor, lowers quality by 0.03 (floored at 0.4) and re-encodes. This is a `Step` of the trace, and the sum of the edges falls. |
| `ImageCompressor.PdfJpegQuality` | pages/ImageCompressor.tsx:174 | The embedded JPEG quality is at least 0.75 and at least the search's quality, and it is one of the two. |
| `ImageCompressor.PdfPlacementFits` | pages/ImageCompressor.tsx:186-192 | The image fills 95% of the page on one axis and at most that on the other. It keeps its aspect ratio, is centred (`2x + drawW = pageWidth`, `2y + drawH = pageHeight`), and leaves at least a 2.5% margin. |
| `ImageCompressor.CompressImage` | pages/ImageCompressor.tsx:81-205 | A failed decode gives `DecodeFailed`, and a missing 2D context gives `CanvasUnsupported`, each with no attempt. Otherwise the attempts form the stopped, fully encoded search trace of the clamped canvas. The result is a success exactly when the last blob exists, and `CompressionFailed` otherwise. On success the preview is the last blob: a non-PDF download is that blob, and a PDF download embeds it at `max(0.75, quality)` with the A4 placement. |

## Left out

- Lengths and indices count Unicode scalar values. JavaScript counts UTF-16 code units, so `maxLength`, the counter limits and `substring` differ for text outside the Basic Multilingual Plane.
- `toLowerCase` is modelled on ASCII letters only. Other letters are kept as they are.
- `createMetaTag` takes its entries as a sequence in `Object.entries` order. The ordering rules of JavaScript objects (integer-like keys first) are not modelled.
- `new URL`, its `origin`, and `Number`/`isNaN` are function parameters (`isValidUrl`, `origin`, `isNumeric`). The URL parser is not part of this model. `isValidUrl` and `safeGetUrlParts` in `utils/sanitization.ts`, and `safeGetUrlPartsLocal` in `pages/SEOMetaGenerator.tsx`, are therefore not modelled.
- `safeJsonParse` and the localStorage draft load/save with its debounce are left out: they wrap `JSON.parse` and browser storage.
- `Date.toISOString` is replaced by the `isoDate` parameter of `SitemapXml`.
- `robotsTxt` writes the crawl-delay field as stored. The form only ever stores the output of `validateCrawlDelay`, so `RobotsTxtParsesBack` assumes a delay from `ValidateCrawlDelay`.
- RobotsSitemap.RobotsRecords: its own contract states only the record count. The shape (first records, the delay exactly when present and numeric, the sitemap exactly for a valid target, the order) is stated by `RobotsRecordsShape`.
- The `buildHtml` body writes `title || siteName` and `description` into `<h1>` and `<p>` without escaping (pages/SEOMetaGenerator.tsx:144). Only the escaped tags are modelled; the unescaped body is not.
- The fixed `og:type` and `twitter:card` lines are modelled as the rendering of constant tags. `OgTypeContentPlain` and `CardContentPlain` show that escaping leaves their contents unchanged.
- The canvas (`drawImage`, `toBlob`, `toDataURL`), `createImageBitmap` and `Image` loading are parameters: `encode` gives the blob size for a MIME type, canvas size and quality, `source` is the decoded size or none, and `hasContext` says whether a 2D context exists. Only the rule that a canvas with no pixels yields no blob is built in.
- The PDF branch's reload of the JPEG data URL is assumed to succeed with the canvas size, and jsPDF's blob size is the parameter `pdfBytes`. jsPDF itself is not part of this model. Its A4 size in points (595.28 × 841.89) is used as a constant.
- Quality, scale factors and PDF geometry are exact reals, not IEEE doubles. `Math.round` is modelled exactly on those reals.
- Encoder sizes are uninterpreted, and nothing assumes that size falls with quality.
- The async structure, `setProgress`, object URLs, `alert`, clipboard and download clicks are left out. The search is sequential code.
- `humanFileSize` is left out: it relies on `Math.log`, `pow` and `toFixed`.
- ImageCompressor.ResolutionLoop: the model proves termination but not the source's iteration bound: at most eight downscales from a 1920-pixel edge.
- All JSX rendering, routing, and the static content and types are left out.
