# FitGirl index: ingestion and catalog, modelled in Dafny

The FitGirl index mirrors the release posts of fitgirl-repacks.site into a
local catalog and serves it. It has three writers:

- The Rust services in `src/services/sync_fitgirl_rss.rs`:
  - `sync_fitgirl_rss` walks the RSS feed down to the newest stored release.
  - `sync_all_releases` crawls the A-Z list.
- The one-shot TypeScript script `src/index.ts`, a full crawl into SQLite.
- The site's TypeScript sync in `src/pages/db/_sync.ts`:
  - `syncAll`, a crawl.
  - `syncRss`, a feed walk.

Each writer extracts a release from a post: title, link, publication date,
cover, sizes, genres, companies, languages, download mirrors, screenshots and
two descriptions. It then stores the release as a row plus three tag
dimensions and three join tables. The read side covers:

- the newest releases (`src/db/last_releases.rs`);
- the search query text (`src/db/search.rs`);
- the values the release page, the release card and the full-size
  screenshot show;
- the bookmark toggle (`src/actions/index.ts`).

The model follows the program's structure:

| Dafny module (file) | models |
|---|---|
| `Records` (records.dfy) | `Link`, `Mirror` and `Release` with its derived builder, whose `build` fails on the first unset field |
| `Timestamp`, `TimestampRoundTrip` | the `%Y-%m-%dT%H:%M:%S.000Z` writer and reader of chrono, and `Date.prototype.toISOString` |
| `MirrorJson` | the JSON text of the `mirrors` and `screenshots` columns, with its round trips |
| `Markup` | the selector results a post yields, as data |
| `RssExtract`, `RssParse`, `RssExtractFacts` | the Rust extraction: as functions, as the source's loops (methods proved equal to the functions), and their properties |
| `WebRecords`, `PageDecode`, `PageTags`, `PageSections`, `PageExtract` | `getGame` / `getGameList` of both TypeScript files, selected by `Variant` (`Script` = `src/index.ts`, `Site` = `src/pages/db/_sync.ts`) |
| `Catalog` | the tables as a class `Store`, with the writers' inserts as methods |
| `Frontier` | the feed frontiers, the paging loop of the crawls, the title de-duplication |
| `SyncRust`, `SyncWeb` | the five writers as methods on `Store`, each proved against a function of the old contents |
| `LastReleases`, `Search`, `Views`, `Bookmarks` | the read side |

The network, the clock, UUIDs and slugs enter as parameters. Each writer is
stated for any fetch result and any page parser.

Two behaviours of the code that the model keeps:

- Every `Release` field is required by the builder, so a post without a
  mirrors or screenshots section fails to build and is skipped.
- The Rust feed sync skips the first feed item unconditionally (`skip(1)`,
  sync_fitgirl_rss.rs:104) and stops at an item without a title. The
  site's `syncRss` keeps the first item and walks only "Lossless Repack"
  items.

## Model

| member | source | states |
|---|---|---|
| Records.DefaultMirror | src/db/mod.rs:41-44 | the default mirror has no links |
| Records.FirstUnset | src/db/mod.rs:46-60 | the index of the first unset field: every earlier field is set, and this one is not |
| Records.Build | src/db/mod.rs:46-60 | the builder succeeds exactly when all ten fields are set |
| Records.BuildNamesFirstUnset | src/db/mod.rs:46-60 | a failed build names the first unset field in declaration order |
| Records.BuildKeepsValues | src/db/mod.rs:46-60 | a built release carries exactly the values that were set |
| Records.BuildNeedsMirrors | src/db/mod.rs:56 | without mirrors nothing builds, whatever else was set |
| Records.BuildEmpty | src/db/mod.rs:50 | an empty builder fails naming `title` |
| Timestamp.LeadingDigits | src/db/last_releases.rs:23-27 | the reader takes the longest run of digits up to the field's width |
| Timestamp.Assemble | src/db/last_releases.rs:23-27 | a date the reader assembles is a valid calendar date and time |
| Timestamp.ScanFields | src/db/last_releases.rs:23-27 | one value per separator of the pattern |
| Timestamp.Parse | src/db/last_releases.rs:23-27 | a parsed timestamp is always a valid date and time |
| TimestampRoundTrip.ScanYearField | src/services/sync_fitgirl_rss.rs:380 | the year the writer prints (padded, or signed outside 0..9999) is read back |
| TimestampRoundTrip.ScanFieldsOf | src/db/last_releases.rs:23-27 | the two-digit fields after their separators read back as the written values |
| TimestampRoundTrip.ParseWritten | src/db/last_releases.rs:23-27 | a written date followed by exactly `.000Z` parses back to the truncated date; any other tail is refused |
| TimestampRoundTrip.FormatParseRoundTrip | src/services/sync_fitgirl_rss.rs:378-381 | what `insert_data` stores parses back to the same date truncated to the second |
| TimestampRoundTrip.FormatDropsSubseconds | src/services/sync_fitgirl_rss.rs:380 | two dates equal to the second are stored as the same text |
| TimestampRoundTrip.IsoStringIsWritten | src/index.ts:240 | for years 0 to 9999, `toISOString` writes the same fields as the Rust pattern, with the milliseconds in place of `000` |
| TimestampRoundTrip.IsoStringAgainstParse | src/index.ts:240 | for years 0 to 9999, the Rust reader accepts a TypeScript timestamp exactly when its milliseconds are zero |
| TimestampRoundTrip.MillisText | src/index.ts:240 | the three-digit millisecond field is `000` only for zero |
| Text.TrimStart | src/services/sync_fitgirl_rss.rs:208 | trimming the front leaves a suffix that does not start with whitespace |
| Text.TrimEnd | src/services/sync_fitgirl_rss.rs:208 | trimming the end leaves a prefix that does not end with whitespace |
| Text.TrimIsInfix | src/services/sync_fitgirl_rss.rs:208 | `trim` removes only whitespace on both ends and keeps the middle |
| Text.TrimIdempotent | src/services/sync_fitgirl_rss.rs:208 | trimming twice is trimming once |
| Text.Find | src/services/sync_fitgirl_rss.rs:150 | the leftmost occurrence of a needle, or none at all |
| Text.SplitOn | src/index.ts:143-144 | `split(sep)` yields at least one piece |
| Text.JoinSplitOn | src/index.ts:143-144 | joining the pieces of `split(sep)` with `sep` gives back the string |
| Text.SplitAny | src/services/sync_fitgirl_rss.rs:207 | `split([',', '/'])` gives one piece more than there are separators, and no piece holds a separator |
| Text.InterleaveSplitAny | src/services/sync_fitgirl_rss.rs:207 | the pieces with the separators put back between them give the string |
| Text.SplitAnyNoSeparator | src/services/sync_fitgirl_rss.rs:207 | a string without separators is one piece |
| Text.SplitOnce | src/services/sync_fitgirl_rss.rs:203 | `split_once(": ")` succeeds iff the separator occurs, splits at its first occurrence and rebuilds the line |
| Text.Lines | src/services/sync_fitgirl_rss.rs:201 | no line holds a line feed |
| Text.LinesRebuild | src/services/sync_fitgirl_rss.rs:201 | the pieces between line feeds join back to the text; the lines are those pieces, each one a line feed ends without one trailing carriage return, the last as it is, and the empty piece after a final line feed dropped |
| Text.ReplaceAllIsJoinSplit | src/index.ts:41 | `replaceAll` is split-and-join |
| Text.ReplaceAllLength | src/index.ts:41 | each replacement changes the length by the length difference |
| Text.ReplaceAllAbsent | src/index.ts:41 | a string without the pattern is unchanged |
| Text.DecimalValue | src/db/search.rs:38 | the decimal text of a number reads back as the number |
| Text.ZeroPadValue | src/services/sync_fitgirl_rss.rs:380 | a zero-padded field reads back as the number |
| MirrorJson.HexValue | src/services/sync_fitgirl_rss.rs:385 | a hex digit's value is below 16 |
| MirrorJson.Escape | src/services/sync_fitgirl_rss.rs:385 | escaping never shortens a string |
| MirrorJson.StringRoundTrip | src/services/sync_fitgirl_rss.rs:385-386 | a JSON string written and then read gives back the string and leaves the rest of the input |
| MirrorJson.Expect | src/services/sync_fitgirl_rss.rs:385 | a literal is consumed only where the input starts with it |
| MirrorJson.ListRoundTrip | src/services/sync_fitgirl_rss.rs:385-386 | a JSON list of any element codec reads back as the list |
| MirrorJson.LinkRoundTrip | src/db/mod.rs:35-39 | a serialized `Link` reads back |
| MirrorJson.MirrorRoundTrip | src/db/mod.rs:41-44 | a serialized `Mirror` reads back |
| MirrorJson.MirrorsRoundTrip | src/services/sync_fitgirl_rss.rs:385 | the Rust mirrors column reads back as the mirrors |
| MirrorJson.ScreenshotsRoundTrip | src/services/sync_fitgirl_rss.rs:386 | the screenshots column reads back as the screenshots |
| MirrorJson.WebMirrorRoundTrip | src/index.ts:247 | a `JSON.stringify`-ed mirror (name and links) reads back |
| MirrorJson.WebMirrorsRoundTrip | src/index.ts:247 | the TypeScript mirrors column reads back as the mirrors |
| Markup.Collect | src/services/sync_fitgirl_rss.rs:199-200 | the text of no nodes is empty, and the text is as long as the nodes together |
| Markup.CollectAppend | src/services/sync_fitgirl_rss.rs:199-200 | collecting two runs of nodes one after the other concatenates their texts |
| RssExtract.AnyFrom | src/services/sync_fitgirl_rss.rs:150 | `any` on an iterator at `pos` finds a node containing the needle iff one exists from `pos` on, and is exhausted when it finds none |
| RssExtract.SharedIteratorOnlyScreenshots | src/services/sync_fitgirl_rss.rs:145-161 | as written, with a fused `text()` iterator, a section is only ever classified as screenshots (iff its heading says so) or as nothing |
| RssExtract.FreshIteratorClassifies | src/services/sync_fitgirl_rss.rs:150-161 | with a fresh iterator per test: screenshots iff "Screenshots" occurs; repack iff not that and "Repack" occurs; mirrors iff neither and "Mirrors" occurs |
| RssExtract.ImageSources | src/services/sync_fitgirl_rss.rs:151-156 | no more screenshots than images, and a value is a screenshot iff some image has it as `src` |
| RssExtract.MirrorOf | src/services/sync_fitgirl_rss.rs:166-186 | the fold keeps one link per anchor, in order, with the raw text and the `href` or `""` |
| RssExtract.MirrorsOf | src/services/sync_fitgirl_rss.rs:164-188 | one mirror per `li`, in order |
| RssExtract.TrimAll | src/services/sync_fitgirl_rss.rs:208 | every piece is trimmed, in order |
| RssExtractFacts.SharedSectionsKeepMirrors | src/services/sync_fitgirl_rss.rs:144-192 | as written, with a fused `text()` iterator, the section loop never sets the mirrors or the repack description |
| RssExtractFacts.InfoLinesOnlySizes | src/services/sync_fitgirl_rss.rs:194-231 | the paragraph lines set at most the two sizes in the builder |
| RssExtractFacts.SharedParseInfoFails | src/services/sync_fitgirl_rss.rs:128-243 | as written, with a fused `text()` iterator, `parse_info_from_html` fails for every post whose caller has not set the mirrors, which no caller does |
| RssExtractFacts.SharedItemFails | src/services/sync_fitgirl_rss.rs:289-307 | as written, with a fused `text()` iterator, every feed item fails to extract |
| RssExtractFacts.SharedPageFails | src/services/sync_fitgirl_rss.rs:245-287 | as written, with a fused `text()` iterator, every post page fails to extract |
| RssExtractFacts.LastOfKind | src/services/sync_fitgirl_rss.rs:144-192 | the section that decides a field is one of the sections |
| RssExtractFacts.SectionsFailure | src/services/sync_fitgirl_rss.rs:145-148 | the loop fails iff some section has no previous sibling, and then with that error |
| RssExtractFacts.FreshSections | src/services/sync_fitgirl_rss.rs:144-192 | with fresh iterators, the last section of each kind decides that field |
| RssExtractFacts.InfoLinesEffect | src/services/sync_fitgirl_rss.rs:195-231 | the lists gather the values of every matching line in order, and a size is the value of the last line naming it |
| RssExtractFacts.LineWithoutSeparator | src/services/sync_fitgirl_rss.rs:203 | a line without `": "` changes nothing |
| RssExtractFacts.FirstFieldWins | src/services/sync_fitgirl_rss.rs:204 | a key containing "genre" is a genre line whatever else it contains |
| RssExtractFacts.SplitAfterKey | src/services/sync_fitgirl_rss.rs:203 | the line splits after the key at the first `": "`, and the value keeps any later `": "` |
| RssExtractFacts.SizeIsRestOfLine | src/services/sync_fitgirl_rss.rs:225-226 | a size is the untrimmed rest of the line |
| RssExtractFacts.ValuesCount | src/services/sync_fitgirl_rss.rs:205-210 | a value list has one entry more than there are separators |
| RssExtractFacts.ValuesClean | src/services/sync_fitgirl_rss.rs:205-210 | every value is trimmed and holds no separator |
| RssExtractFacts.PieceClean | src/services/sync_fitgirl_rss.rs:208 | trimming a piece keeps it free of separators |
| RssExtractFacts.FreshParseInfo | src/services/sync_fitgirl_rss.rs:128-243 | with fresh iterators, a successful extraction gathers the tag lists from the lines, the sizes from the last lines naming them, and the cover, mirrors, screenshots and descriptions from their sections; title, link and date come from the caller |
| RssExtractFacts.ParseInfoFailures | src/services/sync_fitgirl_rss.rs:143-198 | a section without a previous sibling, or a missing paragraph, gives its own error |
| RssParse.AnyText | src/services/sync_fitgirl_rss.rs:150 | the `any` loop returns what `AnyFrom` says |
| RssParse.ClassifyHeading | src/services/sync_fitgirl_rss.rs:150-161 | the three tests classify as `Classify` says |
| RssParse.FoldMirror | src/services/sync_fitgirl_rss.rs:166-186 | the fold over the anchors builds `MirrorOf` |
| RssParse.CollectMirrors | src/services/sync_fitgirl_rss.rs:164-188 | the map over the items builds `MirrorsOf` |
| RssParse.ParseInfoFromHtml | src/services/sync_fitgirl_rss.rs:128-243 | the loops compute `ParseInfo` |
| RssParse.GetReleaseFromItem | src/services/sync_fitgirl_rss.rs:289-307 | computes `ReleaseFromItem`, with the errors for a missing title, link, date or content |
| RssParse.GetReleaseFromHtml | src/services/sync_fitgirl_rss.rs:245-287 | computes `ReleaseFromPage`, with the errors for a missing content, date, title or canonical link |
| WebRecords.NoTags | src/index.ts:170 | the reduce starts with no tag field set |
| WebRecords.LinksOf | src/index.ts:11-30 | the validated links are the draft links, in order |
| WebRecords.MirrorsOf | src/index.ts:11-30 | the validated mirrors are the draft mirrors, in order |
| WebRecords.Present | src/index.ts:11-30 | the validated screenshots are the draft values, in order |
| WebRecords.Schema | src/index.ts:11-30 | a schema failure is a `SchemaError`; a parsed game carries the draft's title, link, date, cover, tag fields and descriptions, the draft's mirrors (all of them valid) with their names and links, and screenshots iff the draft has them, every one of them present and in order |
| WebRecords.SchemaRejects | src/index.ts:185 | a missing required field, an empty mirror or a missing `href`/`src` throws |
| WebRecords.SchemaAccepts | src/index.ts:185 | a draft with every required field, only valid mirrors, and no screenshots or only present ones passes, also without the descriptions or without the screenshots |
| PageDecode.DigitRun | src/index.ts:38 | `\d+` matches the longest run of digits |
| PageDecode.EntityAt | src/index.ts:38 | a numeric reference starts with `&` and spans at least four characters |
| PageDecode.DecodeNoCurlyQuote | src/index.ts:41 | decoded text holds no right single quotation mark |
| PageDecode.ReplaceEntitiesPlain | src/index.ts:38-40 | text without `&` is left alone by the reference replacement |
| PageDecode.DecodePlain | src/index.ts:35-42 | already-trimmed text without `&` or the curly quote decodes to itself |
| PageDecode.DecodeTrimmed | src/index.ts:37 | decoding ignores surrounding whitespace |
| PageDecode.DecodeReference | src/index.ts:38-40 | a reference `&#d;` with a non-empty digit run `d` at the front becomes the code unit of `d`'s value, and the rest is replaced on its own |
| PageDecode.DecodeAmpersand | src/index.ts:38-40 | `&#38;` becomes `&` |
| PageDecode.SplitEach | src/index.ts:144 | `flatMap(split)` never loses a piece |
| Text.SplitOnAbsent | src/index.ts:143 | a string without the separator is one piece |
| PageDecode.SplitOnCharPieces | src/index.ts:159 | no piece of a split on a character holds that character |
| PageDecode.SplitEachNoop | src/index.ts:160 | splitting again on the same character changes nothing |
| PageDecode.LanguageValuesSplitOnce | src/index.ts:158-161 | the languages are split on `/` once, then upper-cased and decoded |
| PageDecode.ListValuesSingle | src/index.ts:142-145 | a value without `", "` or `/` is one decoded entry, so `"A,B"` stays one genre |
| PageTags.LastStrong | src/index.ts:134-170 | the strong that decides a field is one of the strongs and names that field |
| PageTags.LastStrongSingle | src/index.ts:134-170 | one strong decides exactly the field it names |
| PageTags.StrongStepEffect | src/index.ts:136-169 | one reduce step overwrites only the field its category names |
| PageTags.StrongsResult | src/pages/db/_sync.ts:143-178 | the reduce throws iff some strong has no category (`Site` only), and otherwise the last strong of each field wins |
| PageSections.ReduceFrom | src/index.ts:114-129 | later anchors never change the mirror's name |
| PageSections.LaterLinks | src/index.ts:127-133 | one link per later anchor |
| PageSections.ReduceFromLinks | src/index.ts:127-133 | later anchors append their links in order |
| PageSections.MirrorReduceLinks | src/index.ts:113-130 | a non-empty `li` gives a mirror named by the decoded first anchor, whose first link keeps the raw text |
| PageSections.MirrorReduceShape | src/index.ts:113-130 | an empty `li` gives no mirror; otherwise the first link has the raw text and later links the decoded text |
| PageSections.MirrorsOfItems | src/index.ts:113-130 | one mirror per `li` |
| PageSections.ApplySections | src/index.ts:105-132 | the section loop computes `Sections` |
| PageSections.SectionsFailure | src/pages/db/_sync.ts:112-139 | the site never fails in the loop (`?.`); the script fails iff a section has no previous sibling |
| PageSections.SectionStepKeeps | src/index.ts:105-132 | one section changes only the screenshots, repack description or mirrors |
| PageSections.SectionsKeep | src/index.ts:105-132 | the loop changes only the screenshots, repack description and mirrors |
| PageSections.LastHeaded | src/index.ts:105-132 | the section found is one of the sections, with a heading of the kind asked for |
| PageSections.SectionsEffectCons | src/index.ts:105-132 | one pass of the loop body, then the effect of the remaining sections, is the effect of all of them |
| PageSections.SectionsLast | src/index.ts:105-132 | when the loop gets through, the screenshots, repack description and mirrors come from the last section of each kind, or are as they were |
| PageSections.UntilStyle | src/index.ts:80-86 | the fallback takes the longest prefix of siblings with no `STYLE` |
| PageSections.UntilStyleIs | src/index.ts:80-86 | a prefix ending at the first `STYLE` (or the end) is what the fallback takes |
| PageSections.CollectFallback | src/index.ts:76-89 | the sibling loop computes `Fallback` |
| PageExtract.GetGame | src/index.ts:61-186 | the steps of `getGame` compute `GameOf` |
| PageExtract.GameFromFields | src/index.ts:99-185 | a game has the URL as link, the title, the date, the tag fields of the last strongs, the cover and the description |
| PageExtract.GameFromSections | src/index.ts:103-132 | a game has the mirrors of the last mirrors section (all of them valid), all the content's images as screenshots iff there is a screenshots section, and the last repack section trimmed as repack description, if there is one |
| PageExtract.GameOfFields | src/index.ts:61-186 | a game `getGame` returns has the fetched URL as link and the decoded title, and its tag fields, cover and description come from the page |
| PageExtract.GameOfSections | src/index.ts:61-186 | a game `getGame` returns has the mirrors of the page's last mirrors section, the page's images as screenshots iff a screenshots section exists, and the last repack section's text as repack description |
| PageExtract.GameOfNeedsTitleAndDate | src/pages/db/_sync.ts:99-104 | a page without a title or a date meta element fails in both copies |
| PageExtract.EntriesOf | src/index.ts:53-58 | one entry per anchor |
| PageExtract.EntriesOfCons | src/index.ts:53-58 | the entries of a list are built anchor by anchor |
| PageExtract.EntriesAreAnchors | src/pages/db/_sync.ts:54-61 | the site skips items without an anchor and never fails; entries are the anchors' titles and links |
| PageExtract.ScriptEntriesNeedAnchors | src/index.ts:53-58 | the script's list succeeds iff every item has an anchor |
| Catalog.Elements | src/services/sync_fitgirl_rss.rs:360-370 | the set of a list's values |
| Catalog.Pairs | src/services/sync_fitgirl_rss.rs:393-403 | the join pairs of one release id with a list's values |
| Catalog.ElementsSnoc | src/services/sync_fitgirl_rss.rs:360-370 | inserting one more value adds exactly it |
| Catalog.PairsSnoc | src/services/sync_fitgirl_rss.rs:393-403 | joining one more value adds exactly its pair |
| Catalog.SameTagTwice | src/services/sync_fitgirl_rss.rs:314 | a tag inserted for two releases appears once in its table and twice in the join table |
| Catalog.RustRowReadsBack | src/services/sync_fitgirl_rss.rs:374-389 | a Rust row's date reads back to the second, and its mirrors and screenshots read back |
| Catalog.SiteRowReadsBack | src/pages/db/_sync.ts:209-222 | a site row fills every optional column (`[]`, `''`) and its JSON reads back |
| Catalog.EmptyList | src/pages/db/_sync.ts:219 | no screenshots are stored as `[]` |
| Catalog.ScriptRowReadsBack | src/index.ts:236-251 | a script row's mirrors read back, and its screenshots column is NULL iff the game has none |
| Catalog.Titles | src/services/sync_fitgirl_rss.rs:60-64 | the titles of the rows, in order |
| Catalog.TitlesAppend | src/services/sync_fitgirl_rss.rs:60-64 | titles of appended rows follow the old titles |
| Catalog.InsertedTitles | src/services/sync_fitgirl_rss.rs:374-389 | an insert appends the row's title and uses up one id |
| Catalog.Store.constructor | src/index.ts:280-332 | the catalog starts empty |
| Catalog.Store.InsertTags | src/services/sync_fitgirl_rss.rs:360-370 | `INSERT OR IGNORE` adds the values to one tag table and changes nothing else |
| Catalog.Store.InsertJoins | src/services/sync_fitgirl_rss.rs:393-403 | adds the (id, value) pairs to one join table and changes nothing else |
| Catalog.Store.InsertAllTags | src/services/sync_fitgirl_rss.rs:360-370 | the three tag tables gain the languages, companies and genres |
| Catalog.Store.FreshId | src/services/sync_fitgirl_rss.rs:372 | a new id that no row has |
| Catalog.Store.AppendRow | src/services/sync_fitgirl_rss.rs:374-403 | the row is appended and its joins added; the catalog stays consistent |
| Catalog.Store.InsertData | src/services/sync_fitgirl_rss.rs:309-406 | tags, then the row under a fresh id, then the joins |
| Catalog.Store.StoreScript | src/index.ts:188-273 | the same inserts for a script game's row |
| Catalog.Store.StoreSite | src/pages/db/_sync.ts:196-235 | a taken slug fails after the tags are in; otherwise the row and joins are added |
| Frontier.TakeUntilLatest | src/services/sync_fitgirl_rss.rs:105-111 | the longest prefix of titled items other than the latest |
| Frontier.RssFrontier | src/services/sync_fitgirl_rss.rs:101-111 | the first item is skipped, then items are taken until the latest title or a missing title |
| Frontier.RssFrontierExample | src/services/sync_fitgirl_rss.rs:104-110 | `[pinned, A, B, C]` with latest `B` yields `[A]` |
| Frontier.RssFrontierStopsAtUntitled | src/services/sync_fitgirl_rss.rs:110 | an untitled item right after the first stops the walk |
| Frontier.TakeUntilLatestAt | src/services/sync_fitgirl_rss.rs:105-111 | the walk stops exactly at the first item that does not continue it |
| Frontier.LosslessRepacks | src/pages/db/_sync.ts:278 | exactly the items in the "Lossless Repack" category |
| Frontier.UntilTitle | src/pages/db/_sync.ts:283-285 | the longest prefix before the latest title |
| Frontier.UntilTitleAt | src/pages/db/_sync.ts:283-285 | the walk stops exactly at the first item with the latest title |
| Frontier.AllLosslessRepacks | src/pages/db/_sync.ts:278 | a feed of lossless repacks is unfiltered |
| Frontier.FrontiersDifferInHead | src/pages/db/_sync.ts:278-285 | on the same feed, the site walk includes the first item and the Rust walk does not |
| Frontier.CrawlPages | src/services/sync_fitgirl_rss.rs:40-54 | the paging loop computes `Crawl`: pages are concatenated up to the first empty one, and the first failure stops it |
| Frontier.CrawlStopsAtEmpty | src/services/sync_fitgirl_rss.rs:47-49 | pages after an empty page are never read |
| Frontier.CrawlFromPages | src/services/sync_fitgirl_rss.rs:40-54 | every crawled entry comes from some page |
| Frontier.Fresh | src/services/sync_fitgirl_rss.rs:68-72 | exactly the candidates whose title is not stored |
| Frontier.FreshAppend | src/services/sync_fitgirl_rss.rs:68-72 | the filter works page by page |
| Frontier.FreshNothingStored | src/services/sync_fitgirl_rss.rs:68-72 | on an empty catalog every candidate is kept |
| LastReleases.TextLeTotal | src/db/last_releases.rs:14 | `ORDER BY published` compares any two timestamps |
| LastReleases.TextLeTrans | src/db/last_releases.rs:14 | the text order is transitive |
| LastReleases.InsertNewest | src/db/last_releases.rs:14 | insertion keeps the rows (as a multiset) and adds one |
| LastReleases.NewestFirst | src/db/last_releases.rs:14 | the sorted rows are a permutation of the rows |
| LastReleases.InsertNewestDescending | src/db/last_releases.rs:14 | insertion keeps the order descending |
| LastReleases.NewestFirstDescending | src/db/last_releases.rs:14 | the sorted rows are in descending `published` order |
| LastReleases.DescendingHead | src/db/last_releases.rs:14 | the first of descending rows is the newest |
| LastReleases.CardOf | src/db/last_releases.rs:18-28 | a card exists iff the date parses, and carries the row's id, title and cover |
| LastReleases.CardsOf | src/db/last_releases.rs:17-31 | one card per row, or a panic |
| LastReleases.Limit | src/db/last_releases.rs:14 | `LIMIT n` keeps `n` rows, or all of them when there are fewer |
| LastReleases.CardsOfAt | src/db/last_releases.rs:17-31 | each card is its row's card, and an unparsable date panics |
| LastReleases.CardsOfAllParse | src/db/last_releases.rs:23-27 | no panic when every date parses |
| LastReleases.LastReleasesCards | src/db/last_releases.rs:10-34 | at most 30 cards, newest first; a panic iff one of those dates does not parse |
| LastReleases.TopCards | src/db/last_releases.rs:14-31 | the cards of the first `n` sorted rows |
| LastReleases.FirstCard | src/db/last_releases.rs:36-56 | `LIMIT 1` gives the card of the newest row |
| LastReleases.NewestFirstHead | src/db/last_releases.rs:38 | the first sorted row is a row, and no row is newer |
| LastReleases.LastReleaseNewest | src/db/last_releases.rs:36-59 | an empty catalog gives "No last release"; otherwise the newest row's card, or a panic on its date |
| LastReleases.RustRowCard | src/db/last_releases.rs:23-27 | a Rust-written row always reads back as a card with its id, title, cover and its date truncated to the second |
| LastReleases.ScriptRowCard | src/index.ts:240 | for years 0 to 9999, a script-written row reads back iff its milliseconds are zero |
| LastReleases.NoPanicOnGoodStamps | src/db/last_releases.rs:23-27 | rows whose dates parse never panic either query |
| SyncRust.Extractions | src/services/sync_fitgirl_rss.rs:112-119 | the successful extractions, never more than the items |
| SyncRust.RustStored | src/services/sync_fitgirl_rss.rs:120-123 | one insert per extraction |
| SyncRust.ReleaseTitles | src/services/sync_fitgirl_rss.rs:121 | one title per extraction |
| SyncRust.SyncFeed | src/services/sync_fitgirl_rss.rs:86-126 | the feed sync stores and returns what `RssSync` says |
| SyncRust.StoreExtractions | src/services/sync_fitgirl_rss.rs:112-123 | inserts each extraction and collects its title |
| SyncRust.SyncFitgirlRss | src/services/sync_fitgirl_rss.rs:86-126 | `sync_fitgirl_rss` with the corrected heading tests |
| SyncRust.RustStoredTitles | src/services/sync_fitgirl_rss.rs:120-123 | the stored titles grow by the extracted titles |
| SyncRust.RssSyncTitles | src/services/sync_fitgirl_rss.rs:86-126 | a failed sync changes nothing; a successful one adds exactly the returned titles |
| SyncRust.RssSyncNeedsRelease | src/services/sync_fitgirl_rss.rs:94 | when the feed is fetched, on an empty catalog the feed sync fails with "No last release" |
| SyncRust.ExtractionsFromItems | src/services/sync_fitgirl_rss.rs:112-119 | every extraction comes from some feed item |
| SyncRust.AnchorPairs | src/services/sync_fitgirl_rss.rs:27-33 | one pair per anchor; an anchor without `href` panics |
| SyncRust.CrawlInsertsStop | src/services/sync_fitgirl_rss.rs:73-81 | a failed fetch ends the crawl |
| SyncRust.SyncCrawl | src/services/sync_fitgirl_rss.rs:37-84 | the crawl sync stores and returns what `FullSync` says |
| SyncRust.StoreCandidates | src/services/sync_fitgirl_rss.rs:68-81 | fetches and inserts each new candidate in order |
| SyncRust.SyncAllReleases | src/services/sync_fitgirl_rss.rs:37-84 | `sync_all_releases` with the corrected heading tests |
| SyncRust.CrawlInsertsGrows | src/services/sync_fitgirl_rss.rs:73-81 | rows are only appended, and a success returns the added titles |
| SyncRust.FullSyncGrows | src/services/sync_fitgirl_rss.rs:37-84 | rows are only appended, and a success returns the added titles |
| SyncRust.NoExtractions | src/services/sync_fitgirl_rss.rs:112-119 | an extraction that always fails yields nothing |
| SyncRust.SharedFeedStoresNothing | src/services/sync_fitgirl_rss.rs:145-161 | as written, with a fused `text()` iterator, the feed sync stores nothing and returns no titles |
| SyncRust.NoCrawlInserts | src/services/sync_fitgirl_rss.rs:76-80 | an extraction that always fails inserts nothing |
| SyncRust.SharedCrawlStoresNothing | src/services/sync_fitgirl_rss.rs:145-161 | as written, with a fused `text()` iterator, the crawl sync stores nothing and returns no titles |
| SyncRust.MissingHrefPanics | src/services/sync_fitgirl_rss.rs:30 | a list anchor without `href` panics the crawl |
| SyncWeb.FetchGame | src/index.ts:375 | a missing link is a `TypeError`; a fetched game's link is the URL |
| SyncWeb.Parsed | src/index.ts:372-379 | failures are dropped; never more games than entries |
| SyncWeb.ParsedFrom | src/index.ts:372-379 | exactly the games some entry's fetch returned |
| SyncWeb.ParsedLinks | src/index.ts:100 | every parsed game's link is some entry's link |
| SyncWeb.GameTitles | src/index.ts:382 | one title per game |
| SyncWeb.ScriptStored | src/index.ts:381-384 | one id per stored game |
| SyncWeb.ScriptMain | src/index.ts:349-384 | the script stores what `ScriptSync` says |
| SyncWeb.StoreGames | src/index.ts:381-384 | stores each parsed game in order |
| SyncWeb.ScriptStoredTitles | src/index.ts:381-384 | rows are appended with the games' titles |
| SyncWeb.ScriptSyncStores | src/index.ts:349-384 | fails iff a list page fails and then stores nothing; otherwise adds the titles of the new entries that parse |
| SyncWeb.SiteInsertTitles | src/pages/db/_sync.ts:196-235 | a stored game appends its title; a taken slug adds none; an id is used up either way |
| SyncWeb.SyncAll | src/pages/db/_sync.ts:237-273 | `syncAll` stores and returns what `SiteSyncAll` says |
| SyncWeb.StoreEntries | src/pages/db/_sync.ts:258-270 | fetches and stores each new entry, catching failures |
| SyncWeb.SiteInsertsTitles | src/pages/db/_sync.ts:258-270 | rows are only appended, the returned titles are the added ones, and there are no more of them than entries |
| SyncWeb.SiteSyncAllFails | src/pages/db/_sync.ts:237-273 | fails iff a list page fails and then stores nothing; otherwise returns the added titles |
| SyncWeb.SyncRss | src/pages/db/_sync.ts:275-295 | `syncRss` stores and returns what `SiteSyncRss` says |
| SyncWeb.WalkFeed | src/pages/db/_sync.ts:283-292 | the feed loop computes `RssWalk` |
| SyncWeb.RssWalkFrontier | src/pages/db/_sync.ts:283-285 | the walk never looks past the latest title |
| SyncWeb.RssWalkTitles | src/pages/db/_sync.ts:283-292 | rows are only appended, and a success returns the added titles |
| SyncWeb.SiteSyncRssWalks | src/pages/db/_sync.ts:275-285 | an empty catalog throws; otherwise the walk runs over the lossless repacks down to the title of the newest stored release |
| Views.FindAny | src/components/release_page.rs:8 | the first separator of the title, or none |
| Views.Heading | src/components/release_page.rs:25 | the title up to its first separator |
| Views.Subtitle | src/components/release_page.rs:26 | the rest after the first separator, or empty |
| Views.HeadingSeparatorSubtitle | src/components/release_page.rs:8 | heading, separator and subtitle rebuild the title |
| Views.HeadingWithoutSeparator | src/components/release_page.rs:25-26 | a title without separators is all heading |
| Views.SplitAnyFirst | src/components/release_card.rs:19 | the first piece of the split is the text before the first separator |
| Views.CardTitleIsHeading | src/components/release_card.rs:19 | the card shows the same heading as the page |
| Views.CardTitleLeadingSeparator | src/components/release_card.rs:19 | a title starting with a separator shows an empty heading |
| Views.CardLink | src/components/release_card.rs:15 | the card links to `/release/` and the id |
| Views.ScreenshotIdsDistinct | src/components/release_page.rs:16 | the grid ids are distinct |
| Views.GridFrom | src/components/release_page.rs:15-20 | the items from a position, numbered from zero |
| Views.ScreenshotGrid | src/components/release_page.rs:15-20 | every screenshot but the first, numbered from zero |
| Views.LinkAnchors | src/components/release_page.rs:49-53 | one anchor per link, `href` the URL and the text its name |
| Views.DownloadLists | src/components/release_page.rs:46-56 | one list per mirror |
| Views.ReleasePage | src/components/release_page.rs:7-64 | the grid skips the first screenshot, and the downloads list every link of every mirror |
| Views.Card | src/components/release_card.rs:12-27 | the card's link is the release's page |
| Views.CardMatchesPage | src/components/release_card.rs:19-21 | a card and its page show the same heading and date |
| Views.FullSizeUrlDropsMarkers | src/components/fullscreen_screenshot.rs:13 | `replace` removes every `.240p.jpg` in one pass |
| Views.FullSizeUrlWithoutMarker | src/components/fullscreen_screenshot.rs:13 | a URL without the marker is unchanged |
| Views.FullSizeUrlLength | src/components/fullscreen_screenshot.rs:13 | nine characters shorter per marker |
| Views.FullSizeUrlNotIdempotent | src/components/fullscreen_screenshot.rs:13 | one pass over `.240p.240p.jpg.jpg` leaves `.240p.jpg`, which a second pass removes |
| Bookmarks.Without | src/actions/index.ts:16 | the filter removes every copy of the slug and keeps the rest |
| Bookmarks.WithoutAppend | src/actions/index.ts:16 | filtering works piece by piece |
| Bookmarks.WithoutAbsent | src/actions/index.ts:16 | filtering out an absent slug changes nothing |
| Bookmarks.ToggledMembership | src/actions/index.ts:13-27 | after a toggle the slug is bookmarked iff it was not |
| Bookmarks.ToggleTwiceRestores | src/actions/index.ts:13-27 | toggling an absent slug twice restores the list |
| Bookmarks.ToggledKeepsOthers | src/actions/index.ts:13-19 | untoggling keeps the other slugs in order |
| Bookmarks.Characters | src/actions/index.ts:23 | spreading a string gives one string per character, in order |
| Bookmarks.Session.constructor | src/actions/index.ts:10-11 | the session starts with the cookie as `json()` reads it |
| Bookmarks.Session.Current | src/actions/index.ts:10-11 | a missing cookie and JSON `null` read as no bookmarks, a JSON array of strings as that list, anything else as no list |
| Bookmarks.Session.Toggle | src/actions/index.ts:7-28 | on a list, the cookie is set to the toggled list and the result says whether the slug is now bookmarked; a non-JSON cookie throws a SyntaxError and a number, boolean or object a TypeError, leaving the cookie alone; a JSON string throws when it contains the slug and is otherwise replaced by its characters and the slug |
| Search.WhereText | src/db/search.rs:60-69 | no clauses give no WHERE text |
| Search.WhereTextOne | src/db/search.rs:62-63 | a single clause follows `WHERE` |
| Search.WhereTextStart | src/db/search.rs:60-69 | a WHERE text starts with `WHERE` and the first clause |
| Search.WhereTextTwo | src/db/search.rs:64-65 | the second clause follows `and` |
| Search.WrappingOffset | src/db/search.rs:82-84 | `(page - 1) * 30` when it fits in `usize` |
| Search.WrappingOffsetPageZero | src/db/search.rs:83 | page 0 wraps around to the offset 2^64 - 30 instead of meaning the first page |
| Search.Filters | src/db/search.rs:34-58 | a title clause `$1` iff the lower-cased title is non-empty, a genre clause numbered after it iff the genre is non-empty, with the lower-cased title and the genre as parameters in the same order |
| Search.JoinWhere | src/db/search.rs:60-69 | the join loop computes `WhereText` |
| Search.SearchQueries | src/db/search.rs:19-84 | the list and count queries share the WHERE text; only the list query gets the tail and the offset |
| Search.TitleIsNotGenre | src/db/search.rs:38-51 | a title clause is never a genre clause |

## Left out

- The HTTP requests, the RSS and HTML parsers and the selector engines are left out. Their results are inputs: `Markup` records what each selector query returns.
- RFC 2822 and RFC 3339 date parsing and `new Date(...)` are left out. A date text comes with its parsed value (`DateText`).
- The database drivers (rusqlite, better-sqlite3, astro:db, tokio-postgres) are left out. The tables are sets and a sequence.
- UUIDs are modelled as a counter that hands out an id no row has. `slug()` is a parameter.
- Column-read failures in `last_releases` (dropped by `filter_map`) cannot occur: every row read has all its columns.
- A Rust insert cannot fail in the model, so the `unwrap` on `insert_data` in the feed sync never panics. Only the site's slug constraint can make an insert fail.
- Transactions, concurrency, logging, caching, the route handlers, `main.rs` and the Postgres connection setup are left out.
- The search queries are not run: only their text and parameters are modelled.
- The markup around the values the pages show is left out.
- JSON reading covers only the compact form the writers produce, which is what the round trips need. It is not serde_json's general deserializer, which would also accept whitespace and unknown fields.
- `PageDecode.CodeUnit`: a surrogate code unit from `String.fromCharCode` becomes U+FFFD, because Dafny characters are Unicode scalar values. The reference number is taken exactly modulo 0x10000, whereas JavaScript first converts the digit run to a double, so the two differ for references above 2^53.
- `Text.ToLower`: `to_lowercase`, `toLowerCase` and `toUpperCase` map ASCII letters only.
- `LastReleases.NewestFirst`: rows with equal `published` keep their input order, whereas `ORDER BY published DESC` (src/db/last_releases.rs:14, 38) leaves their order unspecified. `LastReleases.LastReleasesCards` and `LastReleases.LastReleaseNewest` inherit this choice on ties.
- `RssExtract.ClassifyShared`: assumes scraper's `text()` iterator is fused, that is, it keeps returning `None` once exhausted. The repository pins no scraper version, so its code alone does not decide this. With an iterator that starts again after `None`, each test reads the whole heading and the program as written is the `FreshIterator` model (`SyncRust.SyncFitgirlRss`, `SyncRust.SyncAllReleases`); the Findings row then does not apply.
- `TimestampRoundTrip.IsoStringAgainstParse`, `TimestampRoundTrip.IsoStringIsWritten` and `LastReleases.ScriptRowCard`: proved for years 0 to 9999 only. Outside that range `toISOString` writes a sign and six digits (`+010000`) where chrono writes `+10000`, so `IsoStringIsWritten` does not hold there; the reader's signed `%Y` branch would still accept the six digits, but that case is not proved.
- `Catalog.Store`: one store holds both the SQLite `releases` tables of the Rust services and the script and the astro:db `Release` tables of the site, with its unique `slug`. The program uses two databases; every writer is stated for any store contents, so keeping them in one class loses no result.
- `Bookmarks.Session`: a cookie holding a JSON array with elements other than strings is not modelled.
- `Search.WrappingOffset`: models a release build, where `page - 1` wraps around; a debug build panics on page 0.
- `Catalog.ScriptRow`: an absent screenshot list (`JSON.stringify(undefined)`) is modelled as NULL. The extra `genres`, `companies` and `languages` parameters that `storeGame` passes are not modelled, because the statement has no column for them.

## Findings

| source | as written | input that shows it | evidently intended | confidence | as-written member | corrected member |
|---|---|---|---|---|---|---|
| src/services/sync_fitgirl_rss.rs:145-161 | One `text()` iterator is shared by the three `any` tests. Assuming that iterator is fused (it keeps returning `None` once exhausted): when "Screenshots" is not found, the iterator is exhausted, so the "Repack" and "Mirrors" tests never succeed. `mirrors` is then never set and `build()` fails for every post, so neither Rust sync stores anything. | a post whose sections have the headings "Repack Features" and "Download Mirrors" | each test reads the whole heading, so a repack or mirrors section is recognised | not executed | RssExtractFacts.SharedParseInfoFails | RssExtractFacts.FreshParseInfo |
