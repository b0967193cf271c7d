# A verified model of the theme-alpine scripts

This project models the logic of five scripts of the theme-alpine site in
Dafny and proves what they promise.

- **Tag feed** (omglol-theme/tag.js). This is an infinite-scroll list of the posts of one tag.
  - `init` loads the tag index.
  - `renderBatch` moves a cursor over the posts and adds placeholders in batches.
  - A per-entry loader, guarded by `data-loaded`, fills each placeholder once, through a FIFO job queue with a concurrency cap.
  - A status line reports progress.
  - The modules are `TagOptions` (attribute parsing), `JobQueue` (class `Queue`) and `TagFeed` (class `Feed`).
- **Bluesky feed builder** (scripts/fetch_bluesky_feed.py). This builds the home page's Bluesky data.
  - the URL and text helpers: `BlueskyText`;
  - the rich-text renderer: `RichText`;
  - the paginated walk of `collect_posts`, with its filters, its de-duplication by URL and its newest-first sort: `CollectPosts`;
  - `Sorting` models Python's stable `list.sort` with a key.
- **some.pics embed** (omglol-theme/some-pics.js). Module `SomePics` models:
  - query-list token collection, token normalisation and matching;
  - the exclusion decision and the fallback id extraction;
  - custom-domain normalisation;
  - the `count` cut and figure numbering;
  - the paragraph step of the Markdown helper.
- **Theme toggles** (public/assets/js/dark-mode.js and static/assets/js/dark-mode.js).
  - The two scripts are modelled separately as `DarkModePublic` and `DarkModeStatic`, because they persist differently.
  - Each script is a class `Document` whose fields are the page state the script touches.
  - `ThemeToggle` holds what they share.
- Shared helpers:
  - `Strings`: ASCII whitespace trimming, lower-casing, substrings, split and join, decimal numerals;
  - `JsNumbers`: JavaScript numbers reduced to an integer or NaN;
  - `Wrappers`: `Option`.

Code that updates state in place is modelled as classes and methods with loops: the queue, the feed, `collect_posts`, `collectListParams`, the rich-text loops and the toggles. Each method is proved equal to a specification function or state relation, and the source's promises are proved about those functions as lemmas. Pure helpers are functions.

**How the tag feed ends.**
- The sentinel observer is disconnected only when the index has no posts (omglol-theme/tag.js:248). It is never disconnected after the last batch, so `Feed.SentinelNear` keeps being delivered.
- Once every post is shown, the status is `All posts loaded for "<tag>".` (omglol-theme/tag.js:154, 195).

The two scenario methods `JobQueue.FiveJobsTwoSlots` and `TagFeed.TwentyThreePosts` run concrete event sequences through the classes and check the states reached.

## Model

| member | source | states |
|---|---|---|
| TagOptions.ToNumberOfDecimal | omglol-theme/tag.js:36 | `Number` of a decimal numeral is the value it denotes |
| TagOptions.AtLeastOne | omglol-theme/tag.js:36 | `Math.max(1, n)` for a number `n`; the default when `n` is NaN. The result is at least 1 |
| TagOptions.BatchSize | omglol-theme/tag.js:36 | The batch size is at least 1. It equals `Math.max(1, Number(...))` whenever the attribute is blank or a signed decimal integer. It is 10 when neither attribute is set and when `ToNumber` reads `NaN` |
| TagOptions.Concurrency | omglol-theme/tag.js:43 | The concurrency cap is at least 1. It equals `Math.max(1, Number(...))` whenever the attribute is blank or a signed decimal integer. It is 4 when the attribute is missing or `ToNumber` reads `NaN` |
| TagOptions.BatchSizeNaNStalls | omglol-theme/tag.js:36 | An unparseable `data-batch-size` makes the batch size NaN as written, and `slice(next, next + NaN)` is empty, so the cursor never advances |
| TagOptions.ConcurrencyNaNBlocks | omglol-theme/tag.js:43 | An unparseable `data-concurrent` makes the cap NaN as written, and `0 < NaN` is false, so no job ever starts |
| TagOptions.BatchSizeProgress | omglol-theme/tag.js:159-160 | With the corrected batch size, a batch with posts left takes at least one post |
| TagOptions.ShowStatus | omglol-theme/tag.js:32 | The status is hidden exactly when the attribute is present and equals "false" ignoring ASCII case |
| TagOptions.TagName | omglol-theme/tag.js:24-25 | There is no tag exactly when the attribute is missing or blank. Otherwise the tag is the trimmed attribute: non-empty, with no space at either end |
| JobQueue.Queue.constructor | omglol-theme/tag.js:43-45 | An empty queue with nothing in flight and the given cap of at least 1 |
| JobQueue.Queue.RunQueue | omglol-theme/tag.js:47-59 | Starts the oldest waiting jobs, `min(free slots, waiting)` of them, in queue order. Afterwards every slot is taken or nothing waits, and `inFlight <= max` |
| JobQueue.Queue.Enqueue | omglol-theme/tag.js:61-64 | The job goes to the tail. It starts at once when a slot is free and waits otherwise. Jobs start in exactly the order they were enqueued |
| JobQueue.Queue.Settle | omglol-theme/tag.js:52-57 | A settled job, resolved or rejected, leaves its slot. The oldest waiting job, if any, takes the slot, so a rejection never blocks later jobs |
| TagFeed.BatchStatus | omglol-theme/tag.js:191-196 | The status after a batch is the all-loaded text exactly when no post is left, and the progress text otherwise |
| TagFeed.ProgressCounts | omglol-theme/tag.js:194 | The progress text holds the decimal numerals of the cursor and of the total, at fixed places |
| TagFeed.UsableLinks | omglol-theme/tag.js:229-233 | Only anchors inside an `li` with a non-empty `href` are kept |
| TagFeed.PostsOf | omglol-theme/tag.js:238-239 | One post per usable link |
| TagFeed.ExtractPostsInOrder | omglol-theme/tag.js:227-241 | The post list is the usable links in document order, each resolved against the origin. It fails if some usable link does not resolve |
| TagFeed.NextCursor | omglol-theme/tag.js:159-160 | A batch advances the cursor by `min(batchSize, total - next)`: the cursor stays within the list and moves whenever posts remain |
| TagFeed.CursorAfter | omglol-theme/tag.js:152-160 | The cursor never passes the end of the list |
| TagFeed.CursorAfterIs | omglol-theme/tag.js:152-160 | After `k` batches the cursor is `min(k * batchSize, total)` |
| TagFeed.RendersNeeded | omglol-theme/tag.js:152-160 | `ceil(total / batchSize)` batches show every post, and no fewer do |
| TagFeed.RendersPastEnd | omglol-theme/tag.js:153-156 | Once everything is shown, another batch leaves the cursor where it is |
| TagFeed.Placeholders | omglol-theme/tag.js:164-187 | One placeholder entry per post of the batch |
| TagFeed.Settled | omglol-theme/tag.js:125-140 | A finished load replaces the placeholder. On success it shows the article, or the "No article found" fragment. On failure it shows the error fragment and marks the entry failed. Nothing else of the entry changes |
| TagFeed.Feed.constructor | omglol-theme/tag.js:18-45 | A missing or blank tag shows "No tag specified." before any request. Otherwise the options are parsed and the feed is mounted, empty |
| TagFeed.Feed.SetStatus | omglol-theme/tag.js:99-106 | The status is written only when it is shown |
| TagFeed.Feed.Show | omglol-theme/tag.js:243-246 | A message goes to the status line when it is shown and to the container otherwise |
| TagFeed.Feed.Init | omglol-theme/tag.js:214-262 | A failed index shows the error text with no entries. An empty list shows "No posts found" and never observes the sentinel. Otherwise the sentinel is observed and exactly one batch is rendered |
| TagFeed.Feed.StartBrowsing | omglol-theme/tag.js:251-254 | A non-empty post list is kept, the sentinel is observed, and exactly one batch renders at once: the cursor moves from 0 as `NextCursor` says and the status follows `BatchStatus` |
| TagFeed.Feed.RenderBatch | omglol-theme/tag.js:152-197 | The cursor advances as `NextCursor` says. One placeholder is appended per post of the batch, and the status follows `BatchStatus` |
| TagFeed.Feed.SentinelNear | omglol-theme/tag.js:200-205 | While the sentinel is observed, its callback renders a batch. Otherwise nothing changes |
| TagFeed.Feed.EntryNear | omglol-theme/tag.js:111-124 | An entry with a URL and a content node is enqueued on its first approach only. The `data-loaded` flag blocks every later approach, and the entry is unobserved |
| TagFeed.Feed.JobSettled | omglol-theme/tag.js:125-141 | A finished job sets exactly its own entry's outcome, and the queue moves on |
| BlueskyText.ByteLen | scripts/fetch_bluesky_feed.py:81 | A text takes at least one UTF-8 byte per character |
| BlueskyText.CharIndex | scripts/fetch_bluesky_feed.py:78-81 | Zero for a non-positive byte offset; never more than the length of the text |
| BlueskyText.FittingCharsIsLongest | scripts/fetch_bluesky_feed.py:81 | The prefix counted fits in the byte budget, and one more character would not |
| BlueskyText.CharIndexCharacterized | scripts/fetch_bluesky_feed.py:78-81 | `k <= CharIndex(text, b)` exactly when the first `k` characters take at most `b` bytes. A character cut by the bound is dropped |
| BlueskyText.CharIndexMonotone | scripts/fetch_bluesky_feed.py:78-81 | A larger byte offset never gives a smaller character offset |
| BlueskyText.CharIndexWhole | scripts/fetch_bluesky_feed.py:81 | An offset at or past the end of the encoding gives the whole text |
| BlueskyText.CharIndexAscii | scripts/fetch_bluesky_feed.py:81 | On ASCII text the character offset is the byte offset, capped at the length |
| BlueskyText.LastSegment | scripts/fetch_bluesky_feed.py:53 | `rsplit("/", 1)[-1]` is the longest suffix without "/", preceded by "/" when it is not the whole text |
| BlueskyText.LastSegmentAfterSlash | scripts/fetch_bluesky_feed.py:53 | The segment after a final "/" is recovered, whatever precedes it |
| BlueskyText.LastSegmentNoSlash | scripts/fetch_bluesky_feed.py:53 | A text without "/" is its own last segment |
| BlueskyText.AtUriToWebUrl | scripts/fetch_bluesky_feed.py:50-54 | "" exactly when the URI or the handle is empty. Otherwise the profile post URL ending in the URI's last segment |
| BlueskyText.AtUriPostId | scripts/fetch_bluesky_feed.py:50-54 | For `at://repo/collection/rkey` the web URL ends in `/post/rkey` |
| BlueskyText.IsBookActivity | scripts/fetch_bluesky_feed.py:57-59 | True exactly when the stripped, lower-cased text starts with one of the three reading prefixes |
| BlueskyText.BookActivityNormalized | scripts/fetch_bluesky_feed.py:57-59 | Surrounding whitespace and case never change the verdict |
| BlueskyText.AnySelfLinkFeature | scripts/fetch_bluesky_feed.py:68-73 | Some link-type feature's lower-cased `uri` contains the site domain |
| BlueskyText.AnySelfLinkFacet | scripts/fetch_bluesky_feed.py:67-73 | Some feature of some facet is such a link |
| BlueskyText.IsSelfSiteLink | scripts/fetch_bluesky_feed.py:62-75 | True exactly when the domain occurs in the normalized text, or in the `uri` of a link feature of some facet. Other feature types are ignored |
| BlueskyText.SelfSiteStripIrrelevant | scripts/fetch_bluesky_feed.py:62-64 | Stripping before the search changes nothing: the domain has no whitespace at its ends |
| RichText.Escape | scripts/fetch_bluesky_feed.py:133 | `html.escape` leaves no markup character in its output |
| RichText.UnescapeChar | scripts/fetch_bluesky_feed.py:133 | Each escaped character decodes back to itself |
| RichText.UnescapeEscape | scripts/fetch_bluesky_feed.py:133 | Escaping is inverted by entity decoding |
| RichText.BreakLines | scripts/fetch_bluesky_feed.py:133 | Replacing "\n" by "<br>\n" never shortens a text |
| RichText.UnbreakBreakLines | scripts/fetch_bluesky_feed.py:133 | On escaped text, the line-break rewrite is inverted |
| RichText.PlainHtmlDecodes | scripts/fetch_bluesky_feed.py:133 | The HTML of a gap decodes back to the raw gap |
| RichText.FeaturesUrl | scripts/fetch_bluesky_feed.py:103-113 | The first link or non-empty mention feature decides the URL: the stripped `uri`, or the profile URL of the stripped `did`. With no such feature the URL is "" |
| RichText.FeatureUrl | scripts/fetch_bluesky_feed.py:103-113 | The feature loop with its two `break`s computes `FeaturesUrl` |
| RichText.FacetLink | scripts/fetch_bluesky_feed.py:92-116 | A facet gives a link exactly when its two bounds are ints with `start < end`, the character range is non-empty and some feature decides a URL |
| RichText.Candidates | scripts/fetch_bluesky_feed.py:91-116 | The candidate links are exactly the links of the facets, each within the text and with a URL |
| RichText.CollectLinks | scripts/fetch_bluesky_feed.py:89-116 | The facet loop computes `Candidates` |
| RichText.Greedy | scripts/fetch_bluesky_feed.py:121-127 | The overlap filter keeps only candidate links |
| RichText.DropOverlaps | scripts/fetch_bluesky_feed.py:121-127 | The loop with its moving cursor computes `Greedy` |
| RichText.GreedyChained | scripts/fetch_bluesky_feed.py:121-127 | Each kept span starts at or after the end of the one before it |
| RichText.ChainedDisjoint | scripts/fetch_bluesky_feed.py:121-127 | Chained spans are pairwise disjoint and strictly ordered by start |
| RichText.Kept | scripts/fetch_bluesky_feed.py:118-127 | The spans after sorting and filtering lie in the text, are chained from 0, and are all candidates |
| RichText.KeptSpans | scripts/fetch_bluesky_feed.py:118-127 | The kept spans are pairwise non-overlapping and ordered, and each comes from some facet |
| RichText.RawPiecesFrom | scripts/fetch_bluesky_feed.py:129-141 | The gaps, labels and tail emitted from `last` concatenate to `text[last..]` |
| RichText.RichTextRaw | scripts/fetch_bluesky_feed.py:129-141 | The raw pieces concatenate back to the whole text |
| RichText.RichTextNoLinks | scripts/fetch_bluesky_feed.py:140-143 | With no usable facet, the output is the escaped text with "\n" replaced by "<br>\n" |
| RichText.Stitch | scripts/fetch_bluesky_feed.py:129-141 | The stitching loop emits exactly the rendered pieces |
| RichText.RenderRichTextHtml | scripts/fetch_bluesky_feed.py:84-143 | The whole renderer equals `RichTextHtml`, and "" for an empty text |
| Sorting.Insert | scripts/fetch_bluesky_feed.py:277 | Insertion keeps the elements, with the new one added |
| Sorting.SortBy | scripts/fetch_bluesky_feed.py:277 | The sort is a permutation of its input |
| Sorting.SortBySorted | scripts/fetch_bluesky_feed.py:118 | The sorted list is ordered by key |
| Sorting.SortByStable | scripts/fetch_bluesky_feed.py:118 | The sort is stable: elements with the same key keep their order |
| CollectPosts.CandidateFacts | scripts/fetch_bluesky_feed.py:212-256 | A kept entry is recent, not a repost and not a reply. Its URL is non-empty, its text is the stripped record text, and it has text or a quote. Text it has is neither book activity nor a self-site link |
| CollectPosts.CandidateComplete | scripts/fetch_bluesky_feed.py:212-256 | Every entry passing all those filters is kept |
| CollectPosts.Verdicts | scripts/fetch_bluesky_feed.py:212 | One verdict per entry fetched |
| CollectPosts.DedupeFacts | scripts/fetch_bluesky_feed.py:245-258 | The URLs kept are pairwise distinct, and `seen_urls` is exactly their set. Each post comes from some entry, and every accepted entry's URL is seen |
| CollectPosts.RequestsFromFacts | scripts/fetch_bluesky_feed.py:204-275 | Counted from page `k`: requests stay within `max_pages`, and every page before the last continues the walk. The last page stops it when it ends before `max_pages` |
| CollectPosts.Pagination | scripts/fetch_bluesky_feed.py:204-275 | At most `max_pages` requests, at least one. The walk stops early exactly on an empty page, a missing cursor or a page with no recent post |
| CollectPosts.SortedDedupeFacts | scripts/fetch_bluesky_feed.py:277 | The sorted result has distinct URLs, newest first, and contains only accepted posts. Every accepted URL is in it |
| CollectPosts.CollectedPostsFacts | scripts/fetch_bluesky_feed.py:198-278 | The result of `collect_posts` has distinct URLs and is sorted by creation time, descending. It holds only posts accepted from the fetched pages, and one post for every accepted URL |
| CollectPosts.ScanEntry | scripts/fetch_bluesky_feed.py:212-271 | One pass of the entry loop, with its `continue`s, applies the entry's verdict to `posts` and `seen_urls`, and reports whether the entry is recent |
| CollectPosts.ScanPage | scripts/fetch_bluesky_feed.py:210-271 | The entry loop over one page extends the de-duplicated result by that page, and `saw_recent` is whether some entry is recent |
| CollectPosts.Collect | scripts/fetch_bluesky_feed.py:198-278 | The page loop makes exactly `Requests` requests and returns `CollectedPosts` |
| SomePics.Get | omglol-theme/some-pics.js:22 | `searchParams.get` gives a value exactly when the key is present, and that value is the key's first value in query order (`getAll(key)[0]`) |
| SomePics.PieceTokensClean | omglol-theme/some-pics.js:192-196 | Trimmed non-empty pieces are clean tokens |
| SomePics.ValuesTokensClean | omglol-theme/some-pics.js:189-197 | Every token of every value is non-empty, trimmed and comma-free |
| SomePics.ListTokensClean | omglol-theme/some-pics.js:186-200 | Every collected token is non-empty, trimmed and comma-free |
| SomePics.PieceTokensOfClean | omglol-theme/some-pics.js:192-196 | Clean pieces pass through the trim-and-drop step unchanged |
| SomePics.ValueTokensJoin | omglol-theme/some-pics.js:192-196 | Splitting the comma-join of clean tokens gives them back |
| SomePics.PushValueTokens | omglol-theme/some-pics.js:190-197 | The per-value loop appends that value's tokens, in order |
| SomePics.PushValuesTokens | omglol-theme/some-pics.js:189-197 | The per-key loop appends the tokens of its values, in order |
| SomePics.CollectListParams | omglol-theme/some-pics.js:186-200 | The tokens in key order, then value order, then piece order; all are clean |
| SomePics.NormalizeTokenIdempotent | omglol-theme/some-pics.js:202-204 | Normalising twice is normalising once |
| SomePics.NormalizedValuesFacts | omglol-theme/some-pics.js:219-221 | The normalised values are exactly the non-empty normalisations of the values |
| SomePics.SomeValueContainsIff | omglol-theme/some-pics.js:226 | True exactly when some normalised value contains the token |
| SomePics.SomeTokenMatchesIff | omglol-theme/some-pics.js:223-227 | True exactly when some non-empty normalised token is contained in some value |
| SomePics.AnyTokenMatchesIff | omglol-theme/some-pics.js:217-228 | True exactly when some token and some value are non-empty after normalisation and the value contains the token |
| SomePics.DropLeadingSlashes | omglol-theme/some-pics.js:210 | Exactly the leading run of "/" is removed: the input is that run followed by the result, and the result does not start with "/" |
| SomePics.DropTrailingSlashes | omglol-theme/some-pics.js:210 | Exactly the trailing run of "/" is removed: the input is the result followed by that run, and the result does not end with "/" |
| SomePics.LastNonEmpty | omglol-theme/some-pics.js:213 | The last non-empty piece, or "" when all pieces are empty |
| SomePics.IdFallback | omglol-theme/some-pics.js:212-213 | The fallback id contains neither "/" nor "?" |
| SomePics.ExtractIdFromUrl | omglol-theme/some-pics.js:206-215 | "" for an empty input. Otherwise an id with no "/" at either end. On a parsed path, the path is a run of "/", then the id, then a run of "/" |
| SomePics.IdOfPath | omglol-theme/some-pics.js:208-210 | A parsed path made of slashes, a core that neither starts nor ends with "/", and slashes gives exactly that core as the id: "/a/b/" gives "a/b" |
| SomePics.IdFallbackQuery | omglol-theme/some-pics.js:212-213 | The query is dropped, and the last path segment is the id |
| SomePics.IdFallbackTrailingSlash | omglol-theme/some-pics.js:212-213 | A trailing "/" does not hide the last segment |
| SomePics.ShouldExcludeIff | omglol-theme/some-pics.js:230-257 | Excluded exactly when an exclude token matches the URL, id or image source, or a description token matches the text |
| SomePics.ExcludeById | omglol-theme/some-pics.js:230-257 | A token equal to the item's id after normalisation excludes it |
| SomePics.NormalizeDomain | omglol-theme/some-pics.js:98-105 | The reassignments compute `CustomDomain` |
| SomePics.DomainBlank | omglol-theme/some-pics.js:99-100 | A whitespace-only domain becomes `<username>.some.pics` |
| SomePics.DomainOfHost | omglol-theme/some-pics.js:101-104 | One `http://` or `https://` and one trailing "/" are removed from a host name |
| SomePics.DropSchemeOfHost | omglol-theme/some-pics.js:103 | Only the scheme is removed |
| SomePics.KeptMembers | omglol-theme/some-pics.js:130 | The kept items are exactly the items not excluded |
| SomePics.KeptAppend | omglol-theme/some-pics.js:130 | Filtering keeps feed order: it distributes over concatenation |
| SomePics.SelectedCount | omglol-theme/some-pics.js:130-132 | The selection is a prefix of the kept items: `count` of them, every one when fewer, none for NaN, and JavaScript `slice` for a negative count |
| SomePics.FigureOf | omglol-theme/some-pics.js:133-177 | An item yields a figure exactly when it has an image. The figure's index is its position plus one, and its source is the image's |
| SomePics.FiguresIndexed | omglol-theme/some-pics.js:132-152 | There are no more figures than items. Each figure is its item's figure, and the indexes increase |
| SomePics.FiguresComplete | omglol-theme/some-pics.js:132-136 | Every selected item with an image has its figure |
| SomePics.RenderFigures | omglol-theme/some-pics.js:132-180 | The `forEach` loop builds exactly `Figures` |
| SomePics.AtMostCount | omglol-theme/some-pics.js:130-132 | At most `count` figures are rendered |
| SomePics.BreakNewlines | omglol-theme/some-pics.js:122 | No "\n" is left after the line-break step |
| SomePics.Paragraphs | omglol-theme/some-pics.js:121-122 | The output has no "\n", starts with `<p>` and ends with `</p>` |
| SomePics.MarkdownToHtml | omglol-theme/some-pics.js:108-125 | "" for an empty input. Otherwise the paragraph step applied to the trimmed, inline-rewritten text |
| SomePics.ParagraphsOneLine | omglol-theme/some-pics.js:121-122 | A single line becomes one paragraph |
| SomePics.ParagraphsLineBreak | omglol-theme/some-pics.js:122 | A single newline becomes `<br>` |
| SomePics.ParagraphsBlankLines | omglol-theme/some-pics.js:121 | A run of two or more newlines becomes `</p><p>` |
| DarkModePublic.Themed | public/assets/js/dark-mode.js:10-19 | The two theme classes become complementary and follow the flag. The attribute and meta follow it where their element exists. Storage and missing elements are untouched |
| DarkModePublic.Started | public/assets/js/dark-mode.js:21-26 | A stored "light" is deleted and anything else kept. The page is dark exactly when the system prefers dark or "dark" was stored |
| DarkModePublic.Toggled | public/assets/js/dark-mode.js:32-40 | A toggle flips the theme the root shows. It stores "dark" for dark and removes the key for light |
| DarkModePublic.AfterKey | public/assets/js/dark-mode.js:42-53 | Enter and Space act exactly as a click; other keys change nothing |
| DarkModePublic.RunSettled | public/assets/js/dark-mode.js:10-53 | After any events the page shows its own flag and storage does not hold "light" |
| DarkModePublic.RunFlips | public/assets/js/dark-mode.js:32-53 | The theme flips once per click or activation key |
| DarkModePublic.RunStored | public/assets/js/dark-mode.js:35-39 | After the first flip, storage records the theme |
| DarkModePublic.SessionFacts | public/assets/js/dark-mode.js:22-53 | From load on, "light" is never stored. The theme is the default flipped once per flipping event, and never flipped without a button |
| DarkModePublic.ToggledTwice | public/assets/js/dark-mode.js:32-40 | Once storage records the theme, two toggles give back the same page |
| DarkModePublic.Document.SetThemeState | public/assets/js/dark-mode.js:10-19 | Updates the page as `Themed` says |
| DarkModePublic.Document.ContentLoaded | public/assets/js/dark-mode.js:3-30 | Updates the page as `Started` says. The handlers are attached exactly when there is a button |
| DarkModePublic.Document.Toggle | public/assets/js/dark-mode.js:33-39 | Updates the page as `Toggled` says |
| DarkModePublic.Document.Click | public/assets/js/dark-mode.js:32-40 | A click toggles when the handlers are attached and does nothing otherwise |
| DarkModePublic.Document.Keydown | public/assets/js/dark-mode.js:42-53 | A key acts as `AfterKey` says when the handlers are attached. Its default action is suppressed exactly for Enter and Space |
| DarkModeStatic.Themed | static/assets/js/dark-mode.js:10-18 | Only `dark-theme` follows the flag, with the attribute and meta where their element exists. The other class and storage are untouched |
| DarkModeStatic.DefaultDark | static/assets/js/dark-mode.js:20 | A stored "dark" gives dark. Any other stored value, "light" included, gives light. With nothing stored, the system preference decides |
| DarkModeStatic.Started | static/assets/js/dark-mode.js:20-21 | The page shows the default theme; storage is untouched |
| DarkModeStatic.Toggled | static/assets/js/dark-mode.js:27-31 | A toggle flips the theme and stores "dark" or "light" by name |
| DarkModeStatic.AfterKey | static/assets/js/dark-mode.js:33-40 | Enter and Space act exactly as a click; other keys change nothing |
| DarkModeStatic.ToggledTwice | static/assets/js/dark-mode.js:27-31 | Two toggles give back the theme, and the whole page once storage names the theme |
| DarkModeStatic.RunFacts | static/assets/js/dark-mode.js:27-40 | The theme flips once per flipping event. Storage names it after any flip, and `light-theme` is never touched |
| DarkModeStatic.SessionFacts | static/assets/js/dark-mode.js:20-40 | From load on, the theme is the default flipped once per flipping event. Storage keeps its load value until the first flip and names the theme after it |
| DarkModeStatic.Document.SetThemeState | static/assets/js/dark-mode.js:10-18 | Updates the page as `Themed` says |
| DarkModeStatic.Document.ContentLoaded | static/assets/js/dark-mode.js:3-25 | Updates the page as `Started` says. The handlers are attached exactly when there is a button |
| DarkModeStatic.Document.Toggle | static/assets/js/dark-mode.js:28-30 | Updates the page as `Toggled` says |
| DarkModeStatic.Document.Click | static/assets/js/dark-mode.js:27-31 | A click toggles when the handlers are attached and does nothing otherwise |
| DarkModeStatic.Document.Keydown | static/assets/js/dark-mode.js:33-40 | A key acts as `AfterKey` says when the handlers are attached. Its default action is suppressed exactly for Enter and Space |
| Strings.Trim | scripts/fetch_bluesky_feed.py:58 | `strip()` leaves no whitespace at either end |
| Strings.TrimBounds | scripts/fetch_bluesky_feed.py:248 | The stripped text is a slice of the text, with only whitespace cut off on either side |
| Strings.TrimIdempotent | omglol-theme/some-pics.js:203 | Stripping twice is stripping once |
| Strings.TrimBlank | omglol-theme/some-pics.js:99 | A whitespace-only text strips to "" |
| Strings.ToLowerTrim | scripts/fetch_bluesky_feed.py:58 | Lower-casing and stripping commute |
| Strings.NormalizedIdempotent | scripts/fetch_bluesky_feed.py:58 | Strip-and-lower twice is strip-and-lower once |
| Strings.ContainsTrim | scripts/fetch_bluesky_feed.py:63-64 | A needle without whitespace at its ends occurs in the stripped text exactly when it occurs in the text |
| Strings.Split | omglol-theme/some-pics.js:193 | `split(",")` gives at least one piece, none containing the separator |
| Strings.JoinSplit | omglol-theme/some-pics.js:193 | Joining the pieces of a split gives the text back |
| Strings.SplitJoin | omglol-theme/some-pics.js:193 | Splitting a join of separator-free pieces gives the pieces back |
| Strings.DecimalRoundTrip | omglol-theme/tag.js:194 | The decimal numeral of a count denotes that count |

## Left out

- Fetching, HTML parsing and the DOM are outside the model. Their results are inputs:
  - The tag index arrives as a list of parsed anchors, or as a failure.
  - A post arrives as its article fragment, or as a failure.
  - A some.pics item arrives with its first image already extracted.
  - The Bluesky pages arrive as a sequence, with `extract_quote`'s result given per entry.
- The `new URL(...)` branches are left out because they rely on the WHATWG URL parser. This covers the resolution of an index `href` (an input that may fail), the path of a parsed item URL (an input), and the rewriting of item URLs to the custom domain.
- The two IntersectionObservers, `rootMargin` and asynchronous timing are left out. They are the events `SentinelNear`, `EntryNear` and `JobSettled`, delivered in any order.
- Markup templates, lazy-image attributes, CSS injection and figure/link building are left out. A figure is modelled by its fields, and an entry by its content state.
- The inline Markdown rewrites (links, bold, italic, code) are left out because they are regular expressions with lazy quantifiers. `MarkdownToHtml` takes that rewrite as a function parameter.
- `parseInt` of `count` is left out. `count` is given as the number it yields, or NaN.
- Date parsing, time zones and `date_label` are left out. Instants and the cutoff are whole seconds, and the ISO date string is not modelled.
- `fetch_feed_page`, `write_output`, `parse_args`, `main`, the timeout, `localStorage`, `matchMedia` and console logging are left out because they are I/O. Storage and the system preference are state fields and inputs.
- Whitespace, case folding and `html.escape` are modelled as ASCII character mappings. Unicode whitespace and letters beyond ASCII are not modelled.
- Strings.Trim, Strings.TrimBounds: whitespace is the set of JavaScript's `trim` within ASCII (space, tab, line feed, vertical tab, form feed, carriage return). Python's `str.strip()` also removes the ASCII separators \x1c to \x1f. So `strip()` in scripts/fetch_bluesky_feed.py (lines 58, 63, 107, 110, 170 and 248) is modelled as keeping those four characters, and `IsBookActivity`, `IsSelfSiteLink`, `FeaturesUrl` and `Candidate` differ from the script on texts that begin or end with them.
- TagOptions.ToNumber, TagOptions.BatchSize, TagOptions.Concurrency: `Number` is read only for blank text and optionally signed runs of decimal digits; everything else is `NaN`. So where the script takes a fractional, exponent, hex, octal, binary or `Infinity` value, the model uses the default 10 or 4. For example, `data-batch-size="2.5"` gives batches of 2 in the script and 10 in the model, and `data-concurrent="2.5"` lets 3 jobs run in the script and 4 in the model. These values would need real numbers and an unbounded cap, which the integer-valued batch size and queue cap do not represent.
- SomePics.DomainOfHost: proved only for a host name without "/", because a "/" inside the host changes which slash the trailing-slash rule removes.
- DarkModeStatic.ToggledTwice: returns the whole page only once storage names the theme. From the load state, two toggles restore the theme, and storage ends up holding its name, because every toggle writes storage.
- TagOptions.BatchSizeProgress: states progress for the corrected batch size only. For the code as written, see the finding.

## Findings

| source | as written | input that shows it | evidently intended | confidence | as-written member | corrected member |
|---|---|---|---|---|---|---|
| omglol-theme/tag.js:36 | `Math.max(1, Number(attr))` is NaN when the attribute does not parse, and `slice(next, next + NaN)` is empty, so `renderBatch` never advances and "Loaded 0 of N" stays forever | `data-batch-size="ten"` with a non-empty index | a batch size of at least 1 (the default 10 for an unparseable value) | not executed | TagOptions.BatchSizeNaNStalls | TagOptions.BatchSize |
| omglol-theme/tag.js:43 | `MAX_CONCURRENT_FETCHES` is NaN when the attribute does not parse, and `inFlight < NaN` is false, so no post content ever loads | `data-concurrent="four"` | a cap of at least 1 (the default 4 for an unparseable value) | not executed | TagOptions.ConcurrencyNaNBlocks | TagOptions.Concurrency |
