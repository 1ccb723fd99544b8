# RedditX, modelled in Dafny

RedditX is a browser extension for Reddit with two scripts.

The content script (`content.js`) runs in a Reddit page and follows five detection rules:

1. a `shreddit-post` flagged `is-promoted="true"`;
2. a post container whose text holds "Promoted";
3. `data-promoted="true"`;
4. the class `promoted` or `promotedlink`;
5. any `shreddit-post` whose text holds "Promoted".

For every post it finds, the content script:

- reads a record (title, url, subreddit, time) through three first-match-wins chains of selectors;
- swaps the post for a placeholder marked `promoted-removed`;
- writes the set of records to the extension's storage.

A mutation observer and a timer repeat the scan. An "Extension context invalidated" error disconnects the observer.

The popup (`popup.js`) does four things:

- shows the number of records and the age of the first one as "Just now", "5m ago", "3h ago" or "2d ago";
- switches between its tabs;
- keeps a style dropdown with a name and a preview for the chosen placeholder style;
- reads the records and their count from the extension's storage, not from the content script. Its one message to the content script is `updatePlaceholderStyle` after an option click.

The content script also answers a `getPromotedCount` request. popup.js does not send it: it reads `promotedPosts` from storage itself.

## How the model is built

- **The page.** The page is a forest of trees stored in document order. Each entry is an element or a text node with its depth.
  - Fragment 0 is the document. Every other fragment is a subtree that `replaceChild` detached and that a handle may still point to.
  - `textContent`, `querySelector`, `querySelectorAll`, the parent of a node and its index among its siblings are all functions of this structure (modules `Dom` and `Page`).
  - The page is a `Document` object. Its `ReplaceChild` and `CreateElements` change it in place and keep its identities distinct.
- **Detection** (`Detection`) and **extraction** (`Extraction`, `TitleCleanup`) are functions of the page.
- **Replacement** is a step function and a pass over the list of handles (`Replacement`). The detector object is the class `ContentScript.Session`; its record set and observer state are fields. Its methods are proved to compute exactly those functions over the `Document` and a `Storage` object.
- **The popup.** Its pure lookups are functions. Its tab switch and dropdown are methods over `UiElement` objects whose class sets they change (`Popup`).

Behaviour of the code worth noting:

- **Timer after disconnect.** The `setInterval` scan is never cleared. `Session.Scan` has no guard, so scans (and storage writes) go on after the observer is disconnected. Only the observer callback stops (`Session.OnMutations`).
- **One record per element.** Handing the same element to `highlightPromotedPosts` again does not necessarily give one record. The replaced element is detached without the `promoted-removed` class, so it is read again, and with a different clock reading its record differs. Identical records do collapse (`Replacement.AddRecordIdempotent`).
- **`lastUpdate`** is the clock at the time of the write, not a time taken from the records.
- **The popup's label** is the age of `posts[0]`, the oldest record, not the newest.

## Model

| member | source | states |
|---|---|---|
| Detection.DetectedIffPromoted | content.js:36-82 | an element is detected iff it is an element of the document matching one of the five rules: `shreddit-post` with `is-promoted` exactly "true"; `data-testid="post-container"` whose text holds case-sensitive "Promoted"; `data-promoted="true"`; class token `promoted` or `promotedlink`; any `shreddit-post` whose text holds "Promoted" |
| Detection.DetectedOnceInRuleOrder | content.js:41-81 | the result has no duplicates, holds exactly the candidates, and orders them by first occurrence in rule 1..5 order |
| Detection.DedupCorrect | content.js:78 | `[...new Set(xs)]` keeps each value once, exactly the values of `xs`, ordered by first occurrence |
| Detection.Dedup | content.js:78 | de-duplication never lengthens the list |
| Detection.Detected | content.js:77-81 | the returned list has no duplicates and is no longer than the candidate list |
| Detection.CandidateMembers | content.js:41-75 | a handle is a candidate iff it is a hit of one of the five rules |
| Detection.PlainRuleMembers | content.js:42-44 | a handle is among the hits of an unfiltered rule iff some element with that handle matches the selector |
| Detection.MarkedRuleMembers | content.js:47-54 | a handle is among the hits of a text-filtered rule iff some element with that handle matches and its text holds the marker |
| Detection.MarkedIdsMembers | content.js:69-75 | the kept handles are exactly those of the listed elements whose `textContent` includes "Promoted" |
| Detection.IdsAt | content.js:44 | pushing the elements of a node list keeps their number and order |
| ContentScript.Session.DetectPromotedPosts | content.js:36-82 | the method returns exactly the de-duplicated concatenation of the five rules' hits and changes nothing |
| ContentScript.Session.PushMatches | content.js:42-44 | querying and pushing appends the hits of an unfiltered rule |
| ContentScript.Session.PushMarkedMatches | content.js:67-75 | querying and filtering appends the hits of a text-filtered rule |
| ContentScript.Session.PushAll | content.js:44 | the `forEach` push loop appends the handles of all listed elements, in list order |
| ContentScript.Session.PushMarked | content.js:48-54 | the filtering `forEach` appends the handles of the listed elements whose text holds the marker, in list order |
| ContentScript.Session.Unique | content.js:78 | the loop computes the first-occurrence de-duplication |
| Dom.QuerySelector | content.js:91-96 | `querySelector` is the first descendant in document order that matches (by `FirstMatch`) |
| Dom.AllMatches | content.js:42 | `querySelectorAll` returns exactly the matching entries, in increasing document order |
| Extraction.ChainHit | content.js:91-96 | `a \|\| b \|\| …` over queries, from selector `j` of the chain on (the script starts at 0), gives the first selector that finds an element together with that element, which lies inside the post; none exactly when no selector from `j` on finds one |
| Extraction.ExtractPostInfo | content.js:85-143 | every field of a record is non-empty (the url when the location is non-empty) and the timestamp is the clock reading |
| Extraction.LinkHitWins | content.js:103-109 | the first link selector that finds an element supplies the url even when its `href` is empty; then the page location is used, never the permalink |
| Extraction.PermalinkFallback | content.js:110-116 | without any link hit, a `SHREDDIT-POST` with a non-empty `permalink` gets exactly "https://www.reddit.com" + permalink; any other element gets the location |
| Extraction.SubredditHitWins | content.js:119-124 | the first subreddit selector that finds an element supplies the subreddit, even with blank text (then "Sponsored") |
| Extraction.SubredditFallback | content.js:125-130 | without any subreddit hit, a `SHREDDIT-POST` with a non-empty `subreddit-prefixed-name` gets it; otherwise "Sponsored" |
| Extraction.TitleHitKept | content.js:91-100 | a title hit with non-empty, marker-free trimmed text is the title |
| Extraction.TitleHit | content.js:91-100 | when a title selector hits, the title is the cleaned, trimmed text of the first hit, or "Promoted Post" when that is empty |
| Extraction.NoTitleHit | content.js:91-98 | when no title selector hits, the title is "Promoted Post" |
| Extraction.RawTitle | content.js:90-100 | the raw title is trimmed, and empty when no selector hits |
| Extraction.RawUrl | content.js:102-116 | for any node, without a link hit, the url is non-empty exactly for a `SHREDDIT-POST` with a non-empty `permalink`, and then starts with "https://www.reddit.com" |
| Extraction.RawSubreddit | content.js:118-130 | a hit gives trimmed text; without a hit a non-empty subreddit comes only from a `SHREDDIT-POST` (any other node, text nodes included, gives empty) |
| Extraction.EmptyElementDefaults | content.js:137-141 | an element without descendants that is not a `shreddit-post` yields "Promoted Post", the location and "Sponsored" |
| Extraction.OrDefault | content.js:138-140 | `s \|\| fallback` is `s` unless `s` is empty |
| Extraction.NonEmptyAttr | content.js:112-113 | an attribute is used iff present and non-empty |
| TitleCleanup.CleanTitleFixesExactlyMarkerFree | content.js:133-135 | cleanup leaves a title unchanged exactly when it does not hold "Promoted" |
| TitleCleanup.CleanTitle | content.js:132-135 | a title without "Promoted" is kept; one with it becomes strictly shorter and is trimmed |
| TitleCleanup.CleanTitleIsSinglePass | content.js:133-135 | "PromPromotedoted" is cleaned to "Promoted", which still holds the marker: cleanup is not a fixpoint |
| TitleCleanup.RemoveMarkerIsSinglePass | content.js:134 | on "PromPromotedoted" the replacement leaves "Promoted": the text left behind by a removal is not scanned again |
| Strings.RemoveMarkerFixesExactlyMarkerFree | content.js:134 | removing `Promoted\s*` changes a string exactly when it holds the marker |
| Strings.RemoveMarkerShrinks | content.js:134 | a string holding the marker loses characters |
| Strings.RemoveMarkerIdentity | content.js:134 | a string without the marker is kept as it is |
| Strings.RemoveMarker | content.js:134 | removing `Promoted\s*` never lengthens a string |
| Strings.RemoveMarkerKeepsPrefix | content.js:134 | characters before the first marker are kept and removal continues after them |
| Strings.Trim | content.js:99 | `trim()` yields the slice of the input left after its leading and trailing whitespace: it starts after the leading run of whitespace, everything after it is whitespace, and it neither begins nor ends with whitespace |
| Strings.TrimFixesTrimmed | content.js:134 | a trimmed string is its own trim |
| Strings.NatToStringRoundTrip | popup.js:172-174 | the decimal rendering of a number consists of digits, has no leading zero and reads back as the number |
| Replacement.PlaceholderShape | content.js:156-173 | the placeholder is one well-formed tree of three elements, all `DIV`, whose ids follow creation order, whose root carries `promoted-removed` and whose title line reads the title, or "Sponsored post" when empty |
| Replacement.Placeholder | content.js:156-174 | the placeholder is a well-formed tree rooted at depth 0 at an element with the first new identity that carries `promoted-removed` |
| Replacement.PlaceholderShowsRecordTitle | content.js:171 | the title line always shows the record's title: the "Sponsored post" fallback never applies |
| Replacement.PlaceholderNeverDetected | content.js:157 | the placeholder itself matches none of the five rules |
| Replacement.PlaceholderFresh | content.js:156-167 | the new identities are distinct, allocated and not yet in the page |
| Replacement.AddRecordIsSetInsert | content.js:153 | adding a record keeps the old ones as a prefix, adds exactly that record, at most once, and keeps the set duplicate-free |
| Replacement.AddRecordIdempotent | content.js:153 | an identical record collapses into the one already there |
| Replacement.StepSkipsRemoved | content.js:148 | an element already marked `promoted-removed` is untouched and adds no record |
| Replacement.Step | content.js:147-182 | one iteration keeps the records as a prefix and adds at most one |
| Replacement.StepAt | content.js:148-180 | the iteration for an unmarked element keeps the records as a prefix, adds its record (at most one new one), and allocates three identities |
| Replacement.StepRecords | content.js:148-153 | every other element's record is added, even when it has no parent, in which case the page is unchanged |
| Replacement.StepReplacesInPlace | content.js:177-180 | an attached, unmarked element is replaced, within its own fragment, by the placeholder carrying its record's title |
| Replacement.PlaceholderInPlace | content.js:179 | the placeholder takes the element's place: a marked element with a fresh identity at the same depth, same parent and same index among its siblings; everything before is kept and the siblings after follow unchanged |
| Replacement.StepDetachesSubtree | content.js:179 | replacement leaves every other fragment alone and keeps the old subtree as a new detached fragment |
| Replacement.StepKeepsValid | content.js:147-182 | a step keeps the page well-formed with distinct, allocated identities |
| Replacement.PassGrowsRecords | content.js:147-182 | over a pass the record set only grows, stays duplicate-free, grows by at most one per handle, and the page stays valid |
| Replacement.Pass | content.js:147-182 | over the `forEach` the records are kept as a prefix and grow by at most one per handle |
| ContentScript.Session.RemovePost | content.js:147-182 | one iteration changes the document and the records exactly as the step function says |
| ContentScript.Session.ReplacePost | content.js:148-180 | for an unmarked element: the record is added, three identities are allocated, and the element is swapped for the placeholder exactly when it has a parent, keeping the page valid |
| ContentScript.Session.HighlightPromotedPosts | content.js:146-188 | the loop changes the document and record set exactly as the pass says; storage is written iff the list is non-empty, even if every element was skipped |
| ContentScript.EntriesAfterWrite | content.js:193-199 | a write that does not throw stores the records with `count` equal to their number and `lastUpdate` equal to the write time; a throw stores nothing |
| ContentScript.ObserverAfterWrite | content.js:200-210 | only a throw whose message contains "Extension context invalidated" disconnects the observer, and only a created one; any other error changes nothing |
| ContentScript.Session.UpdateStorage | content.js:192-212 | the method's effect on the storage and on the observer is exactly that of the two functions above |
| ContentScript.Session.Scan | content.js:243-252 | a scan replaces exactly the detected elements, in detection order; with detections it writes the storage and updates the observer as a write does; without any, storage and observer are unchanged |
| ContentScript.Session.OnMutations | content.js:216-233 | a disconnected or not yet created observer, or a batch without added elements, changes nothing; otherwise a scan runs, with the same effect on page, records, storage and observer as `Scan` |
| ContentScript.RescanIffElementAdded | content.js:220-228 | the count of added element nodes is positive iff some added node has `nodeType` 1 |
| ContentScript.ElementsInPositive | content.js:222-226 | within one mutation record, the count is positive iff some added node is an element |
| ContentScript.CountAddedElements | content.js:220-226 | the nested `forEach` loops count exactly the added element nodes |
| ContentScript.Session.StartObserver | content.js:216-217 | starting the observer puts it in the observing state |
| ContentScript.Session.constructor | content.js:4-7 | a new detector has no records and no observer |
| Store.WithSnapshot | content.js:195-199 | the snapshot overwrites `promotedPosts`, `count` and `lastUpdate` and keeps every other key |
| Store.CountOrZero | content.js:284 | `result.count \|\| 0` is a truthy stored count or 0 |
| Store.HandleMessage | content.js:280-293 | only `getPromotedCount` is answered: with the stored count or 0, or with a failure carrying the message when the read throws |
| Store.CountReplyAfterWrite | content.js:194-199 | after a snapshot is written, the count reply is exactly the number of records, 0 included |
| Store.CountReplyTruthyOrZero | content.js:282-285 | the count reply is never a falsy stored value other than 0 |
| Popup.Bucket | popup.js:169-174 | the buckets: "Just now" under 60 s, whole minutes 1..59 under an hour, whole hours 1..23 under a day, whole days at least 1 |
| Popup.FormatTimeAgo | popup.js:168-175 | the label reads back as the bucket of the elapsed seconds; it is "Just now" exactly under 60 s, and never "-" |
| Popup.FutureIsJustNow | popup.js:169-171 | a timestamp not in the past reads "Just now" |
| Popup.LabelNeverGoesBack | popup.js:171-174 | as time passes the label never moves to a smaller unit, and within a unit its number never decreases |
| Popup.ParseRender | popup.js:171-174 | every label reads back as its bucket |
| Popup.RenderInjective | popup.js:171-174 | different buckets give different labels |
| Popup.NameAndPreviewAgree | popup.js:73-81 | name and preview always describe the same style; unknown or missing styles fall back to the stats name and preview |
| Popup.SavedStyleDefault | popup.js:85 | a missing or empty saved style means "stats" |
| Popup.SavedStyle | popup.js:85 | the saved style used is never empty |
| Popup.StyleName | popup.js:73-81 | the name shown is one of the table's names and is non-empty |
| Popup.PreviewShown | popup.js:162-164 | the preview shown is one of the `STYLE_PREVIEWS` entries |
| Popup.UnknownStyleMarksNothing | popup.js:140-149 | an unknown style matches no option, so the per-option update (`WithSelected`) leaves every option without `selected`, although the text shows the stats name |
| Popup.FindById | popup.js:18 | `getElementById` finds the first element with that id in document order, or none exists |
| Popup.ClickTab | popup.js:8-19 | after a click exactly the clicked tab and the element with id `data-tab + "-tab"` are active among tabs and contents; other classes and every text are untouched; without such an element the handler throws after activating the tab |
| Popup.WithSelected | popup.js:144-148 | the `selected` flag is set as requested and every other token is kept |
| Popup.Settings.UpdateSelectedStyle | popup.js:137-150 | an option is `selected` iff its `data-style` equals the style, and the text shows the style's name; the options keep their other classes and their texts |
| Popup.Settings.UpdatePreview | popup.js:162-164 | the preview shows the style's entry, or the stats entry |
| Popup.Settings.ApplySavedStyle | popup.js:84-88 | the saved style, or "stats" when none or empty is saved, is named, previewed and marked on exactly the options of that style; every other class and the text of the options is kept |
| Popup.Settings.OpenDropdown | popup.js:152-155 | opening sets `active` and `show` |
| Popup.Settings.CloseDropdown | popup.js:157-160 | closing clears both |
| Popup.Settings.ToggleDropdown | popup.js:91-100 | a click on the selected box flips `active`, and `show` follows it; other classes and the texts are kept |
| Popup.Settings.OnDocumentClick | popup.js:131-135 | a click outside both parts removes exactly `active` and `show` and keeps every other class; a click inside changes nothing; no element's text changes |
| Popup.Settings.OnOptionClick | popup.js:103-111 | a chosen option is marked (with every option of the same style) and the others are unmarked, keeping their other classes; the text names and the preview shows its style; exactly `active` and `show` are removed; no other text changes |
| Popup.DisplaySummary | popup.js:177-190 | the count text is the decimal rendering of the number of posts and reads back as it; the label is the age of `posts[0]`, or "-" without posts |
| Popup.LastUpdateText | popup.js:185-190 | the label is "-" exactly when there are no posts; otherwise it reads back as the bucket of the age of `posts[0]` |
| Popup.SummaryMatchesSnapshot | popup.js:240-242 | after a snapshot, the popup lists exactly the stored records and its count equals the stored `count` |
| Popup.LastUpdateIgnoresLaterRecords | popup.js:186-187 | the label depends on the first record only |
| Popup.LastUpdateStableOverPass | popup.js:186-187 | over a replacement pass that starts with records, the label at a given time does not change |
| Page.Document.ReplaceChild | content.js:179 | `replaceChild` keeps the page valid and does exactly the replacement |
| Page.ReplaceKeepsValid | content.js:179 | replacing a subtree by a fresh block keeps the forest well-formed, allocated and duplicate-free |
| Page.ReplaceIds | content.js:179 | replacement adds exactly the new block's identities and loses none |
| Dom.SpliceWellFormed | content.js:179 | splicing a tree in place of a subtree keeps a well-formed tree |
| Dom.SpliceInPlace | content.js:179 | a spliced-in tree's root takes the old root's depth, parent and sibling index, and the entries around the old subtree are kept |
| Dom.ParentAndIndexDependOnPrefix | content.js:179 | parent and sibling index depend only on the entries before a node |
| Page.Locate | content.js:147 | a handle is found at an element with that identity, or no such element exists |

## Left out

- `debugPostStructure` (content.js:10-33) is diagnostic console output and is not modelled.
- Scheduling is not modelled: the timeouts, the interval and the `MutationObserver` registration. A scan is a method a caller runs. The observer's life is its state, and the callback's decision is modelled.
- The extension APIs are reduced to parameters: `chrome.storage`, `chrome.tabs` and `chrome.runtime`.
  - A storage write is a `Storage` map plus a write outcome. A storage read is a read outcome.
  - The asynchronous storage callbacks, `sendResponse` channels and the listener's `return true` are not modelled.
- The clock and `window.location.href` are parameters. Within a pass the `j`-th record reads `clock(j)`, and the write time is separate.
- ContentScript.Session.HighlightPromotedPosts: a handle that names no element of the page leaves the state unchanged. This cannot arise for handles that come from detection.
- Resolving `href` to an absolute URL is browser behaviour. An element's `href` is taken as already resolved.
- Not modelled in the placeholder: the placeholder's and the preview's CSS text, the markup of `STYLE_PREVIEWS`, `escapeHtml`, and the HTML of the post list.
- Replacement.Placeholder: `innerHTML` is modelled by the one `div` with its text that it creates. Style attributes are left out.
- JSON encoding of records is not modelled. A record set is a duplicate-free sequence of records, which behaves the same because the encoding of a fixed-shape record is one-to-one.
- Popup.StyleName: lookups of inherited object properties (such as "constructor") are not modelled. Only own keys count. In the source such a key is truthy and its value is shown, where the model shows the stats name. UpdateSelectedStyle, ApplySavedStyle and OnOptionClick inherit this through StyleName.
- Popup.PreviewShown: the same abstraction for `STYLE_PREVIEWS[style]` (popup.js:163). An inherited key such as "constructor" is truthy in the source and is shown, where the model shows the "stats" preview. UpdatePreview, ApplySavedStyle and OnOptionClick inherit this through PreviewShown.
- Popup.PostsShown: a stored `promotedPosts` that is not a list is treated like a missing one. Only lists are ever written.
- The popup's refresh button, its storage change listener, the list of posts in `displayPosts` and the storage write and tab message after an option click are left out. They are calls into the extension APIs with no logic of their own.
- `trim()` and `\s` share one whitespace predicate: the ECMAScript white-space and line-terminator characters.
