# property24-bot in Dafny

property24-bot watches a rental search on Property24. It polls Property24's counter endpoint for the number of listings. When the number changes, it records the new count, scrapes the listing pages for listing URLs, and works out which URLs are new. When the count went up, it sends a notification naming the new listings, through ntfy or Telegram.

This project models the core of that bot as immutable values and pure state-transition functions, and proves properties of them:

- **`SnapshotStore`** (state.dfy): the DuckDB state store of `app/state.py`.
  - It holds the stored property count.
  - It holds the `current`, `previous` and `new` listing snapshots, each an ordered list of URLs.
  - `update_current_listings` is a single transaction that can be rolled back.
- **`Property24`** (property24.dfy): the search-URL and scraping helpers of `app/property24.py`.
  - Slugs and category codes.
  - The standard and advanced page URLs.
  - Link extraction.
  - `fetch_listing_urls` as a method whose loop requests pages `1..n` in order.
- **`UrlEncode`** (url_encode.dfy): the `quote_plus` encoding that `urlencode` applies to query pairs.
- **`ListingFiles`** (listing_files.dfy): the file-based `ListingTracker` (`_read_urls`, `_write_urls`, `record`). The file system is a map from path to text.
- **`Monitor`** (monitor.dfy): one iteration of the poll loop of `app/main.py`, together with:
  - the count fetch;
  - the notification message;
  - the choice of notification channel.
- **`LegacyMonitor`** (legacy_monitor.dfy): the older loop of `src/main.py`, which keeps the previous count in a text file.
- **`ChatId`** (chat_id.dfy): `_extract_chat_records` and the label lines of `app/util/chat_id.py`.
- **`Config`** (config.dfy): the defaults and field validators of `app/config.py`.
- Supporting modules:
  - `Wrappers`: `Option` and `Result`.
  - `Text`: Python's `strip`, `lower`/`upper`, `int()`/`str()`, `join` and `split`.
  - `Seqs`: order-preserving list difference and de-duplication.
  - `Json`: decoded JSON values, with Python's truthiness, `str()` and dictionary-key equality.

Inputs that come from outside the program become parameters:

- the counter's reply;
- the HTML answer to each page request, given as its listing-number set and its `(number, path)` link matches;
- whether the store's transaction commits;
- whether the notification sender raises.

Persisting across a restart is modelled as reusing the same value. Re-opening the database file or re-reading the count file gives back what was written.

In these places the model follows the code:

- A listing fetch happens on any change of the count, not only on an increase (`app/main.py:149-175`).
- In `callback_query`, a `message` or `chat` that is present but is not an object raises `AttributeError`, so the whole extraction fails. It does not just contribute nothing (`app/util/chat_id.py:43-46`).
- In `src/main.py`, `send_message` catches only `URLError` (src/main.py:152-158), and its call at src/main.py:192-197 is outside every `try` but the one for `KeyboardInterrupt`. A timeout or reset while the Telegram answer is read therefore ends the loop, after the new count was written to the file.

Here the model follows the evident intent instead:

- `app/main.py:119` builds `ListingTracker(state_store=...)`, but the tracker's constructor only accepts file paths (`app/property24.py:293-299`). The loop is modelled as intended: it records the listings in the state store. `ListingFiles.RecordAgreesWithStore` proves that the file tracker and the store report the same new URLs when they start from the same listing.

## Model

| member | source | states |
|---|---|---|
| SnapshotStore.Listings | app/state.py:97-115 | A stored snapshot reads back as the URL list written for it, in position order; a snapshot that was never written reads as `[]`. |
| SnapshotStore.IterateSnapshot | app/state.py:178-190 | `iterate_snapshot` yields the same sequence as `_snapshot_urls` for every name. |
| SnapshotStore.GetPropertyCount | app/state.py:60-84 | A missing count reads 0. A stored value that `int()` accepts reads as that integer, and nothing is written. An unparsable value reads 0 and is replaced by "0". No other row or snapshot changes. |
| SnapshotStore.SetPropertyCount | app/state.py:86-95 | Only the `property_count` row changes; other metadata rows and all snapshots are kept. |
| SnapshotStore.UpdateCurrentListings | app/state.py:117-159 | On commit: `previous` is the old `current`, `current` is `urls` with order and duplicates kept, and `new` equals the returned list, which is `urls` with the URLs of the old `current` filtered out, in `urls` order: exactly the URLs of `urls` not in the old `current`, with their multiplicities. On rollback: an error and an unchanged store. The count and other snapshots never change. |
| SnapshotStore.Reset | app/state.py:161-169 | After `reset()` the count reads 0 and every snapshot is empty. |
| SnapshotStore.CountRoundTrip | app/state.py:60-95 | A fresh store reads 0. After `set_property_count(n)` the count reads `n`, and reading writes nothing back. |
| SnapshotStore.CorruptCountResets | app/state.py:69-82 | An unparsable stored count reads 0 and is replaced by "0"; a second read gives the same result and writes nothing. |
| SnapshotStore.CountIgnoresSnapshots | app/state.py:60-84 | The count read depends only on the metadata table, so listing updates cannot change it. |
| SnapshotStore.UpdateTwiceWithSameList | app/state.py:141-150 | Updating twice with the same list returns `[]` the second time; `new` is then empty and `current == previous == list`. |
| Seqs.MinusFacts | app/state.py:141-143 | The filtered list keeps exactly the URLs outside the previous set, each as often as it occurs in `urls`. |
| Seqs.AppendNewFacts | app/property24.py:255-257 | Appending keeps the list already collected in front, adds only elements of the page, adds all of them, and introduces no duplicate. |
| Seqs.AppendNewIsFirstOccurrences | app/property24.py:255-257 | The appended part is exactly the page elements not already present, each at its first occurrence, in order. |
| SnapshotStore.AppendedListingsAreNew | app/state.py:141-143 | URLs appended behind the old `current` that were not in it are exactly what the update returns. |
| SnapshotStore.FirstUpdateAllNew | app/state.py:122-150 | The first update of a fresh store returns every URL as new and leaves `previous` empty. |
| SnapshotStore.UpdateAllSnapshots | app/state.py:117-159 | After any run of updates from a fresh store, `current` is the last list, `previous` the one before it (empty after one update), and `new` the last list minus the one before, in order. |
| Property24.CollapseRuns | app/property24.py:48 | The result holds only `[a-z0-9-]`, keeps the slug characters in order, and has no two adjacent hyphens. |
| Property24.CollapseRunsSlugChar | app/property24.py:48 | A slug character in front is kept as it is, ahead of the rest's result. |
| Property24.CollapseRunsSeparator | app/property24.py:48 | A whole run of non-slug characters in front, up to the next slug character or the end, becomes exactly one hyphen. |
| Property24.CollapseRunsConcat | app/property24.py:48 | Cut after a slug character (or at the start), the text collapses piece by piece: the result for `a + b` is that of `a` followed by that of `b`. So hyphens appear exactly where runs were. |
| Property24.CollapseTwoWords | app/property24.py:48 | Two words of slug characters with one separator between them become the words joined by one hyphen. |
| Property24.Slugify | app/property24.py:46-49 | A slug contains only `[a-z0-9-]`, has no leading or trailing hyphen and no double hyphen, and keeps the letters and digits of the lower-cased, stripped input in order. |
| Property24.WesternCapeSlug | app/property24.py:46-49 | "Western Cape" becomes "western-cape". |
| Property24.SlugOfSlug | app/property24.py:46-49 | Slugifying a string that already has slug form gives it back unchanged. |
| Property24.SlugifyIdempotent | app/property24.py:46-49 | Slugifying twice is slugifying once. |
| Property24.CategoryOf | app/property24.py:24-37 | Codes 1 to 12 map to a non-empty category name; every other code maps to nothing. |
| Property24.BuildPropertyCategories | app/property24.py:50-64 | No duplicates. `[]` when `propertyTypes` is not a sequence. Otherwise a category appears iff some entry converts by `int()` to a code that maps to it, and the list is the first occurrences of the entries' categories, in entry order. |
| Property24.MappedCategoriesSingle | app/property24.py:56-61 | One entry yields its category when `int()` accepts it and the code is in the map, and nothing otherwise. |
| Property24.MappedCategoriesConcat | app/property24.py:56-63 | The loop visits entries in order: the categories of `a + b` are those of `a` followed by those of `b`. |
| Property24.BuildListingPath | app/property24.py:69-97 | An error exactly when the first `autoCompleteItems` entry is missing or not an object, has a null `id`, or has neither a non-blank `normalizedName` nor a string `name`. |
| Property24.AreaSlugIsSlug | app/property24.py:86-91 | The area segment is a slug. |
| Property24.ParentSlugIsSlug | app/property24.py:93 | The parent segment is a slug, whatever `parentName` holds. |
| Property24.ListingPathSegments | app/property24.py:93-97 | The area and parent segments are slugs. When the id's text holds no `/`, a built path splits at `/` into `"", "to-rent", area`, then `parent` only when it is non-empty, then the id. |
| Property24.NormalizeAutoCompleteItems | app/property24.py:98-111 | `[]` when the entry list is not a list. Otherwise an entry is kept iff it is an object. |
| Property24.ObjectEntriesSingle | app/property24.py:108-110 | One item contributes its fields when it is an object, and nothing otherwise. |
| Property24.ObjectEntriesConcat | app/property24.py:107-111 | Entries keep item order and repeats: the entries of `a + b` are those of `a` followed by those of `b`. |
| Property24.ObjectEntriesOfObjects | app/property24.py:107-111 | When every item is an object, there is one entry per item, in item order, so the count that selects the URL kind is the item count. |
| Property24.LocationIdOf | app/property24.py:116-123 | An id is kept only when it is an int (not a bool) or a string. An int id becomes its decimal text. A string id becomes its stripped text, and a blank one gives nothing. A kept id is never empty. |
| Property24.ExtractLocationIds | app/property24.py:114-124 | The ids are exactly those that `LocationIdOf` accepts, and there are never more ids than entries. |
| Property24.ExtractLocationIdsSingle | app/property24.py:116-123 | One entry contributes its id when `LocationIdOf` keeps one, and nothing otherwise. |
| Property24.ExtractLocationIdsConcat | app/property24.py:114-124 | Ids keep entry order and repeats: the ids of `a + b` are those of `a` followed by those of `b`. |
| Property24.CoerceNumericQueryValue | app/property24.py:127-149 | The value is unwrapped from an object first. Null, bool, list and object give nothing. An int gives its decimal text exactly when it is positive (exact up to 2**53; see Left out). A string gives its stripped text unless that is blank or "0". A result is never empty and never "0". |
| Property24.CategoryPairs | app/property24.py:160-162 | A `PropertyCategory` pair with the comma-joined categories exactly when there are categories. |
| Property24.QuerySuffix | app/property24.py:164-165 | No query gives no suffix; otherwise the suffix starts with `?`. |
| Property24.StandardPageUrl | app/property24.py:152-166 | The standard URL fails exactly when the listing path fails. |
| Property24.StandardPageUrlShape | app/property24.py:152-166 | The URL is `BASE_URL + path + "/p{page}"`, with the trailing slashes of the path removed, followed by a `?` query exactly when there are categories. |
| Property24.PricePair | app/property24.py:180-183 | A `pf`/`pt` pair appears exactly when the coerced price is present, and it carries that value. |
| Property24.SpPairs | app/property24.py:178-183 | `s=` with the comma-joined ids comes first, then `pf` and `pt` when present. |
| Property24.AdvancedQuery | app/property24.py:185-192 | `sp` comes first, then `PropertyCategory` when there are categories, then `Page` exactly when `page > 1`. |
| Property24.AdvancedQueryPage | app/property24.py:191-192 | The last pair is `("Page", str(page))` exactly when `page > 1`. |
| Property24.AdvancedSearchUrl | app/property24.py:169-196 | An error exactly when no location id survives. Otherwise the advanced-search path followed by the URL-encoded query. |
| Property24.ListingPageUrl | app/property24.py:199-204 | More than one object entry gives the advanced URL; otherwise the standard URL. |
| Property24.PageUrlFailureIsPageIndependent | app/property24.py:199-204 | Whether a page URL can be built does not depend on the page number. |
| Property24.Selected | app/property24.py:211-216 | A URL is selected iff some link's number is accepted (any number when the valid set is empty) and the URL is `BASE_URL` plus the link's path. |
| Property24.ExtractListingUrls | app/property24.py:207-219 | The selected URLs without duplicates, in first-seen order; nothing else. |
| Property24.TotalPages | app/property24.py:233 | At least one page. For `count > 0`, `ceil(count / 20)` pages, computed exactly (the source divides in floating point; see Left out); counts up to 20 need one page. |
| Property24.PageCountExamples | app/property24.py:233 | Counts 0, 2 and 20 need one page; 21 needs two; 45 needs three. |
| Property24.SeenNumbersMembers | app/property24.py:252-253 | The seen set is the union of the listing numbers of the pages fetched so far. |
| Property24.HarvestMembers | app/property24.py:251-257 | A URL is harvested iff some page has a link accepted by that page's filter. The filter is the page's own number set, or the cumulative seen set when the page has none. |
| Property24.NothingRequestedBeforeFailure | app/property24.py:243-244 | When the first page URL cannot be built, no request is made. |
| Property24.AllRequestedAnswer | app/property24.py:243-249 | Requests made in page order that were all answered mean that every page up to that number was answered. |
| Property24.FetchPage | app/property24.py:243-257 | One page of the loop: it fails exactly when the page URL cannot be built (nothing is requested) or the request fails (the request is the last one made). Otherwise the page is requested next, and the seen set and URL list grow to cover it. |
| Property24.FetchPages | app/property24.py:239-257 | Pages are requested in order from 1. The result is a list exactly when every page answers; it is then the de-duplicated harvest of all pages. A failed request is the last one made, and every page before it answered. |
| Property24.FetchListingUrls | app/property24.py:222-270 | A negative count fails before any request. Otherwise at most `TotalPages(count)` requests in page order. On success, all those pages were requested and the result has no duplicates. A page-URL failure happens before any request. |
| UrlEncode.PercentBytes | app/property24.py:164 | Each byte becomes `%` and its two upper-case hex digits, high digit first, in byte order. |
| UrlEncode.QuoteChar | app/property24.py:164 | An unreserved character is kept and a space becomes `+`. Any other character becomes the `%XX` escapes of its UTF-8 bytes, three characters per byte, in order. |
| UrlEncode.QuotePlus | app/property24.py:164 | The output holds only unreserved characters, `+` and `%`. Unreserved text is kept unchanged, and a single character is encoded as `QuoteChar` encodes it. |
| UrlEncode.QuotePlusConcat | app/property24.py:164 | Encoding a concatenation is concatenating the encodings. Together with the single-character case, every character is escaped on its own. |
| UrlEncode.Encode | app/property24.py:164 | No pairs give `""`. Otherwise the query splits at `&` into one piece per pair, in order, and each piece splits at `=` into the quoted key and the quoted value. |
| UrlEncode.CommaIsEscaped | app/property24.py:162-164 | Encoding a comma-joined list of plain names gives the names joined by `%2C`. |
| ListingFiles.ReadUrls | app/property24.py:273-278 | A missing file reads as no URLs. Every URL read is stripped, non-blank and single-line. A one-line file reads as that line stripped, or as nothing when it is blank. |
| ListingFiles.WriteUrls | app/property24.py:281-287 | The file holds the URLs one per line, each line terminated, and is empty for no URLs; no other file changes. |
| ListingFiles.ReadWriteRoundTrip | app/property24.py:273-287 | Reading back what was written gives the URLs exactly, for non-blank, stripped, single-line URLs. |
| ListingFiles.ReadUrlsClean | app/property24.py:273-278 | A read yields only stripped, non-blank, single-line URLs, so rewriting them and reading again gives the same list. |
| ListingFiles.RecordNewUrls | app/property24.py:307-318 | The URLs reported new are exactly those of `urls` that the listing file did not hold, each as often as in `urls`. |
| ListingFiles.Record | app/property24.py:307-325 | The listing file becomes `urls`. The old list goes to the previous file only when it is non-empty; otherwise an existing file is emptied and a missing one is not created. The new file follows the same rule. No other file changes. |
| ListingFiles.FirstRecord | app/property24.py:307-325 | On the first record every URL is new and no previous file is created. |
| ListingFiles.SecondRecord | app/property24.py:307-325 | A second record reports the second list minus the first, the previous file reads back as the first list, and the listing file as the second. |
| ListingFiles.RecordAgreesWithStore | app/property24.py:318 | The tracker and `update_current_listings` report the same new URLs when they start from the same listing. |
| Monitor.ParseCount | app/main.py:102-106 | `int(data["count"])`: nothing when the body is not an object or has no `count`; otherwise what `int()` gives for the value. |
| Monitor.FetchPropertyCountAsWritten | app/main.py:83-106 | As written: a failure to send the request, or to wait for or read the answer, raises something other than `RuntimeError`. An undecodable body and a missing or unconvertible count give `RuntimeError`. Otherwise the result is the count. |
| Monitor.FetchPropertyCount | app/main.py:96-106 | Corrected: every failure is a `RuntimeError`, and the fetch succeeds exactly when the body carries a count. |
| Monitor.TransportErrorEscapes | app/main.py:89-100 | As written, a failed `POST` is not turned into the `RuntimeError` that the loop retries on. This holds whether sending the request failed or waiting for or reading the answer failed. |
| Monitor.EveryCountFailureIsRetried | app/main.py:134-139 | With the correction every failure is retried, and every count the original accepts is accepted unchanged. |
| Monitor.CountOfObject | app/main.py:103 | `{"count": n}` and `{"count": "n"}` both give `n`. |
| Monitor.HeaderReadsBack | app/main.py:184-189 | The header is "New property added in ", then the location, then ". Count: ", then the count, and the count parses back from its tail. |
| Monitor.MessageLines | app/main.py:184-198 | The header comes first. With new URLs it is followed by "New listings:", the first ten URLs in order, and "...and k more" exactly when `k = len - 10 > 0`. |
| Monitor.ComposeMessage | app/main.py:184-200 | The message opens with the header line. It is just the header when there is no new URL, and a line break follows the header when there is one. |
| Monitor.MessageSplitsIntoLines | app/main.py:200 | For single-line location and URLs, splitting the message at newlines gives back exactly the lines. |
| Monitor.ChannelFor | app/main.py:40-54 | The method selects ntfy or Telegram iff its lower-cased form is "ntfy" or "telegram". |
| Monitor.SendNotification | app/main.py:38-63 | An unknown method sends nothing and does not raise. A known method delivers the message on its channel, or raises when the sender raises. |
| Monitor.MethodCaseIsIgnored | app/main.py:40 | "NTFY", "Ntfy" and "Telegram" select their channel; "email" selects none. |
| Monitor.StartMonitor | app/main.py:115-118 | The loop starts from the stored count, and reading it rewrites nothing when it parses. |
| Monitor.Notify | app/main.py:183-207 | A message is handed over only on an increase; it is the composed message, on the configured channel. An increase with a known method and a working sender always delivers. A sender failure is swallowed. |
| Monitor.Cycle | app/main.py:134-214 | With the corrected count fetch (see Findings): a failed count fetch changes nothing and skips the single-shot check. An unchanged count does nothing. A changed count is stored before anything else, and the pages for that count are requested in order. Only a negative count or a failed transaction escapes. A failed listing fetch leaves no new URLs and skips recording. When every page answers, pages 1..n are all requested, the de-duplicated harvest becomes `current`, the old `current` becomes `previous`, and `new` holds the fetched URLs the old `current` lacked, in fetched order. `previous_count` becomes the new count. |
| Monitor.Refresh | app/main.py:149-209 | Once the count has changed: the new count is stored first, and pages are requested in order, at most `TotalPages(count)` of them. A negative count escapes before any request. When every page answers, all pages are requested, the de-duplicated harvest becomes `current`, and the new URLs are its URLs the old `current` lacked. Otherwise there are no new URLs and only the count changes. The notification sees the new URLs. |
| Monitor.Conclude | app/main.py:164-209 | A complete fetch is recorded as `current`, with the old `current` as `previous`. The new URLs are the fetched ones the old `current` lacked, in fetched order, and `new` holds them. A failed fetch changes only the count. Only an aborted transaction escapes. The notification sees the new URLs. |
| Monitor.TwoNewListingsAnnounced | app/main.py:183-202 | An increase from 10 to 12 with two new URLs sends the header, "New listings:" and both URLs over Telegram. |
| Monitor.TwoNewListingsScenario | app/main.py:162-202 | Two listings appended to the `current` snapshot are reported as exactly those two new ones, and the message names both. |
| LegacyMonitor.ReadPreviousCount | src/main.py:80-99 | A readable file is kept and its stripped text's integer is returned. A missing, blank or non-integer file reads 0 and becomes "0\n". Afterwards the file always holds the returned count. |
| LegacyMonitor.WriteCount | src/main.py:102-105 | The file is exactly the count's decimal text followed by one newline, and it parses back to the count. |
| LegacyMonitor.WriteReadRoundTrip | src/main.py:83-105 | `read_previous_count` after `write_count(v)` returns `v` and writes nothing. |
| LegacyMonitor.ReadIsIdempotent | src/main.py:80-99 | A second read finds what the first left and changes nothing. |
| LegacyMonitor.FetchCountAsWritten | src/main.py:122-131 | As written: a `URLError` and a missing or unconvertible count become `RuntimeError`. A timeout or reset while the answer is awaited or read escapes unchanged, and a body that is not JSON raises a `ValueError`. |
| LegacyMonitor.FetchCount | src/main.py:122-131 | Corrected: every failure is a `RuntimeError`; the fetch succeeds exactly when the body carries a count. |
| LegacyMonitor.DecodeErrorEscapes | src/main.py:122-126 | As written, a body that is not JSON is not a `RuntimeError`. |
| LegacyMonitor.ReplyFailureEscapes | src/main.py:122-126 | As written, a timeout or reset while the answer is awaited or read is not a `RuntimeError`. |
| LegacyMonitor.EveryFetchFailureIsRetried | src/main.py:176-181 | With the correction every failure is retried, and the original's successes are kept with the same count. |
| LegacyMonitor.StartLegacy | src/main.py:167 | The loop starts from the count read from the file, and the file holds it. |
| LegacyMonitor.LegacyCycle | src/main.py:176-211 | With the corrected fetch (see Findings): a failed fetch changes nothing and skips the single-shot check. An unchanged count writes and sends nothing. A change is written to the file and becomes the previous count. A message goes out exactly on an increase, and its text is "New property added in {loc}. Count: {n}". The loop ends by an exception exactly when that send raises. |
| LegacyMonitor.RunLegacy | src/main.py:175-213 | Rounds whose fetch fails leave the state as it was. A run can end by an exception only when some round's send raises. |
| LegacyMonitor.CyclePreservesSync | src/main.py:183-206 | Each iteration keeps the file and the in-memory count in agreement. |
| LegacyMonitor.RunKeepsSync | src/main.py:167-213 | Over any run of iterations the file keeps holding the count the loop compares against, so a restart resumes from the same count. |
| LegacyMonitor.FailedSendIsNotRepeated | src/main.py:183-197 | When `send_message` raises, the new count is already in the file, so after a restart the same answer is no change and that increase is never announced. |
| ChatId.ContainerChats | app/util/chat_id.py:27-31 | One key contributes its chat when both the container and its `chat` are objects, and nothing otherwise. |
| ChatId.ContainerChatsConcat | app/util/chat_id.py:27-31 | Keys are scanned in order: the chats of `a + b` are those of `a` followed by those of `b`. |
| ChatId.ContainerChatsMembers | app/util/chat_id.py:27-31 | A chat is taken from a container iff the container and its `chat` are both objects. |
| ChatId.CallbackChat | app/util/chat_id.py:43-44 | A `callback_query` that is not an object contributes nothing. In one that is, a missing `message`, or a missing `chat` in an object `message`, gives the empty chat `{}`. A `message` or `chat` that is present but not an object raises. An object `chat` is the one collected. |
| ChatId.UpdateChats | app/util/chat_id.py:26-54 | An update that is not an object raises, and so does a malformed callback query. Otherwise the chats are those of the containers in key order, followed by the callback chat; at most five. |
| ChatId.UpdateChatsInKeyOrder | app/util/chat_id.py:26-54 | The chats of an update are those of `message`, `edited_message`, `channel_post` and `my_chat_member`, each when present, and then the callback query's. |
| ChatId.UpdateChatsMembers | app/util/chat_id.py:26-54 | The chats of an update are exactly those of the recognised containers and of the callback query. |
| ChatId.ChatsOfSucceeds | app/util/chat_id.py:26 | The scan succeeds iff every update can be scanned. |
| ChatId.AddChats | app/util/chat_id.py:33-54 | The scan fails iff some chat id is unhashable. Records already collected stay first and unchanged, and the ids stay pairwise distinct. |
| ChatId.ExtractChatRecords | app/util/chat_id.py:18-55 | Fails iff some update cannot be scanned or some id is unhashable, in particular when an update is not an object. Ids in the result are pairwise distinct. |
| ChatId.FirstsKnown | app/util/chat_id.py:33 | An id is in the first-appearance list iff some earlier chat has an equal id (with `True == 1`). |
| ChatId.ExtractIsFirsts | app/util/chat_id.py:18-55 | The result equals the reference list: the first chat for each id, in order of first appearance, skipping null ids. |
| ChatId.ExtractCompleteAndFirstWins | app/util/chat_id.py:26-55 | Every non-null id found appears in the result, and each record is built from the first chat with that id. |
| ChatId.FullName | app/util/chat_id.py:100-106 | Both non-empty names give `first + " " + last`; only one gives that name; neither gives `""`. The join raises exactly when a kept name is not a string. |
| ChatId.DisplayName | app/util/chat_id.py:98-106 | A truthy title is the name. Failing that, a truthy username. Failing both, the joined first and last names. There is no name when neither of those is truthy, and the join raises when a truthy one is not a string. |
| ChatId.LabelParts | app/util/chat_id.py:94-108 | Two or three parts: `id=` with the id, then `type=` with the type or `unknown`, then the name when there is one. |
| ChatId.ChatLabel | app/util/chat_id.py:110 | " - " followed by the parts joined with ", ". |
| ChatId.TitleIsPreferred | app/util/chat_id.py:98 | A truthy title is the name shown. |
| ChatId.UsernameWithoutTitle | app/util/chat_id.py:98 | Without a title, a truthy username is the name shown. |
| ChatId.FullNameWithoutTitleOrUsername | app/util/chat_id.py:99-108 | Without a title or username, the label exists iff every truthy name is a string. The name is the two truthy names joined by a space, or the one truthy name. With neither truthy, there is no name part. |
| ChatId.NoNameGivesTwoParts | app/util/chat_id.py:107-108 | With no name at all, the label has only its id and type parts. |
| Config.CoercePathValue | app/config.py:19-25 | `None` gives the default. A `Path` is kept. Text is stripped, and blank text gives the default. |
| Config.CoercePathIdempotent | app/config.py:19-25 | Coercing the text of a coerced path gives the same path when the default has no surrounding white space. |
| Config.EnforcePollInterval | app/config.py:76-86 | The interval is `max(value, 10)`: below 10 it becomes 10; otherwise it is unchanged. |
| Config.EnforcePollIntervalLaws | app/config.py:76-86 | Enforcing twice is enforcing once, and the enforcement keeps order. |
| Config.NormaliseLogLevel | app/config.py:88-91 | Same length; each ASCII lower-case letter becomes its own capital, and every other character is kept. |
| Config.NormaliseLogLevelIdempotent | app/config.py:88-91 | Normalising twice is normalising once. |
| Config.BuildSettings | app/config.py:39-91 | An absent value takes the field's default. A present path is the result of `CoercePathValue`, a present interval that of `EnforcePollInterval`, and a present level that of `NormaliseLogLevel`; a present location and `run_once` are kept. The interval is at least 10 and the level has no lower-case letter. |
| Config.AllDefaults | app/config.py:12-15 | The defaults are `count.txt`, `data/payload.json`, 60, `Stellenbosch`, single-shot off and `INFO`. |
| Config.DefaultsAreValid | app/config.py:12-15 | The default interval and level pass their validators unchanged. |
| Config.DefaultCountFileIsValid | app/config.py:41-44 | The default count file passes its validator unchanged. |
| Config.DefaultPayloadFileIsValid | app/config.py:45-48 | The default payload file passes its validator unchanged. |
| Config.LogLevelExamples | app/config.py:88-91 | "debug" becomes "DEBUG" and "Warning" becomes "WARNING". |

## Left out

- Network I/O is not modelled:
  - the `requests`/`urllib` calls of the count fetch, the page fetch and the senders;
  - the ntfy and Telegram senders themselves (app/telegram.py, app/ntfy.py).
  
  Their outcomes are inputs, and the sender is reduced to "raises or not".
- Regular expressions over raw HTML are not modelled. Each page is given as its listing-number set and its `(number, path)` link matches.
- DuckDB SQL, connections and file creation (`_connect`, `ensure_file`) are not modelled. The store is a value, and re-opening a file gives the same value.
- Metrics, the HTTP server and logging are not modelled. They change no state that the loop reads.
- Sleeping and timers are not modelled. The loop is given one iteration at a time, and a run of iterations is a sequence of replies.
- `KeyboardInterrupt` handling is not modelled.
- Environment and `.env` parsing by pydantic-settings is not modelled. Each setting is given as present or absent.
- The settings `app/main.py` reads but `app/config.py` does not define (`state_file`, `notification_method`, `ntfy_server`, the Telegram credentials) are not modelled as settings. The location, method and single-shot flag are plain parameters.
- `Config.CoercePathValue`: `Path` normalisation (collapsing `//`, dropping `.`) is not modelled. A path is kept as the text it was built from.
- `Config.NormaliseLogLevel`: only ASCII letters are upper-cased, because Unicode case mapping is not modelled.
- `Property24.CoerceNumericQueryValue`: the float branch (`math.isfinite`, `is_integer`) is not modelled, because floating point is not part of the model. JSON numbers are integers here.
- CoerceNumericQueryValue: an int is written out exactly. The source goes through `float(data)`, which rounds ints above 2**53 (2**53 + 1 gives "9007199254740992") and raises `OverflowError` beyond the float range. The model is exact only up to 2**53.
- TotalPages: `math.ceil(count / 20)` divides in floating point, so counts far above 2**53 can give a different page count, and counts beyond the float range raise `OverflowError`. The model computes the exact ceiling, which agrees with the source for counts up to 2**53.
- Monitor.Cycle: models the loop with the corrected count fetch `Monitor.FetchPropertyCount`. As written, a connection error or timeout of the `POST` (app/main.py:89) is not a `RuntimeError` and stops the monitor; `Monitor.TransportErrorEscapes` states that case.
- LegacyMonitor.LegacyCycle: models the loop with the corrected fetch `LegacyMonitor.FetchCount`. As written, two failures stop the loop instead of being retried:
  - a reply body that is not JSON (src/main.py:124) raises `ValueError`, as `LegacyMonitor.DecodeErrorEscapes` states;
  - a timeout or reset while the answer is awaited or read escapes, as `LegacyMonitor.ReplyFailureEscapes` states.
- `Json.EscapeChar`: `repr` escapes the characters Python cannot print. Below U+0100 the model escapes the same ones (the controls, DEL, no-break space and soft hyphen). Above U+00FF it prints every character as it is, whereas Python writes the non-printable ones (line and paragraph separators, format characters, unassigned code points) as `\uXXXX` or `\UXXXXXXXX`, because the Unicode character database is not modelled.
- `Text.ParseInt` accepts ASCII digits only, with an optional sign, single underscores between digits and surrounding white space. Python's `int()` also accepts non-ASCII decimal digits; those are not modelled.
- `Text.Lower` maps the ASCII capitals and the two non-ASCII characters whose lower-case form contains an ASCII letter (the Kelvin sign and capital I with dot above). It keeps every other character. That is exact wherever the result is only compared with ASCII text or filtered down to ASCII letters and digits, which is how this model uses it.
- JSON objects with duplicate keys are not modelled: a lookup takes the first field with the key.
- `_write_urls` creates parent directories; that is not modelled.
- The debug log line for fewer URLs than the count (`app/property24.py:259-265`) is not modelled. Returning fewer URLs than the count is not an error.
- The `main` function of `app/util/chat_id.py` is not modelled beyond its label lines: reading the token, calling `getUpdates` and printing.
- The Telegram `send_message` of `src/main.py` is reduced to whether it raises. A `URLError` only changes a log line. Any other failure, such as a timeout or reset while the answer is read, ends the loop (`LegacyMonitor.LegacyCycle`).
- ListingPathSegments: the split into segments is stated only for ids whose text holds no `/`. The source puts the id into the path as it is, so an id holding a `/` adds segments.
- The Playwright payload extractor (app/util/url_to_payload.py) is not part of this model.

## Findings

| source | as written | input that shows it | evidently intended | confidence | as-written member | corrected member |
|---|---|---|---|---|---|---|
| app/main.py:89-100 | `requests.post` is called before the `try`, so a connection error or timeout propagates as a `requests` exception. The loop only catches `RuntimeError` (app/main.py:134-139), so the monitor stops. | The counter endpoint is unreachable or times out during one poll. | Every count-fetch failure becomes a `RuntimeError` and is retried at the next poll, as the decoding failure already is. | medium; not executed | Monitor.FetchPropertyCountAsWritten (shown by Monitor.TransportErrorEscapes) | Monitor.FetchPropertyCount (Monitor.EveryCountFailureIsRetried; used by Monitor.Cycle) |
| src/main.py:122-131 | The first `try` catches only `URLError`. The opener raises `URLError` only when the request cannot be sent; waiting for the answer (`getresponse`) and reading the body (`json.load`) are not wrapped. A body that is not JSON raises `ValueError`, and a read timeout or a connection reset raises `TimeoutError` or `ConnectionResetError`. None of these is a `RuntimeError`, so the loop at src/main.py:176-181 stops. | The counter replies with status 200 and an HTML or empty body, or stalls for more than 20 seconds after accepting the request. | Every failure of the count fetch is reported as `RuntimeError` and retried, like a missing count. | medium; not executed | LegacyMonitor.FetchCountAsWritten (shown by LegacyMonitor.DecodeErrorEscapes and LegacyMonitor.ReplyFailureEscapes) | LegacyMonitor.FetchCount (LegacyMonitor.EveryFetchFailureIsRetried; used by LegacyMonitor.LegacyCycle) |
