# XRSS feed pipeline: a Dafny model

This project models the fetch, cache and translate pipeline of XRSS in `feeds/views.py`.
A feed URL names a subreddit RSS feed. Its category (`LifeProTips` in
`https://www.reddit.com/r/LifeProTips.rss`) keys a JSON config file `Data/<category>.json`.
That file holds the last `Last-Modified`/`ETag` validators and the cached, translated posts.

`get_feed_data` works in this order:
1. It loads the file. A non-empty cached post dictionary is returned at once.
2. Otherwise it sends a conditional GET.
3. An empty body (a 304, or empty text) returns `{}`.
4. Otherwise it parses the feed. It translates every string title to `zh-CN`, best effort.
5. It formats every item time as `YYYY/MM/DD HH:MM:SS` and stores the list under one label.
   The label is `r/<feed category>`, or `N/A` when the feed has no category.
6. It saves the file and returns the dictionary.

`get_all_feeds` runs one sync per URL. It merges the successful results with `dict.update`
in URL order and skips the syncs that raised.

Modules, one per component of the file:
- `FeedCategory`: the regular expression and the config path.
- `ConfigStore`: `load_config` and `save_config`, as a class whose `files` map is the config directory.
- `ConditionalFetch`: the request headers and the 304 decision.
- `Timestamp`: the date format.
- `FeedSync`: `get_feed_data`.
- `FeedAggregate`: `get_all_feeds`.
- `Wrappers` and `FeedTypes`: shared values.

The model takes these collaborators as parameters of an `Env`:
- The HTTP exchange is a function from URL and request headers to a response, or to `None` when the request fails.
- The feed parser is a total function from text to a parsed feed.
- The translator is a function from text and language to the translation, or to `None` when googletrans raises.

In these points the code's behaviour is easy to misread; the model follows the code:
- Any status other than 304 counts as a response. A 404 or 429 body is handed to the parser like a 200 body; it is not a failure.
- `feedparser.parse` does not raise. Apart from an entry missing an attribute (see Left out), the only parse-time failure is an item time that `fromisoformat` rejects. It aborts the sync after every title up to and including that item's was translated, and nothing is saved.
- A missing config file yields the integer `0` for both validators, not an absent value. `0` is falsy, so no conditional header is sent (`UntruthyValidatorsSendNothing`).
- The merge is not ordered by completion. `asyncio.gather` returns results in URL order, so on a shared label the later URL in the list wins.
- Concurrency is modelled from the event loop's order. `gather` starts the tasks in URL order. Each task runs `load_config` before its first suspension, the HTTP request. So every sync loads from the directory as it was before any of them saved. The model therefore loads all URLs first (`LoadAll`) and then finishes each sync (`ResumeAll`). Each sync's result then depends only on the initial directory.

`NextSyncHitsCache` (and `NextAggregateHitsCache` for `get_all_feeds`) shows a consequence of the cache check. Every file the code writes has a non-empty post dictionary, so after one successful fetch the feed is never requested again. The conditional headers only come into play for files the code did not write itself.

## Model

| member | source | states |
|---|---|---|
| `FeedCategory.LongestCapture` | feeds/views.py:26-27 | the greedy group ends at the largest position at which `\.rss` can follow, and at no larger one |
| `FeedCategory.Category` | feeds/views.py:24-28 | success exactly when the anchored pattern can match; the category is then a non-empty possible group value, and no possible group value is longer (greedy); otherwise `BadFeedUrl` |
| `FeedCategory.CategoryIsLongestCapture` | feeds/views.py:26-28 | a possible group with no longer alternative is the category |
| `FeedCategory.CategoryOfFeedUrl` | feeds/views.py:24-28 | `https://www.reddit.com/r/` + c + `.rss` + a dot-free tail has category c, for any non-empty c without a newline |
| `FeedCategory.LifeProTipsCategory` | feeds/views.py:24-28 | `https://www.reddit.com/r/LifeProTips.rss` has category `LifeProTips` |
| `FeedCategory.CategoryRunsToLastSuffix` | feeds/views.py:26-27 | with `.rss` twice, the category runs to the last one (`a.rss`) |
| `FeedCategory.CategoryAcceptsOtherHostCharacters` | feeds/views.py:26-27 | the unescaped dots of the host match other characters (`wwwXredditYcom`) |
| `FeedCategory.ConfigPath` | feeds/views.py:31-33 | the path exists exactly when the category does and is `Data/<category>.json` |
| `FeedCategory.ConfigPathInjective` | feeds/views.py:31-33 | for any two URLs, the config paths are equal exactly when the categories are (both failing counts as equal) |
| `ConfigStore.LoadConfig` | feeds/views.py:36-50 | fails exactly on a URL without category (`BadFeedUrl`) or an unreadable file for it (`MalformedRecord`) |
| `ConfigStore.SaveConfig` | feeds/views.py:53-63 | succeeds exactly when the URL has a category (else `BadFeedUrl`); the directory then gains that category's path, which holds all three keys with the given values, and every other file is unchanged |
| `ConfigStore.Store.Load` | feeds/views.py:36-50 | reads the directory as `LoadConfig` specifies |
| `ConfigStore.Store.Save` | feeds/views.py:53-63 | replaces the whole file for the URL's category and nothing else; fails, changing nothing, on a URL without category |
| `ConfigStore.LoadWithoutRecord` | feeds/views.py:40-42 | no file: empty post dictionary and validators `(0, 0)` |
| `ConfigStore.LoadMissingKeys` | feeds/views.py:44-50 | in a readable file each key is read on its own: a missing validator reads as `None`, a missing post dictionary as `{}`, a present key as its stored value |
| `ConfigStore.BadUrlFailsStore` | feeds/views.py:31-37 | a URL without category fails both load and save |
| `ConfigStore.LoadAfterSave` | feeds/views.py:36-63 | loading after a save returns exactly the saved post dictionary and validators |
| `ConfigStore.SaveLeavesOtherCategories` | feeds/views.py:53-63 | a save leaves what every URL of another category, or of none, loads unchanged |
| `ConditionalFetch.OfHeader` | feeds/views.py:81-82 | a missing response header reads as `None`, a present one as its string |
| `ConditionalFetch.ConditionalHeaders` | feeds/views.py:68-72 | `If-Modified-Since` present exactly when `last_modified` is truthy, `If-None-Match` exactly when `etag` is, with those values, and no other header |
| `ConditionalFetch.Fetch` | feeds/views.py:66-86 | fails (`NetworkFailure`) exactly when the request with the conditional headers fails; a 304 yields empty data and the request's own validators |
| `ConditionalFetch.FetchFeedData` | feeds/views.py:66-86 | building the headers step by step and branching on the status yields `Fetch` |
| `ConditionalFetch.UntruthyValidatorsSendNothing` | feeds/views.py:68-72 | the `0` placeholders, `None` and empty strings send no header at all |
| `ConditionalFetch.NotModifiedPassesValidators` | feeds/views.py:77-78 | a 304 yields empty data and the request's validators unchanged |
| `ConditionalFetch.OtherStatusTakesResponse` | feeds/views.py:80-86 | any other status yields the body and the response's own, possibly absent, validators |
| `ConditionalFetch.FetchFailsOnlyOnTransport` | feeds/views.py:74-86 | the fetch fails exactly when the request fails below HTTP |
| `Timestamp.Digits` | feeds/views.py:126 | a zero-padded field has exactly the given width and only decimal digits |
| `Timestamp.DigitsRoundTrip` | feeds/views.py:126 | reading a zero-padded field back gives the number when it fits the width |
| `Timestamp.Format` | feeds/views.py:126 | 19 characters with `/`, `/`, space, `:`, `:` at positions 4, 7, 10, 13, 16 |
| `Timestamp.FieldOfDigits` | feeds/views.py:126 | each field of a formatted time reads back as its number |
| `Timestamp.FormatRoundTrip` | feeds/views.py:125-126 | the formatted time parses back to the same date-time, so the format loses no field |
| `Timestamp.FormatExample` | feeds/views.py:125-126 | 2024-01-05 13:04:05 is written `2024/01/05 13:04:05` |
| `FeedSync.FeedLabel` | feeds/views.py:108-111 | `r/` followed by the feed's category when it has one, `N/A` otherwise |
| `FeedSync.TranslatedTitle` | feeds/views.py:114-123 | a string title stays a string and anything else stays as it was; a string title becomes the translator's answer when translation succeeds and stays the original when it fails; any other title is kept |
| `FeedSync.EntryOf` | feeds/views.py:114-127 | an entry exists exactly when the item time is readable; it then carries the item's link, a 19-character time, and a title of the item title's kind |
| `FeedSync.BuildEntries` | feeds/views.py:113-127 | entries exist exactly when every item time is readable; then one entry per item, in item order, each the item's own entry |
| `FeedSync.AfterFetch` | feeds/views.py:106-131 | a failure saves nothing; a save goes to the URL's config path and holds the non-empty result with the response's validators |
| `FeedSync.AfterLoad` | feeds/views.py:96-133 | a failure saves nothing; a save happens only after a load with an empty post dictionary, goes to the URL's config path and holds exactly the returned, non-empty dictionary |
| `FeedSync.Sync` | feeds/views.py:89-133 | a failure saves nothing; a save happens only when the config directory holds no cached posts for the URL, and goes to the URL's config path |
| `FeedSync.ResumeFeed` | feeds/views.py:96-133 | cache check, fetch, the entry loop and the save return and store exactly what `AfterLoad` specifies |
| `FeedSync.GetFeedData` | feeds/views.py:89-133 | returns and stores exactly what `Sync` specifies for the directory before the call |
| `FeedSync.CacheHitShortCircuit` | feeds/views.py:93-97 | a non-empty cached dictionary is returned unchanged, nothing is saved, and the outcome does not depend on network, parser or translator |
| `FeedSync.EmptyBodySavesNothing` | feeds/views.py:99-104 | an empty body returns `{}` and saves nothing |
| `FeedSync.NotModifiedLeavesStore` | feeds/views.py:77-104 | a 304 returns `{}` and leaves the config directory as it was |
| `FeedSync.EntryFields` | feeds/views.py:114-127 | the link is copied; the time is formatted and reads back as the item time; the title is translated exactly when it is a string and translation succeeds, otherwise it is the original |
| `FeedSync.BadTimestampFailsSync` | feeds/views.py:113-125 | one unreadable item time fails the sync, and nothing is saved |
| `FeedSync.FreshSyncResult` | feeds/views.py:106-133 | a non-empty body gives exactly one label, `r/<category>` or `N/A`, holding one entry per item in order; the saved file holds that dictionary with the response's validators |
| `FeedSync.NextSyncHitsCache` | feeds/views.py:93-133 | after a sync that saved, the next sync of that URL returns the same dictionary, saves nothing and does not depend on the network |
| `FeedSync.BadUrlFailsSync` | feeds/views.py:89-93 | a URL without category fails before anything is read or written |
| `FeedSync.MalformedRecordFailsSync` | feeds/views.py:44-45 | an unreadable config file fails the sync with `MalformedRecord`, and nothing is saved |
| `FeedSync.NetworkFailureFailsSync` | feeds/views.py:96-101 | with no cached posts, a request that fails below HTTP fails the sync with `NetworkFailure`, and nothing is saved |
| `FeedAggregate.Gather` | feeds/views.py:136-137 | one result per URL |
| `FeedAggregate.SaveAll` | feeds/views.py:136-137 | applying the syncs' saves in sequence removes no file |
| `FeedAggregate.GatherInUrlOrder` | feeds/views.py:136-137 | the i-th gathered result is the i-th URL's sync |
| `FeedAggregate.LoadAll` | feeds/views.py:136-137 | one load per URL, in URL order, all from the same directory |
| `FeedAggregate.ResumeAll` | feeds/views.py:136-137 | finishing the loaded syncs yields the gathered results, all computed from the initial directory, and applies their saves in URL order |
| `FeedAggregate.GetAllFeeds` | feeds/views.py:135-143 | returns the merge of the gathered results; the directory ends with every sync's save applied |
| `FeedAggregate.MergeResults` | feeds/views.py:138-143 | the update loop computes the left fold `Merge` |
| `FeedAggregate.SaveAllFrame` | feeds/views.py:129-137 | a config file that no sync of the URLs writes keeps its presence and its content |
| `FeedAggregate.SaveAllLastSave` | feeds/views.py:129-137 | a config file ends with the content of the last save to it in URL order |
| `FeedAggregate.NextAggregateHitsCache` | feeds/views.py:93-137 | after `get_all_feeds`, the next sync of a URL whose save was the last one to its file returns that URL's gathered result, saves nothing and does not depend on the network |
| `FeedAggregate.Merge` | feeds/views.py:138-143 | when every sync failed the aggregate is empty |
| `FeedAggregate.MergeLabels` | feeds/views.py:138-142 | the aggregate holds exactly the labels of the successful results |
| `FeedAggregate.MergeLastWriterWins` | feeds/views.py:139-141 | on a shared label the last successful result in URL order wins |
| `FeedAggregate.MergeSkipsFailure` | feeds/views.py:139-141 | a failed sync anywhere in the list leaves the aggregate unchanged |

## Left out

- The HTTP transport (aiohttp session, `trust_env`, timeouts) is network I/O. It is the `net` parameter; a failure below HTTP is `None`, one error kind for all.
- googletrans and `asyncio.to_thread` are foreign calls. They are the `translate` parameter, which may fail.
- feedparser's internals are left out: parsing is the total `parse` parameter. An entry without a `title` or `link` attribute, which raises in the code, is not modelled.
- `datetime.fromisoformat` and time zones are library behaviour. An item carries its already decomposed date-time, or `None` when the text is not ISO-8601.
- Timestamp.Format: always pads the year to four digits. With glibc, `%Y` prints years below 1000 without padding; that platform difference is not modelled.
- JSON encoding and the filesystem are left out. This covers directory creation, partial writes and atomic replacement. Every unreadable file, including a non-object JSON value, is `Malformed`. Validators stored as JSON values other than null, a string or `0` are not modelled.
- FeedCategory.ConfigPath: the path is the string `Data/<category>.json`. pathlib's normalisation is not modelled: `//` and `.` segments collapse, and a category starting with `/` replaces the base directory. Under that normalisation, two different categories can name one file; `ConfigPathInjective` is about the strings.
- ConfigStore.LoadConfig: a `post_dict` key holding JSON `null` reads like a missing key (`{}`). In the code that value is `None`. It passes the cache check, and a sync that then fetches a body fails on the assignment at feeds/views.py:129. The code never writes such a file.
- ConfigStore.LoadConfig: a `post_dict` key holding another non-object JSON value is not representable here; the code never writes one. With `[]`, `0` or `""` the cache check at feeds/views.py:96 passes, and a sync that then fetches a body raises at feeds/views.py:129. With a truthy non-dict such as `"x"` or `[1]`, `get_feed_data` returns it and `get_all_feeds` drops it through the `isinstance` test at feeds/views.py:140. Label values that are not lists of entry objects behave the same way.
- The 304 data is the empty tuple `()` in the code and the empty string here. Only its falsiness is used.
- A non-string title is `OtherTitle` with an integer payload. Its actual JSON value is not modelled.
- FeedAggregate.ResumeAll: applies the saves in URL order. In the code they land in completion order, which is not modelled. It only matters for two URLs with the same category; the returned results do not depend on it.
- Dictionaries are maps, so the insertion order of labels in the aggregate is not modelled. The page reads the aggregate by label.
- `async_to_sync`, the event loop, `show_feeds` with its fixed URL list, Django's `render` and all `print` logging are UI and side effects.
