/** `get_feed_data`: one feed's cache check, conditional fetch, parse, translation and save.

    The collaborators are parameters: the HTTP exchange (`net`), the feed parser
    (`parse`, which never fails, as `feedparser.parse` does not) and the translator
    (`translate`, which yields `None` where googletrans raises). */
module FeedSync {
  import opened Wrappers
  import opened FeedTypes
  import opened FeedCategory
  import opened ConfigStore
  import opened ConditionalFetch
  import opened Timestamp

  /** The language every title is translated to. */
  const TargetLanguage: string := "zh-CN"

  /** A parsed item. `updated` is `None` when its text is not an ISO-8601 date-time. */
  datatype RawItem = RawItem(title: Title, updated: Option<Stamp>, link: string)

  /** A parsed feed: its `feed.category`, if it has one, and its entries in document order. */
  datatype ParsedFeed = ParsedFeed(category: Option<string>, items: seq<RawItem>)

  /** Text and target language to the translated text, or `None` when translation raises. */
  type Translator = (string, string) -> Option<string>

  datatype Env = Env(net: Network, parse: string -> ParsedFeed, translate: Translator)

  /** The label of a feed's entries: `"r/" + feed.category`, or `"N/A"` when there is none. */
  function FeedLabel(feed: ParsedFeed): (r: string)
    ensures feed.category.Some? ==> |r| >= 2 && r[..2] == "r/" && r[2..] == feed.category.value
    ensures feed.category.None? ==> r == "N/A"
  {
    match feed.category
    case Some(c) => "r/" + c
    case None => "N/A"
  }

  /** Best-effort translation: only a string title is translated, and a failure keeps it. */
  function TranslatedTitle(title: Title, translate: Translator): (r: Title)
    ensures r.TextTitle? <==> title.TextTitle?
    ensures r != title ==> title.TextTitle? && translate(title.text, TargetLanguage) == Some(r.text)
    ensures title.TextTitle? && translate(title.text, TargetLanguage).None? ==> r == title
    ensures title.TextTitle? && translate(title.text, TargetLanguage).Some? ==>
              r == TextTitle(translate(title.text, TargetLanguage).value)
  {
    match title
    case OtherTitle(_) => title
    case TextTitle(s) =>
      match translate(s, TargetLanguage)
      case Some(t) => TextTitle(t)
      case None => title
  }

  /** The entry built from one item, or `None` when its date-time cannot be read. */
  function EntryOf(item: RawItem, translate: Translator): (r: Option<Entry>)
    ensures r.Some? <==> item.updated.Some?
    ensures r.Some? ==> r.value.link == item.link && |r.value.updated| == 19
    ensures r.Some? ==> (r.value.title.TextTitle? <==> item.title.TextTitle?)
  {
    match item.updated
    case None => None
    case Some(dt) => Some(Entry(TranslatedTitle(item.title, translate), Format(dt), item.link))
  }

  /** The entries of all items in order; `None` as soon as one date-time cannot be read. */
  function BuildEntries(items: seq<RawItem>, translate: Translator): (r: Option<seq<Entry>>)
    ensures r.Some? <==> forall i :: 0 <= i < |items| ==> items[i].updated.Some?
    ensures r.Some? ==> |r.value| == |items|
    ensures r.Some? ==> forall i :: 0 <= i < |items| ==> EntryOf(items[i], translate) == Some(r.value[i])
  {
    if items == [] then Some([])
    else
      match (EntryOf(items[0], translate), BuildEntries(items[1..], translate))
      case (Some(e), Some(es)) =>
        assert forall i :: 1 <= i < |items| ==> items[i] == items[1..][i - 1];
        Some([e] + es)
      case (_, _) =>
        assert forall i :: 1 <= i < |items| ==> items[i] == items[1..][i - 1];
        None
  }

  /** What one sync returns, and the config file it writes, if any (path and content). */
  datatype SyncOutcome = SyncOutcome(result: Result<PostDict, SyncError>, save: Option<(string, StoredFile)>)

  /** The config directory after a sync's save. */
  function Apply(files: map<string, StoredFile>, save: Option<(string, StoredFile)>): map<string, StoredFile> {
    match save
    case None => files
    case Some((path, file)) => files[path := file]
  }

  /** What `get_feed_data` does with a non-empty body: parse it, build the entries under
      the feed's label and save them with the response's validators. */
  function AfterFetch(url: string, data: string, lastModified: Validator, etag: Validator, env: Env): (r: SyncOutcome)
    ensures r.result.Failure? ==> r.save.None?
    ensures r.save.Some? ==> r.result.Success? && r.result.value != map[] && ConfigPath(url) == Success(r.save.value.0)
    ensures r.save.Some? ==> r.save.value.1 == Record(lastModified, etag, r.result.value)
  {
    var feed := env.parse(data);
    match BuildEntries(feed.items, env.translate)
    case None => SyncOutcome(Failure(BadTimestamp), None)
    case Some(entries) =>
      var empty: PostDict := map[];  // the cached dict, empty on this path
      var postDict := empty[FeedLabel(feed) := entries];
      assert FeedLabel(feed) in postDict;
      match ConfigPath(url)
      case Failure(e) => SyncOutcome(Failure(e), None)
      case Success(path) =>
        SyncOutcome(Success(postDict), Some((path, Record(lastModified, etag, postDict))))
  }

  /** Everything `get_feed_data` does after `load_config` returned `loaded`. */
  function AfterLoad(url: string, loaded: Result<Loaded, SyncError>, env: Env): (r: SyncOutcome)
    ensures r.result.Failure? ==> r.save.None?
    ensures r.save.Some? ==> loaded.Success? && loaded.value.postDict == map[]
    ensures r.save.Some? ==> r.result.Success? && r.result.value != map[] && ConfigPath(url) == Success(r.save.value.0)
    ensures r.save.Some? ==> r.save.value.1.Config? && r.save.value.1.postDict == Some(r.result.value)
  {
    match loaded
    case Failure(e) => SyncOutcome(Failure(e), None)
    case Success(cached) =>
      if cached.postDict != map[] then SyncOutcome(Success(cached.postDict), None)
      else
        match Fetch(url, cached.lastModified, cached.etag, env.net)
        case Failure(e) => SyncOutcome(Failure(e), None)
        case Success(fetched) =>
          if fetched.data == "" then SyncOutcome(Success(cached.postDict), None)
          else AfterFetch(url, fetched.data, fetched.lastModified, fetched.etag, env)
  }

  /** `get_feed_data` against the config directory `files`. */
  function Sync(files: map<string, StoredFile>, url: string, env: Env): (r: SyncOutcome)
    ensures r.result.Failure? ==> r.save.None?
    ensures r.save.Some? ==> LoadConfig(files, url).Success? && LoadConfig(files, url).value.postDict == map[]
    ensures r.save.Some? ==> r.result.Success? && ConfigPath(url) == Success(r.save.value.0)
  {
    AfterLoad(url, LoadConfig(files, url), env)
  }

  /** The part of `get_feed_data` after `load_config`: the cache check, the fetch, the
      loop that builds one entry per item, and the save. */
  method ResumeFeed(store: Store, url: string, loaded: Result<Loaded, SyncError>, env: Env)
    returns (r: Result<PostDict, SyncError>)
    modifies store
    ensures r == AfterLoad(url, loaded, env).result
    ensures store.files == Apply(old(store.files), AfterLoad(url, loaded, env).save)
  {
    if loaded.Failure? {
      return Failure(loaded.error);
    }
    var postDict := loaded.value.postDict;
    if postDict != map[] {
      return Success(postDict);
    }
    var fetched := FetchFeedData(url, loaded.value.lastModified, loaded.value.etag, env.net);
    if fetched.Failure? {
      return Failure(fetched.error);
    }
    if fetched.value.data == "" {
      return Success(postDict);
    }
    var feed := env.parse(fetched.value.data);
    var feedLabel := if feed.category.Some? then "r/" + feed.category.value else "N/A";
    var items := feed.items;
    var postList: seq<Entry> := [];
    var i := 0;
    while i < |items|
      invariant 0 <= i <= |items|
      invariant |postList| == i
      invariant forall k :: 0 <= k < i ==> EntryOf(items[k], env.translate) == Some(postList[k])
      invariant store.files == old(store.files)
    {
      var item := items[i];
      var title := item.title;
      if title.TextTitle? {
        var translated := env.translate(title.text, TargetLanguage);
        if translated.Some? {
          title := TextTitle(translated.value);
        }
      }
      if item.updated.None? {
        return Failure(BadTimestamp);
      }
      var formatted := Format(item.updated.value);
      postList := postList + [Entry(title, formatted, item.link)];
      i := i + 1;
    }
    var built := BuildEntries(items, env.translate);
    assert built.Some? && postList == built.value by {
      forall k | 0 <= k < |items| ensures items[k].updated.Some? && postList[k] == built.value[k] {
        assert EntryOf(items[k], env.translate) == Some(postList[k]);
      }
    }
    postDict := postDict[feedLabel := postList];
    var saved := store.Save(url, fetched.value.lastModified, fetched.value.etag, postDict);
    if saved.Failure? {
      return Failure(saved.error);
    }
    r := Success(postDict);
  }

  /** `get_feed_data`: `load_config`, then the rest of the sync. */
  method GetFeedData(store: Store, url: string, env: Env) returns (r: Result<PostDict, SyncError>)
    modifies store
    ensures r == Sync(old(store.files), url, env).result
    ensures store.files == Apply(old(store.files), Sync(old(store.files), url, env).save)
  {
    var loaded := store.Load(url);
    r := ResumeFeed(store, url, loaded, env);
  }

  /** Cache hit: a non-empty cached post dictionary is returned unchanged, nothing is saved,
      and the outcome is the same whatever the network, parser and translator do. */
  lemma CacheHitShortCircuit(files: map<string, StoredFile>, url: string, env: Env, other: Env)
    requires LoadConfig(files, url).Success? && LoadConfig(files, url).value.postDict != map[]
    ensures Sync(files, url, env) == SyncOutcome(Success(LoadConfig(files, url).value.postDict), None)
    ensures Sync(files, url, env) == Sync(files, url, other)
  {
  }

  /** An empty body (a 304, or any response with empty text) returns `{}` and saves nothing. */
  lemma EmptyBodySavesNothing(files: map<string, StoredFile>, url: string, env: Env)
    requires LoadConfig(files, url).Success? && LoadConfig(files, url).value.postDict == map[]
    requires var cached := LoadConfig(files, url).value;
             Fetch(url, cached.lastModified, cached.etag, env.net).Success? &&
             Fetch(url, cached.lastModified, cached.etag, env.net).value.data == ""
    ensures Sync(files, url, env) == SyncOutcome(Success(map[]), None)
  {
  }

  /** A 304 leaves the config directory as it was and returns `{}`. */
  lemma {:induction false} NotModifiedLeavesStore(files: map<string, StoredFile>, url: string, env: Env)
    requires LoadConfig(files, url).Success? && LoadConfig(files, url).value.postDict == map[]
    requires var cached := LoadConfig(files, url).value;
             var resp := env.net(url, ConditionalHeaders(cached.lastModified, cached.etag));
             resp.Some? && resp.value.status == 304
    ensures Sync(files, url, env).result == Success(map[])
    ensures Apply(files, Sync(files, url, env).save) == files
  {
    var cached := LoadConfig(files, url).value;
    NotModifiedPassesValidators(url, cached.lastModified, cached.etag, env.net);
    EmptyBodySavesNothing(files, url, env);
  }

  /** An entry carries the item's link unchanged and its date-time in the fixed pattern
      (which reads back as that date-time); its title is the translation exactly when the
      original is a string and translation succeeds, and the original title otherwise. */
  lemma {:induction false} EntryFields(item: RawItem, translate: Translator)
    requires item.updated.Some?
    ensures var e := EntryOf(item, translate).value;
            && e.link == item.link
            && e.updated == Format(item.updated.value)
            && Parse(e.updated) == Some(item.updated.value)
            && (if item.title.TextTitle? && translate(item.title.text, TargetLanguage).Some?
                then e.title == TextTitle(translate(item.title.text, TargetLanguage).value)
                else e.title == item.title)
  {
    FormatRoundTrip(item.updated.value);
  }

  /** A feed with an item whose date-time cannot be read fails the sync and saves nothing. */
  lemma {:induction false} BadTimestampFailsSync(files: map<string, StoredFile>, url: string, env: Env, k: nat)
    requires LoadConfig(files, url).Success? && LoadConfig(files, url).value.postDict == map[]
    requires var cached := LoadConfig(files, url).value;
             var fetched := Fetch(url, cached.lastModified, cached.etag, env.net);
             && fetched.Success? && fetched.value.data != ""
             && k < |env.parse(fetched.value.data).items|
             && env.parse(fetched.value.data).items[k].updated.None?
    ensures Sync(files, url, env) == SyncOutcome(Failure(BadTimestamp), None)
  {
    var cached := LoadConfig(files, url).value;
    var fetched := Fetch(url, cached.lastModified, cached.etag, env.net).value;
    var items := env.parse(fetched.data).items;
    assert BuildEntries(items, env.translate).None? by {
      assert !items[k].updated.Some?;
    }
  }

  /** A fresh sync with a non-empty body: the result has exactly one label, `"r/" + category`
      or `"N/A"`, holding one entry per parsed item in document order, and the file saved holds
      that dictionary with the response's validators. */
  lemma {:induction false} FreshSyncResult(files: map<string, StoredFile>, url: string, env: Env)
    requires LoadConfig(files, url).Success? && LoadConfig(files, url).value.postDict == map[]
    requires var cached := LoadConfig(files, url).value;
             var fetched := Fetch(url, cached.lastModified, cached.etag, env.net);
             && fetched.Success? && fetched.value.data != ""
             && forall i :: 0 <= i < |env.parse(fetched.value.data).items| ==>
                  env.parse(fetched.value.data).items[i].updated.Some?
    ensures var cached := LoadConfig(files, url).value;
            var fetched := Fetch(url, cached.lastModified, cached.etag, env.net).value;
            var feed := env.parse(fetched.data);
            var outcome := Sync(files, url, env);
            && outcome.result.Success?
            && outcome.result.value.Keys == {FeedLabel(feed)}
            && (feed.category.Some? ==> FeedLabel(feed) == "r/" + feed.category.value)
            && (feed.category.None? ==> FeedLabel(feed) == "N/A")
            && |outcome.result.value[FeedLabel(feed)]| == |feed.items|
            && (forall i :: 0 <= i < |feed.items| ==>
                  EntryOf(feed.items[i], env.translate) == Some(outcome.result.value[FeedLabel(feed)][i]))
            && outcome.save == Some((ConfigPath(url).value, Record(fetched.lastModified, fetched.etag, outcome.result.value)))
  {
    var cached := LoadConfig(files, url).value;
    var fetched := Fetch(url, cached.lastModified, cached.etag, env.net).value;
    var feed := env.parse(fetched.data);
    var entries := BuildEntries(feed.items, env.translate);
    assert entries.Some?;
    var empty: PostDict := map[];
    assert empty[FeedLabel(feed) := entries.value].Keys == {FeedLabel(feed)};
  }

  /** After a sync that saved, the next sync of the same URL is a cache hit: it returns the
      same dictionary, saves nothing and does not depend on the network. */
  lemma {:induction false} NextSyncHitsCache(files: map<string, StoredFile>, url: string, env: Env, next: Env)
    requires Sync(files, url, env).save.Some?
    ensures var saved := Apply(files, Sync(files, url, env).save);
            Sync(saved, url, next) == SyncOutcome(Sync(files, url, env).result, None)
  {
    var cached := LoadConfig(files, url).value;
    var fetched := Fetch(url, cached.lastModified, cached.etag, env.net).value;
    var feed := env.parse(fetched.data);
    var entries := BuildEntries(feed.items, env.translate).value;
    var postDict := cached.postDict[FeedLabel(feed) := entries];
    assert FeedLabel(feed) in postDict;
    assert Sync(files, url, env).save == Some((ConfigPath(url).value, Record(fetched.lastModified, fetched.etag, postDict)));
    LoadAfterSave(files, url, fetched.lastModified, fetched.etag, postDict);
    assert LoadConfig(Apply(files, Sync(files, url, env).save), url) == Success(Loaded(postDict, fetched.lastModified, fetched.etag));
  }

  /** A URL without a category fails before anything is read or written. */
  lemma BadUrlFailsSync(files: map<string, StoredFile>, url: string, env: Env)
    requires Category(url).Failure?
    ensures Sync(files, url, env) == SyncOutcome(Failure(BadFeedUrl), None)
  {
  }

  /** A config file that cannot be read as a config dictionary fails the sync, and nothing is saved. */
  lemma MalformedRecordFailsSync(files: map<string, StoredFile>, url: string, env: Env)
    requires ConfigPath(url).Success? && ConfigPath(url).value in files
    requires files[ConfigPath(url).value].Malformed?
    ensures Sync(files, url, env) == SyncOutcome(Failure(MalformedRecord), None)
  {
  }

  /** A request that fails below HTTP fails the sync, and nothing is saved. */
  lemma NetworkFailureFailsSync(files: map<string, StoredFile>, url: string, env: Env)
    requires LoadConfig(files, url).Success? && LoadConfig(files, url).value.postDict == map[]
    requires var cached := LoadConfig(files, url).value;
             env.net(url, ConditionalHeaders(cached.lastModified, cached.etag)).None?
    ensures Sync(files, url, env) == SyncOutcome(Failure(NetworkFailure), None)
  {
  }
}
