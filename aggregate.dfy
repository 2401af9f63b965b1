/** `get_all_feeds`: one sync per URL, then the results merged with `dict.update`.

    `asyncio.gather` starts the tasks in URL order and each runs `load_config` before its
    first suspension (the HTTP request), so every sync loads from the directory as it was
    before any of them saved; the saves then land one after another. Results come back in
    URL order whatever the completion order, and a sync that raised is skipped. */
module FeedAggregate {
  import opened Wrappers
  import opened FeedTypes
  import opened ConfigStore
  import opened FeedSync

  /** The list `gather` returns: each URL's sync, all loading from `files`. */
  function Gather(files: map<string, StoredFile>, urls: seq<string>, env: Env): (results: seq<Result<PostDict, SyncError>>)
    ensures |results| == |urls|
  {
    if urls == [] then []
    else Gather(files, urls[..|urls| - 1], env) + [Sync(files, urls[|urls| - 1], env).result]
  }

  /** `gather` keeps URL order: the i-th result is the i-th URL's sync. */
  lemma {:induction false} GatherInUrlOrder(files: map<string, StoredFile>, urls: seq<string>, env: Env, i: nat)
    requires i < |urls|
    ensures Gather(files, urls, env)[i] == Sync(files, urls[i], env).result
    decreases |urls|
  {
    if i < |urls| - 1 {
      GatherInUrlOrder(files, urls[..|urls| - 1], env, i);
    }
  }

  /** `files` after the saves of the syncs of `urls`, each computed from `snapshot`, in URL order. */
  function SaveAll(files: map<string, StoredFile>, snapshot: map<string, StoredFile>, urls: seq<string>, env: Env)
    : (r: map<string, StoredFile>)
    ensures files.Keys <= r.Keys
  {
    if urls == [] then files
    else Apply(SaveAll(files, snapshot, urls[..|urls| - 1], env), Sync(snapshot, urls[|urls| - 1], env).save)
  }

  /** The sync of `url` from `snapshot` writes the config file `path`. */
  ghost predicate SavesTo(snapshot: map<string, StoredFile>, url: string, env: Env, path: string) {
    var save := Sync(snapshot, url, env).save;
    save.Some? && save.value.0 == path
  }

  /** A file no sync of `urls` writes keeps its presence and its content. */
  lemma {:induction false} SaveAllFrame(files: map<string, StoredFile>, snapshot: map<string, StoredFile>,
                                        urls: seq<string>, env: Env, path: string)
    requires forall k :: 0 <= k < |urls| ==> !SavesTo(snapshot, urls[k], env, path)
    ensures path in SaveAll(files, snapshot, urls, env) <==> path in files
    ensures path in files ==> SaveAll(files, snapshot, urls, env)[path] == files[path]
    decreases |urls|
  {
    if urls != [] {
      var earlier := urls[..|urls| - 1];
      assert forall k :: 0 <= k < |earlier| ==> earlier[k] == urls[k];
      SaveAllFrame(files, snapshot, earlier, env, path);
      assert !SavesTo(snapshot, urls[|urls| - 1], env, path);
    }
  }

  /** A file ends with the content of the last save to it in URL order. */
  lemma {:induction false} SaveAllLastSave(files: map<string, StoredFile>, snapshot: map<string, StoredFile>,
                                           urls: seq<string>, env: Env, k: nat)
    requires k < |urls| && Sync(snapshot, urls[k], env).save.Some?
    requires forall j :: k < j < |urls| ==> !SavesTo(snapshot, urls[j], env, Sync(snapshot, urls[k], env).save.value.0)
    ensures var save := Sync(snapshot, urls[k], env).save.value;
            save.0 in SaveAll(files, snapshot, urls, env) && SaveAll(files, snapshot, urls, env)[save.0] == save.1
    decreases |urls|
  {
    var earlier := urls[..|urls| - 1];
    var path := Sync(snapshot, urls[k], env).save.value.0;
    if k < |urls| - 1 {
      assert forall j :: 0 <= j < |earlier| ==> earlier[j] == urls[j];
      SaveAllLastSave(files, snapshot, earlier, env, k);
      var last := Sync(snapshot, urls[|urls| - 1], env).save;
      assert !SavesTo(snapshot, urls[|urls| - 1], env, path);
      assert last.None? || last.value.0 != path;
      ApplyKeeps(SaveAll(files, snapshot, earlier, env), last, path);
    }
  }

  /** A save to another file leaves `path` as it was. */
  lemma ApplyKeeps(files: map<string, StoredFile>, save: Option<(string, StoredFile)>, path: string)
    requires save.None? || save.value.0 != path
    ensures path in Apply(files, save) <==> path in files
    ensures path in files ==> Apply(files, save)[path] == files[path]
  {
  }

  /** After `get_all_feeds`, a URL whose save was the last one to its file is served from the
      cache by the next sync: the same result, nothing saved, whatever the network does. */
  lemma NextAggregateHitsCache(files: map<string, StoredFile>, urls: seq<string>, env: Env, next: Env, k: nat)
    requires k < |urls| && Sync(files, urls[k], env).save.Some?
    requires forall j :: k < j < |urls| ==> !SavesTo(files, urls[j], env, Sync(files, urls[k], env).save.value.0)
    ensures Sync(SaveAll(files, files, urls, env), urls[k], next) == SyncOutcome(Gather(files, urls, env)[k], None)
  {
    var url := urls[k];
    var after := SaveAll(files, files, urls, env);
    var alone := Apply(files, Sync(files, url, env).save);
    SaveAllLastSave(files, files, urls, env, k);
    NextSyncHitsCache(files, url, env, next);
    GatherInUrlOrder(files, urls, env, k);
    assert LoadConfig(after, url) == LoadConfig(alone, url);
  }

  /** Whether some successful result in `results` has `key`. */
  ghost predicate Provides(results: seq<Result<PostDict, SyncError>>, key: string) {
    exists i :: 0 <= i < |results| && results[i].Success? && key in results[i].value
  }

  /** The left fold of `content_dict.update(result)` over the successful results. */
  function Merge(results: seq<Result<PostDict, SyncError>>): (content: PostDict)
    ensures (forall i :: 0 <= i < |results| ==> results[i].Failure?) ==> content == map[]
  {
    if results == [] then map[]
    else
      assert forall i :: 0 <= i < |results| - 1 ==> results[..|results| - 1][i] == results[i];
      match results[|results| - 1]
      case Success(d) => Merge(results[..|results| - 1]) + d
      case Failure(_) => Merge(results[..|results| - 1])
  }

  /** The aggregate holds exactly the labels of the successful results. */
  lemma {:induction false} MergeLabels(results: seq<Result<PostDict, SyncError>>)
    ensures forall key :: key in Merge(results) <==> Provides(results, key)
  {
    if results != [] {
      var earlier := results[..|results| - 1];
      MergeLabels(earlier);
      assert forall i :: 0 <= i < |earlier| ==> earlier[i] == results[i];
    }
  }

  /** The loop of `get_all_feeds` over the gathered results. */
  method MergeResults(results: seq<Result<PostDict, SyncError>>) returns (content: PostDict)
    ensures content == Merge(results)
  {
    content := map[];
    var i := 0;
    while i < |results|
      invariant 0 <= i <= |results|
      invariant content == Merge(results[..i])
    {
      assert results[..i + 1][..i] == results[..i];
      if results[i].Success? {
        content := content + results[i].value;
      }
      i := i + 1;
    }
    assert results[..i] == results;
  }

  /** The first step of every task `gather` starts: `load_config`, in URL order, before any request. */
  method LoadAll(store: Store, urls: seq<string>) returns (loads: seq<Result<Loaded, SyncError>>)
    ensures |loads| == |urls|
    ensures forall k :: 0 <= k < |urls| ==> loads[k] == LoadConfig(store.files, urls[k])
  {
    loads := [];
    var i := 0;
    while i < |urls|
      invariant 0 <= i <= |urls|
      invariant |loads| == i
      invariant forall k :: 0 <= k < i ==> loads[k] == LoadConfig(store.files, urls[k])
    {
      var loaded := store.Load(urls[i]);
      loads := loads + [loaded];
      i := i + 1;
    }
  }

  /** The rest of every task, one after another in URL order; the list `gather` returns. */
  method ResumeAll(store: Store, urls: seq<string>, loads: seq<Result<Loaded, SyncError>>, env: Env)
    returns (results: seq<Result<PostDict, SyncError>>)
    requires |loads| == |urls|
    requires forall k :: 0 <= k < |urls| ==> loads[k] == LoadConfig(store.files, urls[k])
    modifies store
    ensures results == Gather(old(store.files), urls, env)
    ensures store.files == SaveAll(old(store.files), old(store.files), urls, env)
  {
    results := [];
    var i := 0;
    while i < |urls|
      invariant 0 <= i <= |urls|
      invariant results == Gather(old(store.files), urls[..i], env)
      invariant store.files == SaveAll(old(store.files), old(store.files), urls[..i], env)
    {
      assert urls[..i + 1][..i] == urls[..i] && urls[..i + 1][i] == urls[i];
      var r := ResumeFeed(store, urls[i], loads[i], env);
      results := results + [r];
      i := i + 1;
    }
    assert urls[..i] == urls;
  }

  /** `get_all_feeds`: every URL's load first, then the rest of each sync, then the merge. */
  method GetAllFeeds(store: Store, urls: seq<string>, env: Env) returns (content: PostDict)
    modifies store
    ensures content == Merge(Gather(old(store.files), urls, env))
    ensures store.files == SaveAll(old(store.files), old(store.files), urls, env)
  {
    var loads := LoadAll(store, urls);
    var results := ResumeAll(store, urls, loads, env);
    content := MergeResults(results);
  }

  /** On a label several results share, the last successful one in URL order wins. */
  lemma {:induction false} MergeLastWriterWins(results: seq<Result<PostDict, SyncError>>, key: string, i: nat)
    requires i < |results| && results[i].Success? && key in results[i].value
    requires forall j :: i < j < |results| && results[j].Success? ==> key !in results[j].value
    ensures key in Merge(results) && Merge(results)[key] == results[i].value[key]
    decreases |results|
  {
    var earlier := results[..|results| - 1];
    if i < |results| - 1 {
      MergeLastWriterWins(earlier, key, i);
    }
  }

  /** A failed sync contributes nothing: inserting a failure anywhere leaves the merge unchanged. */
  lemma {:induction false} MergeSkipsFailure(results: seq<Result<PostDict, SyncError>>, at: nat, e: SyncError)
    requires at <= |results|
    ensures Merge(results[..at] + [Failure(e)] + results[at..]) == Merge(results)
    decreases |results|
  {
    var withFailure := results[..at] + [Failure(e)] + results[at..];
    if at == |results| {
      assert withFailure[..|withFailure| - 1] == results;
    } else {
      var earlier := results[..|results| - 1];
      MergeSkipsFailure(earlier, at, e);
      assert withFailure[..|withFailure| - 1] == earlier[..at] + [Failure(e)] + earlier[at..];
      assert withFailure[|withFailure| - 1] == results[|results| - 1];
      assert Merge(withFailure[..|withFailure| - 1]) == Merge(earlier);
    }
  }
}
