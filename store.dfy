/** The per-category config files `Data/<category>.json` (`load_config`, `save_config`).

    The directory is a map from path to file content. A file is either unreadable
    as a config dictionary or a dictionary whose three keys may each be absent. */
module ConfigStore {
  import opened Wrappers
  import opened FeedTypes
  import opened FeedCategory

  /** A config file. `None` in a field means that key is missing from the JSON object
      (a key present with `null` reads the same way). */
  datatype StoredFile =
    | Malformed
    | Config(lastModified: Option<Validator>, etag: Option<Validator>, postDict: Option<PostDict>)

  /** What `load_config` returns: `post_dict, (last_modified, etag)`. */
  datatype Loaded = Loaded(postDict: PostDict, lastModified: Validator, etag: Validator)

  /** The file `save_config` writes: all three keys present. */
  function Record(lastModified: Validator, etag: Validator, postDict: PostDict): StoredFile {
    Config(Some(lastModified), Some(etag), Some(postDict))
  }

  /** `load_config` on the directory `files`. */
  function LoadConfig(files: map<string, StoredFile>, url: string): (r: Result<Loaded, SyncError>)
    ensures r.Failure? <==> Category(url).Failure? || (ConfigPath(url).value in files && files[ConfigPath(url).value].Malformed?)
    ensures r.Failure? ==> r.error == (if Category(url).Failure? then BadFeedUrl else MalformedRecord)
  {
    match ConfigPath(url)
    case Failure(e) => Failure(e)
    case Success(path) =>
      if path !in files then Success(Loaded(map[], Placeholder, Placeholder))
      else
        match files[path]
        case Malformed => Failure(MalformedRecord)
        case Config(lm, et, pd) => Success(Loaded(pd.GetOr(map[]), lm.GetOr(NoValue), et.GetOr(NoValue)))
  }

  /** `save_config` on the directory `files`: the whole file is replaced. */
  function SaveConfig(files: map<string, StoredFile>, url: string, lastModified: Validator, etag: Validator,
                      postDict: PostDict): (r: Result<map<string, StoredFile>, SyncError>)
    ensures r.Success? <==> Category(url).Success?
    ensures r.Failure? ==> r.error == BadFeedUrl
    ensures r.Success? ==> r.value.Keys == files.Keys + {ConfigPath(url).value}
    ensures r.Success? ==> r.value[ConfigPath(url).value] == Record(lastModified, etag, postDict)
    ensures r.Success? ==> forall p :: p in files && p != ConfigPath(url).value ==> r.value[p] == files[p]
  {
    match ConfigPath(url)
    case Failure(e) => Failure(e)
    case Success(path) => Success(files[path := Record(lastModified, etag, postDict)])
  }

  /** The config directory, updated in place by `save_config`. */
  class Store {
    var files: map<string, StoredFile>

    constructor (initial: map<string, StoredFile>)
      ensures files == initial
    {
      files := initial;
    }

    /** `load_config`: reads the file for the URL's category, if any. */
    method Load(url: string) returns (r: Result<Loaded, SyncError>)
      ensures r == LoadConfig(files, url)
    {
      var path := ConfigPath(url);
      if path.Failure? {
        return Failure(path.error);
      }
      if path.value !in files {
        return Success(Loaded(map[], Placeholder, Placeholder));
      }
      var config := files[path.value];
      if config.Malformed? {
        return Failure(MalformedRecord);
      }
      var lastModified := config.lastModified.GetOr(NoValue);
      var etag := config.etag.GetOr(NoValue);
      var postDict := config.postDict.GetOr(map[]);
      r := Success(Loaded(postDict, lastModified, etag));
    }

    /** `save_config`: overwrites the file for the URL's category. */
    method Save(url: string, lastModified: Validator, etag: Validator, postDict: PostDict)
      returns (r: Result<(), SyncError>)
      modifies this
      ensures r.Failure? <==> SaveConfig(old(files), url, lastModified, etag, postDict).Failure?
      ensures r.Failure? ==> r.error == BadFeedUrl && files == old(files)
      ensures r.Success? ==> files == SaveConfig(old(files), url, lastModified, etag, postDict).value
    {
      var path := ConfigPath(url);
      if path.Failure? {
        return Failure(path.error);
      }
      files := files[path.value := Record(lastModified, etag, postDict)];
      r := Success(());
    }
  }

  /** With no file for the category, the post dictionary is empty and both validators are `0`. */
  lemma LoadWithoutRecord(files: map<string, StoredFile>, url: string)
    requires ConfigPath(url).Success? && ConfigPath(url).value !in files
    ensures LoadConfig(files, url) == Success(Loaded(map[], Placeholder, Placeholder))
  {
  }

  /** With a readable file, each key is read on its own: a missing validator reads as `None`,
      a missing post dictionary as `{}`, and a present key as the value stored under it. */
  lemma LoadMissingKeys(files: map<string, StoredFile>, url: string)
    requires ConfigPath(url).Success? && ConfigPath(url).value in files
    requires files[ConfigPath(url).value].Config?
    ensures LoadConfig(files, url).Success?
    ensures var file, loaded := files[ConfigPath(url).value], LoadConfig(files, url).value;
            && (file.lastModified.None? ==> loaded.lastModified == NoValue)
            && (file.lastModified.Some? ==> loaded.lastModified == file.lastModified.value)
            && (file.etag.None? ==> loaded.etag == NoValue)
            && (file.etag.Some? ==> loaded.etag == file.etag.value)
            && (file.postDict.None? ==> loaded.postDict == map[])
            && (file.postDict.Some? ==> loaded.postDict == file.postDict.value)
  {
  }

  /** A URL that does not match the pattern fails both operations. */
  lemma BadUrlFailsStore(files: map<string, StoredFile>, url: string, lm: Validator, et: Validator, pd: PostDict)
    requires Category(url).Failure?
    ensures LoadConfig(files, url) == Failure(BadFeedUrl)
    ensures SaveConfig(files, url, lm, et, pd) == Failure(BadFeedUrl)
  {
  }

  /** Persistence round trip: loading after a save gives back exactly what was saved. */
  lemma LoadAfterSave(files: map<string, StoredFile>, url: string, lm: Validator, et: Validator, pd: PostDict)
    requires Category(url).Success?
    ensures SaveConfig(files, url, lm, et, pd).Success?
    ensures LoadConfig(SaveConfig(files, url, lm, et, pd).value, url) == Success(Loaded(pd, lm, et))
  {
  }

  /** Saving one category leaves what every other category loads unchanged. */
  lemma {:induction false} SaveLeavesOtherCategories(files: map<string, StoredFile>, url: string, other: string,
                                                     lm: Validator, et: Validator, pd: PostDict)
    requires Category(url).Success? && Category(other) != Category(url)
    ensures LoadConfig(SaveConfig(files, url, lm, et, pd).value, other) == LoadConfig(files, other)
  {
    ConfigPathInjective(url, other);
  }
}
