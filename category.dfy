/** Category and config-path derivation from a feed URL.

    The category is the first group of the regular expression
    `https://www.reddit.com/r/(.+)\.rss` applied with `re.match`: the match is
    anchored at the start of the URL only, every unescaped `.` of the host matches
    any character except a newline, and the greedy `(.+)` (which cannot cross a
    newline either) ends at the LAST `.rss` it can reach. */
module FeedCategory {
  import opened Wrappers
  import opened FeedTypes

  /** The literal part of the pattern before the group; its `.` are wildcards. */
  const Prefix: string := "https://www.reddit.com/r/"

  /** The literal after the group (`\.rss`, an escaped dot). */
  const Suffix: string := ".rss"

  /** `CONFIG_DIR`. */
  const ConfigDir: string := "Data"

  /** One pattern character against one URL character: `.` is any character but a newline. */
  predicate PatternCharMatches(p: char, c: char) {
    if p == '.' then c != '\n' else c == p
  }

  /** The URL starts with something the literal part of the pattern matches. */
  predicate PrefixMatches(url: string) {
    |url| >= |Prefix| && forall i :: 0 <= i < |Prefix| ==> PatternCharMatches(Prefix[i], url[i])
  }

  /** The part of a URL after the matched prefix. */
  function Rest(url: string): string
    requires PrefixMatches(url)
  {
    url[|Prefix|..]
  }

  /** `(.+)` can stop after `j` characters of `rest` and `\.rss` then match. */
  predicate EndsCapture(rest: string, j: int) {
    1 <= j && j + |Suffix| <= |rest| && rest[j..j + |Suffix|] == Suffix && '\n' !in rest[..j]
  }

  /** `c` is a possible value of group 1 when matching `url` (ignoring greediness). */
  ghost predicate CanCapture(url: string, c: string) {
    PrefixMatches(url) && EndsCapture(Rest(url), |c|) && Rest(url)[..|c|] == c
  }

  /** The greedy choice: the largest end position not above `j` at which the group can stop. */
  function LongestCapture(rest: string, j: nat): (r: Option<nat>)
    requires j <= |rest|
    ensures r.Some? ==> r.value <= j && EndsCapture(rest, r.value)
    ensures r.Some? ==> forall k :: r.value < k <= j ==> !EndsCapture(rest, k)
    ensures r.None? ==> forall k :: k <= j ==> !EndsCapture(rest, k)
  {
    if j == 0 then None
    else if EndsCapture(rest, j) then Some(j)
    else LongestCapture(rest, j - 1)
  }

  /** `get_category_from_url`: group 1 of the match, or an error when there is no match. */
  function Category(url: string): (r: Result<string, SyncError>)
    ensures r.Success? ==> CanCapture(url, r.value) && r.value != ""
    ensures r.Success? ==> forall c :: CanCapture(url, c) ==> |c| <= |r.value|
    ensures r.Failure? ==> r.error == BadFeedUrl && forall c :: !CanCapture(url, c)
  {
    if !PrefixMatches(url) then Failure(BadFeedUrl)
    else
      match LongestCapture(Rest(url), |Rest(url)|)
      case None => Failure(BadFeedUrl)
      case Some(j) => Success(Rest(url)[..j])
  }

  /** `get_config_path`: `Data/<category>.json`, as a string. */
  function ConfigPath(url: string): (r: Result<string, SyncError>)
    ensures r.Success? <==> Category(url).Success?
    ensures r.Success? ==> r.value == ConfigDir + "/" + Category(url).value + ".json"
    ensures r.Failure? ==> r.error == BadFeedUrl
  {
    match Category(url)
    case Failure(e) => Failure(e)
    case Success(c) => Success(ConfigDir + "/" + c + ".json")
  }

  /** The category stored in a config path (inverse of the path construction). */
  function CategoryOfPath(path: string): string
    requires |path| >= |ConfigDir| + 1 + 5
  {
    path[|ConfigDir| + 1..|path| - 5]
  }

  /** The group takes the longest capture the pattern allows. */
  lemma {:induction false} CategoryIsLongestCapture(url: string, c: string)
    requires CanCapture(url, c)
    requires forall k :: |c| < k ==> !EndsCapture(Rest(url), k)
    ensures Category(url) == Success(c)
  {
    var r := Category(url);
    if r.Failure? {
      assert false;
    } else {
      assert |c| <= |r.value|;
      assert EndsCapture(Rest(url), |r.value|);
      assert r.value == Rest(url)[..|r.value|] == c;
    }
  }

  /** A feed URL of the expected shape, possibly followed by a query without dots,
      yields the subreddit name as its category. */
  lemma {:induction false} CategoryOfFeedUrl(c: string, tail: string)
    requires c != "" && '\n' !in c && '.' !in tail
    ensures Category(Prefix + c + Suffix + tail) == Success(c)
  {
    var url := Prefix + c + Suffix + tail;
    assert PrefixMatches(url) by {
      forall i | 0 <= i < |Prefix| ensures PatternCharMatches(Prefix[i], url[i]) {
        assert url[i] == Prefix[i];
      }
    }
    var rest := Rest(url);
    assert rest == c + Suffix + tail;
    assert rest[..|c|] == c;
    assert rest[|c|..|c| + |Suffix|] == Suffix;
    forall k | |c| < k ensures !EndsCapture(rest, k) {
      if k + |Suffix| <= |rest| {
        assert rest[k] != '.' by {
          if k < |c| + |Suffix| {
            assert rest[k] == Suffix[k - |c|];
          } else {
            assert rest[k] == tail[k - |c| - |Suffix|];
          }
        }
        assert rest[k..k + |Suffix|][0] == rest[k];
      }
    }
    CategoryIsLongestCapture(url, c);
  }

  /** Example: `https://www.reddit.com/r/LifeProTips.rss` has category `LifeProTips`. */
  lemma LifeProTipsCategory()
    ensures Category(Prefix + "LifeProTips" + Suffix) == Success("LifeProTips")
  {
    CategoryOfFeedUrl("LifeProTips", "");
    assert Prefix + "LifeProTips" + Suffix + "" == Prefix + "LifeProTips" + Suffix;
  }

  /** Greediness: in `https://www.reddit.com/r/a.rss.rss` the category runs to the last `.rss`. */
  lemma CategoryRunsToLastSuffix()
    ensures Category(Prefix + "a.rss" + Suffix) == Success("a.rss")
  {
    CategoryOfFeedUrl("a.rss", "");
    assert Prefix + "a.rss" + Suffix + "" == Prefix + "a.rss" + Suffix;
  }

  /** The unescaped dots of the host accept other hosts. */
  lemma CategoryAcceptsOtherHostCharacters()
    ensures Category("https://wwwXredditYcom/r/x.rss") == Success("x")
  {
    var url := "https://wwwXredditYcom/r/x.rss";
    assert PrefixMatches(url) by {
      forall i | 0 <= i < |Prefix| ensures PatternCharMatches(Prefix[i], url[i]) {
      }
    }
    var rest := Rest(url);
    assert rest == "x.rss";
    assert rest[..1] == "x" && rest[1..5] == Suffix;
    assert CanCapture(url, "x");
    CategoryIsLongestCapture(url, "x");
  }

  /** Two URLs share a config file exactly when they share a category. */
  lemma {:induction false} ConfigPathInjective(u1: string, u2: string)
    ensures ConfigPath(u1) == ConfigPath(u2) <==> Category(u1) == Category(u2)
  {
    if Category(u1).Success? && Category(u2).Success? {
      var p1, p2 := ConfigPath(u1).value, ConfigPath(u2).value;
      assert CategoryOfPath(p1) == Category(u1).value;
      assert CategoryOfPath(p2) == Category(u2).value;
    }
  }
}
