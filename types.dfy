/** Values shared by the feed pipeline: validators, entries, the per-label entry dictionary, errors. */
module FeedTypes {

  /** The exceptions that end one feed's sync. */
  datatype SyncError =
    | BadFeedUrl       // the URL does not match the category pattern (`.group` on `None`)
    | MalformedRecord  // the cached JSON file cannot be read as a config dictionary
    | NetworkFailure   // the HTTP request itself failed (connection, DNS, timeout)
    | BadTimestamp     // an item's `updated` value is not an ISO-8601 date-time

  /** An HTTP validator as the code holds it: `None`, the integer `0` that a missing
      config file yields, or a header string. */
  datatype Validator = NoValue | Placeholder | Text(text: string)

  /** Python truthiness of a validator: only a non-empty string is true. */
  predicate Truthy(v: Validator) {
    v.Text? && v.text != ""
  }

  /** An item title as the feed parser hands it over: a string, or some other value. */
  datatype Title = TextTitle(text: string) | OtherTitle(raw: int)

  /** One cached post: `{"title": ..., "updated": ..., "link": ...}`. */
  datatype Entry = Entry(title: Title, updated: string, link: string)

  /** `post_dict`: feed label to the ordered list of its entries. */
  type PostDict = map<string, seq<Entry>>
}
