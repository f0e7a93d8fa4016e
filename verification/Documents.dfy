/** The values the gateway passes around: decoded JSON documents and Warpnet tweets. */
module Documents {
  import opened Seqs
  import opened Strings

  /** A decoded JSON value; Other is a number or a boolean. */
  datatype Json = Null | Str(text: GoString) | Obj(fields: map<string, Json>) | Arr(items: seq<Json>) | Other

  /** Indexing a decoded object; absent keys and values that are no objects give Null. */
  function Field(v: Json, key: string): Json {
    if v.Obj? && key in v.fields then v.fields[key] else Null
  }

  function StringOnly(v: Json): GoString {
    if v.Str? then v.text else ""
  }

  /** A string, or the id of an object (asString and stringField). */
  function AsString(v: Json): GoString {
    if v.Obj? then StringOnly(Field(v, "id")) else StringOnly(v)
  }

  function TypeOf(v: Json): string {
    StringOnly(Field(v, "type"))
  }

  function AsSlice(v: Json): seq<Json> {
    if v.Arr? then v.items else []
  }

  /** A Warpnet tweet without its timestamp. */
  datatype Tweet = Tweet(
    id: string, rootId: string, parentId: Option<string>, parentUserId: Option<string>,
    text: string, userId: string, username: string, network: string,
    retweetedBy: Option<string>, quotedTweetId: Option<string>, quotedUserId: Option<string>,
    imageKeys: seq<string>)

  const NO_TWEET := Tweet("", "", None, None, "", "", "", "", None, None, None, [])

  predicate HasParent(t: Tweet) {
    t.parentId.Some? && t.parentId.value != ""
  }
}
