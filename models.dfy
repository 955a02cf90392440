/**
  The data shapes exchanged with the upstream API and with callers:
  the upstream item record and the caller-facing projection of it.
 */
module Models {
  import opened Wrappers

  /** The range of a C# `int`. */
  newtype int32 = x: int | -0x8000_0000 <= x < 0x8000_0000

  /** The range of a C# `long`. */
  newtype int64 = x: int | -0x8000_0000_0000_0000 <= x < 0x8000_0000_0000_0000

  /** An upstream item, as deserialised from `item/{id}.json`. */
  datatype Story = Story(
    id: int32,
    title: Option<string>,
    url: Option<string>,
    author: Option<string>,       // the JSON `by` field
    time: int64,                  // creation time, seconds since the Unix epoch
    score: int32,
    descendants: Option<int32>,   // comment count, absent on some items
    kind: Option<string>,         // the JSON `type` field
    dead: Option<bool>,
    deleted: Option<bool>)

  /** The caller-facing view of a story. */
  datatype BestStoryDto = BestStoryDto(
    title: Option<string>,
    uri: Option<string>,
    postedBy: Option<string>,
    time: Option<string>,
    score: int32,
    commentCount: int32)

  /** The exceptions that can escape an upstream call or the projection. */
  datatype Fault =
    | HttpFailure       // HttpRequestException once the retry policy gives up
    | MalformedJson     // JsonException while deserialising a success body
    | TimeOutOfRange    // ArgumentOutOfRangeException from DateTimeOffset.FromUnixTimeSeconds
}
