/** The projection of an upstream story onto the caller-facing view (`BestStoryExtensions`). */
module Extensions {
  import opened Wrappers
  import opened Models
  import opened Calendar

  /**
    The projection of a non-null story: title, url and author are copied (null
    included), the timestamp is rendered in UTC, the score is copied and a
    missing comment count becomes 0. `FromUnixTimeSeconds` throws for a time
    outside years 1 to 9999, which surfaces here as `Err(TimeOutOfRange)`.
   */
  function ToView(s: Story): (r: Result<BestStoryDto, Fault>)
    ensures !InUnixRange(s.time as int) <==> r == Err(TimeOutOfRange)
    ensures r.Ok? ==>
      && r.value.title == s.title
      && r.value.uri == s.url
      && r.value.postedBy == s.author
      && r.value.score == s.score
      && r.value.commentCount == (if s.descendants.Some? then s.descendants.value else 0)
      && r.value.time == Some(FormatUtc(s.time as int))
  {
    if !InUnixRange(s.time as int) then Err(TimeOutOfRange)
    else
      Ok(BestStoryDto(
        title := s.title,
        uri := s.url,
        postedBy := s.author,
        time := Some(FormatUtc(s.time as int)),
        score := s.score,
        commentCount := if s.descendants.Some? then s.descendants.value else 0))
  }

  /** `story.MapToBestStoryDto()`: null maps to null, a story to its view. */
  function MapToBestStoryDto(story: Option<Story>): (r: Result<Option<BestStoryDto>, Fault>)
    ensures story.None? <==> r == Ok(None)
    ensures story.Some? ==> r.Err? == ToView(story.value).Err?
    ensures story.Some? && r.Ok? ==> r.value == Some(ToView(story.value).value)
  {
    match story
    case None => Ok(None)
    case Some(s) =>
      match ToView(s)
      case Err(e) => Err(e)
      case Ok(d) => Ok(Some(d))
  }

  /**
    The rendered time is the fixed-width "yyyy-MM-ddTHH:mm:ssZ" form of the
    story's own instant: it is 20 characters long and reads back as `story.time`.
   */
  lemma ViewTimeDenotesStoryTime(s: Story)
    requires InUnixRange(s.time as int)
    ensures ToView(s).Ok?
    ensures var t := ToView(s).value.time;
      t.Some? && |t.value| == IsoLength && ParseUtc(t.value) == Some(s.time as int)
  {
    FormatUtcRoundTrip(s.time as int);
  }

  /** `Id`, `Type`, `Dead` and `Deleted` play no part in the view. */
  lemma ViewIgnoresIdentityAndFlags(s: Story, id: int32, kind: Option<string>, dead: Option<bool>, deleted: Option<bool>)
    ensures ToView(s) == ToView(s.(id := id, kind := kind, dead := dead, deleted := deleted))
  {
  }
}
