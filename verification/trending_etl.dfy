/** The logic of the daily trending-videos pipeline: the transformer that
    flattens the API response into five-field rows, and the readiness check
    the availability sensor applies to the response text. */
module TrendingEtl {
  import opened Wrappers
  import opened Json
  import Text
  import Traversal

  /** One flattened row. Every value is copied from the response as it is:
      nothing is parsed or converted, so a counter may be the API's string. */
  datatype Row = Row(title: Value, channel: Value, publishTime: Value, views: Value, likes: Value)

  /** The default `stats.get` supplies for a missing counter. */
  const MissingCount: Value := JNumber(0)

  /** The item is a dict whose `snippet` is a dict holding the three text
      fields and whose `statistics` is a dict (possibly without counters). */
  predicate WellFormedVideo(video: Value) {
    && HasKey(video, "snippet")
    && HasKey(video, "statistics")
    && HasKey(video.fields["snippet"], "title")
    && HasKey(video.fields["snippet"], "channelTitle")
    && HasKey(video.fields["snippet"], "publishedAt")
    && video.fields["statistics"].JObject?
  }

  /** The counter `key` of a statistics dict, or 0 when the key is absent. */
  function CountOrZero(stats: map<string, Value>, key: string): Value {
    if key in stats then stats[key] else MissingCount
  }

  /** `row` is the flattening of the well-formed `video`. */
  predicate RowOf(video: Value, row: Row)
    requires WellFormedVideo(video)
  {
    var snippet := video.fields["snippet"].fields;
    var stats := video.fields["statistics"].fields;
    && row.title == snippet["title"]
    && row.channel == snippet["channelTitle"]
    && row.publishTime == snippet["publishedAt"]
    && row.views == CountOrZero(stats, "viewCount")
    && row.likes == CountOrZero(stats, "likeCount")
  }

  /** The body of the loop over `videos`: the lookups happen in the order the
      source evaluates them, so the first one that fails decides the error. */
  function ProcessVideo(video: Value): (r: Result<Row, PyError>)
    ensures r.Success? <==> WellFormedVideo(video)
    ensures r.Success? ==> RowOf(video, r.value)
  {
    var snippet :- Subscript(video, "snippet");
    var stats :- Subscript(video, "statistics");
    var title :- Subscript(snippet, "title");
    var channel :- Subscript(snippet, "channelTitle");
    var published :- Subscript(snippet, "publishedAt");
    var views :- Get(stats, "viewCount", MissingCount);
    // the first `get` succeeded, so `stats` is a dict and this one cannot fail
    var likes := Get(stats, "likeCount", MissingCount).value;
    Success(Row(title, channel, published, views, likes))
  }

  /** The loop over a list of items, `ProcessVideo` applied to each in turn:
      rows are handed on only if every item succeeds, otherwise the error of
      the first failing item escapes. */
  function ProcessVideoList(videos: seq<Value>): (r: Result<seq<Row>, PyError>)
    ensures r.Success? <==> forall i :: 0 <= i < |videos| ==> WellFormedVideo(videos[i])
    ensures r.Success? ==> |r.value| == |videos|
    ensures r.Success? ==> forall i :: 0 <= i < |videos| ==> RowOf(videos[i], r.value[i])
    ensures r.Failure? ==> exists k :: Traversal.FirstFailureAt(ProcessVideo, videos, k) &&
                                       r.error == ProcessVideo(videos[k]).error
  {
    Traversal.MapResult(ProcessVideo, videos)
  }

  /** `_process_videos`: read `response['items']` and run the loop over it.
      Iterating a dict or a str yields str elements, and `'x'['snippet']`
      raises TypeError, so a non-empty dict or str fails and an empty one
      gives no rows; any other non-list value is not iterable. */
  function ProcessVideos(response: Value): (r: Result<seq<Row>, PyError>)
    ensures !response.JObject? ==> r == Failure(TypeError)
    ensures response.JObject? && "items" !in response.fields ==> r == Failure(KeyError("items"))
    ensures r.Success? ==> HasKey(response, "items")
    ensures HasKey(response, "items") && response.fields["items"].JArray? ==>
              r == ProcessVideoList(response.fields["items"].elems)
    ensures HasKey(response, "items") && !response.fields["items"].JArray? ==>
              r == (if response.fields["items"] in {JObject(map[]), JString("")} then Success([]) else Failure(TypeError))
  {
    var videos :- Subscript(response, "items");
    match videos
    case JArray(elems) => ProcessVideoList(elems)
    case JString(s) => ProcessVideoList(seq(|s|, i requires 0 <= i < |s| => JString([s[i]])))
    case JObject(m) => if m == map[] then Success([]) else Failure(TypeError)
    case _ => Failure(TypeError)
  }

  /** The text the sensor looks for in the response body. */
  const ItemsMarker: string := "items"

  /** `response_check`: the sensor accepts a response as soon as its body
      text contains `items` anywhere; the body is not parsed. */
  function ResponseCheck(body: string): (ok: bool)
    ensures ok <==> exists i :: Text.OccursAt(ItemsMarker, body, i)
  {
    Text.Contains(body, ItemsMarker)
  }
}
