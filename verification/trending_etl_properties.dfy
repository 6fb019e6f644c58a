/** Properties of the transformer and the readiness check that relate
    several calls or state a promise about every input of a kind. */
module TrendingEtlProperties {
  import opened Wrappers
  import opened Json
  import opened TrendingEtl
  import Text
  import Traversal

  // ---------------------------------------------------------------------
  // Which missing key is reported

  /** Where a required key is looked up: in the item itself or in its snippet. */
  datatype Level = InVideo | InSnippet

  /** The required keys in the order the source looks them up. */
  const RequiredKeys: seq<(Level, string)> := [
    (InVideo, "snippet"), (InVideo, "statistics"),
    (InSnippet, "title"), (InSnippet, "channelTitle"), (InSnippet, "publishedAt")
  ]

  predicate Present(video: Value, req: (Level, string)) {
    match req.0
    case InVideo => HasKey(video, req.1)
    case InSnippet => HasKey(video, "snippet") && HasKey(video.fields["snippet"], req.1)
  }

  /** Every container the source subscripts is a dict, so the only way the
      item can fail is a missing key. */
  predicate DictShaped(video: Value) {
    && video.JObject?
    && (HasKey(video, "snippet") ==> video.fields["snippet"].JObject?)
    && (HasKey(video, "statistics") ==> video.fields["statistics"].JObject?)
  }

  /** For a dict item, the KeyError names the first missing key in lookup
      order. No lookup before the `get` calls looks inside `statistics`, and
      none before `title` looks inside `snippet`, so only a snippet read for
      its fields has to be a dict. */
  lemma MissingKeyReportsFirst(video: Value, i: int)
    requires video.JObject?
    requires i >= 2 ==> HasKey(video, "snippet") && video.fields["snippet"].JObject?
    requires 0 <= i < |RequiredKeys| && !Present(video, RequiredKeys[i])
    requires forall j :: 0 <= j < i ==> Present(video, RequiredKeys[j])
    ensures ProcessVideo(video) == Failure(KeyError(RequiredKeys[i].1))
  {
    if i >= 1 {
      assert Present(video, RequiredKeys[0]);
    }
    if i >= 2 {
      assert Present(video, RequiredKeys[1]);
    }
    if i >= 3 {
      assert Present(video, RequiredKeys[2]);
    }
    if i >= 4 {
      assert Present(video, RequiredKeys[3]);
    }
  }

  /** The missing key is reported whatever the values that are never looked
      inside: a null statistics, a string snippet, a numeric statistics. */
  lemma MissingKeyExamples()
    ensures ProcessVideo(JObject(map["statistics" := JNull])) == Failure(KeyError("snippet"))
    ensures ProcessVideo(JObject(map["snippet" := JString("x")])) == Failure(KeyError("statistics"))
    ensures ProcessVideo(JObject(map["snippet" := JObject(map[]), "statistics" := JNumber(5)])) ==
              Failure(KeyError("title"))
  {
  }

  /** A dict-shaped item with every required key present succeeds. */
  lemma AllKeysPresentSucceeds(video: Value)
    requires DictShaped(video)
    requires forall j :: 0 <= j < |RequiredKeys| ==> Present(video, RequiredKeys[j])
    ensures ProcessVideo(video).Success?
  {
    assert Present(video, RequiredKeys[0]);
    assert Present(video, RequiredKeys[1]);
    assert Present(video, RequiredKeys[2]);
    assert Present(video, RequiredKeys[3]);
    assert Present(video, RequiredKeys[4]);
  }

  /** The errors that come from the shape of an item rather than a missing key:
      subscripting a non-dict item or snippet raises TypeError, and calling
      `get` on a non-dict statistics value raises AttributeError. */
  lemma ShapeErrors(video: Value)
    ensures !video.JObject? ==> ProcessVideo(video) == Failure(TypeError)
    ensures HasKey(video, "snippet") && HasKey(video, "statistics") && !video.fields["snippet"].JObject? ==>
              ProcessVideo(video) == Failure(TypeError)
    ensures && HasKey(video, "snippet") && HasKey(video, "statistics")
            && HasKey(video.fields["snippet"], "title")
            && HasKey(video.fields["snippet"], "channelTitle")
            && HasKey(video.fields["snippet"], "publishedAt")
            && !video.fields["statistics"].JObject? ==>
              ProcessVideo(video) == Failure(AttributeError("get"))
  {
  }

  // ---------------------------------------------------------------------
  // Counters

  /** An absent counter becomes 0; a present one is passed on unchanged,
      whatever JSON value it is. */
  lemma CountersDefaultToZero(video: Value)
    requires WellFormedVideo(video)
    ensures var stats := video.fields["statistics"].fields;
            var row := ProcessVideo(video).value;
            && (("viewCount" !in stats) ==> row.views == JNumber(0))
            && (("likeCount" !in stats) ==> row.likes == JNumber(0))
            && (("viewCount" in stats) ==> row.views == stats["viewCount"])
            && (("likeCount" in stats) ==> row.likes == stats["likeCount"])
  {
  }

  /** A typical API item: the view count arrives as the string "100" and
      stays a string; the missing like count becomes 0. */
  lemma ExampleItem()
    ensures
      var snippet := JObject(map["title" := JString("A"), "channelTitle" := JString("C1"),
                                 "publishedAt" := JString("2023-01-01T00:00:00Z")]);
      var stats := JObject(map["viewCount" := JString("100")]);
      var response := JObject(map["items" := JArray([JObject(map["snippet" := snippet, "statistics" := stats])])]);
      ProcessVideos(response) ==
        Success([Row(JString("A"), JString("C1"), JString("2023-01-01T00:00:00Z"), JString("100"), JNumber(0))])
  {
    var snippet := JObject(map["title" := JString("A"), "channelTitle" := JString("C1"),
                               "publishedAt" := JString("2023-01-01T00:00:00Z")]);
    var stats := JObject(map["viewCount" := JString("100")]);
    var item := JObject(map["snippet" := snippet, "statistics" := stats]);
    var row := Row(JString("A"), JString("C1"), JString("2023-01-01T00:00:00Z"), JString("100"), JNumber(0));
    assert ProcessVideo(item) == Success(row);
    Traversal.MapResultFromElements(ProcessVideo, [item], [row]);
  }

  // ---------------------------------------------------------------------
  // Other keys are ignored

  const SnippetKeys: set<string> := {"title", "channelTitle", "publishedAt"}
  const StatisticsKeys: set<string> := {"viewCount", "likeCount"}

  /** `v` with every key outside `keys` removed, when `v` is a dict. */
  function Keep(v: Value, keys: set<string>): (r: Value)
    ensures r.JObject? <==> v.JObject?
    ensures r.JObject? ==> r.fields.Keys == v.fields.Keys * keys
  {
    match v
    case JObject(m) => JObject(map k | k in m && k in keys :: m[k])
    case _ => v
  }

  /** The item reduced to the keys the source reads: `snippet` and
      `statistics` at the top, the three text fields and two counters below. */
  function Project(video: Value): (r: Value)
    ensures r.JObject? <==> video.JObject?
    ensures r.JObject? ==> r.fields.Keys == video.fields.Keys * {"snippet", "statistics"}
  {
    match video
    case JObject(m) =>
      JObject(map k | k in m && k in {"snippet", "statistics"} ::
                if k == "snippet" then Keep(m[k], SnippetKeys) else Keep(m[k], StatisticsKeys))
    case _ => video
  }

  /** Keys the source does not read do not change the outcome, neither the
      row nor the error. */
  lemma OtherKeysIgnored(video: Value)
    ensures ProcessVideo(Project(video)) == ProcessVideo(video)
  {
  }

  // ---------------------------------------------------------------------
  // The loop over items

  /** All or nothing: one failing item anywhere in the list means no rows at
      all, and the error raised is that of this item or of an earlier one. */
  lemma AnyFailureMeansNoRows(response: Value, k: int)
    requires HasKey(response, "items") && response.fields["items"].JArray?
    requires 0 <= k < |response.fields["items"].elems|
    requires ProcessVideo(response.fields["items"].elems[k]).Failure?
    ensures ProcessVideos(response).Failure?
    ensures exists j :: && 0 <= j <= k
                        && ProcessVideo(response.fields["items"].elems[j]).Failure?
                        && ProcessVideos(response).error == ProcessVideo(response.fields["items"].elems[j]).error
  {
  }

  /** On success there is one row per item, in order, each the flattening of
      its own item. */
  lemma RowsFollowItems(response: Value, i: int)
    requires HasKey(response, "items") && response.fields["items"].JArray?
    requires ProcessVideos(response).Success?
    requires 0 <= i < |response.fields["items"].elems|
    ensures |ProcessVideos(response).value| == |response.fields["items"].elems|
    ensures WellFormedVideo(response.fields["items"].elems[i])
    ensures RowOf(response.fields["items"].elems[i], ProcessVideos(response).value[i])
  {
  }

  // ---------------------------------------------------------------------
  // The readiness check

  /** Any body with `items` somewhere in it passes, whatever else it says. */
  lemma MarkerAnywherePasses(before: string, after: string)
    ensures ResponseCheck(before + ItemsMarker + after)
  {
    var body := before + ItemsMarker + after;
    assert body[|before|..|before| + |ItemsMarker|] == ItemsMarker;
    assert Text.OccursAt(ItemsMarker, body, |before|);
  }

  /** A response with an empty item list passes the readiness check, and
      the transformer then produces no rows: the check does not wait for a
      non-empty result set. */
  lemma EmptyItemsPassesCheck()
    ensures ResponseCheck("{\"items\": []}")
    ensures ProcessVideos(JObject(map["items" := JArray([])])) == Success([])
  {
  }

  /** A body without the marker fails, for instance an empty JSON object. */
  lemma NoMarkerFails()
    ensures !ResponseCheck("{}")
  {
  }
}
