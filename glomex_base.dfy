/**
 * `GlomexBaseIE`: the origin side channel, the API request, the video-id type, and the shaping
 * of the API answer into one video record or a playlist of them.
 */
module GlomexBase {
  import opened Wrappers
  import opened Errors
  import opened Text
  import opened Json
  import opened Smuggling
  import opened ApiData
  import opened Formats

  const DefaultOriginUrl := "https://player.glomex.com/"
  const ApiUrl := "https://integration-cloudfront-eu-west-1.mes.glomex.cloud/"
  const ThumbnailProfile := "/profile:player-960x540"
  const GeoblockedCode := "contentGeoblocked"

  /** Python's `url or _DEFAULT_ORIGIN_URL`. */
  function OriginOrDefault(url: Option<string>): string {
    if Truthy(url) then url.value else DefaultOriginUrl
  }

  /** `_smuggle_origin_url`. */
  function SmuggleOriginUrl(url: string, originUrl: Option<string>): string {
    Smuggle(url, originUrl)
  }

  /** `_unsmuggle_origin_url`: the smuggled origin, else the fallback, else the default origin. */
  function UnsmuggleOriginUrl(url: string, fallbackOriginUrl: Option<string>): Result<(string, Option<string>), Error> {
    Unsmuggle(url, Some(OriginOrDefault(fallbackOriginUrl)))
  }

  /** Without a payload the URL is unchanged and the origin is the fallback, or the default when the fallback is falsy. */
  lemma UnsmuggleOriginFallback(url: string, fallbackOriginUrl: Option<string>)
    requires !HasInfix(url, SmuggleMarker)
    ensures UnsmuggleOriginUrl(url, fallbackOriginUrl).Success?
    ensures UnsmuggleOriginUrl(url, fallbackOriginUrl).value.0 == url
    ensures Truthy(fallbackOriginUrl) ==> UnsmuggleOriginUrl(url, fallbackOriginUrl).value.1 == fallbackOriginUrl
    ensures !Truthy(fallbackOriginUrl) ==> UnsmuggleOriginUrl(url, fallbackOriginUrl).value.1 == Some(DefaultOriginUrl)
  {
  }

  /** A smuggled origin wins over any fallback and comes back exactly, `None` included. */
  lemma OriginRoundTrip(url: string, originUrl: Option<string>, fallbackOriginUrl: Option<string>)
    requires !HasInfix(url, SmuggleMarker)
    ensures UnsmuggleOriginUrl(SmuggleOriginUrl(url, originUrl), fallbackOriginUrl) == Success((url, originUrl))
  {
    UnsmuggleSmuggle(url, originUrl, Some(OriginOrDefault(fallbackOriginUrl)));
  }

  const VideoIdTypes: map<string, string> := map[
    "v" := "video",
    "pl" := "playlist",
    "rl" := "related videos playlist",
    "cl" := "curated playlist"]

  /** `_get_videoid_type`: the type named by the text before the first `-`. */
  function VideoIdType(videoId: string): string {
    var prefix := Split(videoId, '-')[0];
    if prefix in VideoIdTypes then VideoIdTypes[prefix] else "unknown type"
  }

  /** Only the text before the first `-` matters. */
  lemma VideoIdTypeByPrefix(prefix: string, rest: string)
    requires '-' !in prefix
    ensures VideoIdType(prefix + "-" + rest) == VideoIdType(prefix)
  {
    SplitAt(prefix, '-', rest);
    SplitWithout(prefix, '-');
  }

  /** The four known prefixes. */
  lemma VideoIdTypeKnown(rest: string)
    ensures VideoIdType("v-" + rest) == "video"
    ensures VideoIdType("pl-" + rest) == "playlist"
    ensures VideoIdType("rl-" + rest) == "related videos playlist"
    ensures VideoIdType("cl-" + rest) == "curated playlist"
  {
    assert "v-" + rest == "v" + "-" + rest;
    assert "pl-" + rest == "pl" + "-" + rest;
    assert "rl-" + rest == "rl" + "-" + rest;
    assert "cl-" + rest == "cl" + "-" + rest;
    VideoIdTypeByPrefix("v", rest);
    VideoIdTypeByPrefix("pl", rest);
    VideoIdTypeByPrefix("rl", rest);
    VideoIdTypeByPrefix("cl", rest);
  }

  /** Any other prefix, a whole id without `-` included, is of unknown type. */
  lemma VideoIdTypeUnknown(videoId: string)
    requires Split(videoId, '-')[0] !in VideoIdTypes
    ensures VideoIdType(videoId) == "unknown type"
  {
  }

  lemma VideoIdTypeNoDash(videoId: string)
    requires '-' !in videoId && videoId !in VideoIdTypes
    ensures VideoIdType(videoId) == "unknown type"
  {
    SplitWithout(videoId, '-');
  }

  /** The query of the API call. */
  datatype ApiQuery = ApiQuery(integrationId: string, playlistId: string, currentUrl: string)

  /** One `_download_json` call: endpoint, id, progress note, error note and query. */
  datatype ApiRequest = ApiRequest(url: string, videoId: string, note: string, errnote: string, query: ApiQuery)

  /** `_download_api_data`, up to the download itself. */
  function DownloadApiRequest(videoId: string, integration: string, currentUrl: Option<string>): ApiRequest {
    var videoIdType := VideoIdType(videoId);
    ApiRequest(ApiUrl, videoId,
      "Downloading " + videoIdType + " JSON",
      "Unable to download " + videoIdType + " JSON",
      ApiQuery(integration, videoId, OriginOrDefault(currentUrl)))
  }

  /** The query names the requested id and integration, and `current_url` falls back to the default origin when absent or empty. */
  lemma ApiQueryCurrentUrl(videoId: string, integration: string, currentUrl: Option<string>)
    ensures DownloadApiRequest(videoId, integration, currentUrl).query.playlistId == videoId
    ensures DownloadApiRequest(videoId, integration, currentUrl).query.integrationId == integration
    ensures currentUrl == None || currentUrl == Some([]) ==>
              DownloadApiRequest(videoId, integration, currentUrl).query.currentUrl == DefaultOriginUrl
    ensures currentUrl.Some? && currentUrl.value != [] ==>
              DownloadApiRequest(videoId, integration, currentUrl).query.currentUrl == currentUrl.value
  {
  }

  /** The video record `_extract_info` builds. */
  datatype Info = Info(
    id: string,
    title: Option<string>,
    description: Option<string>,
    thumbnail: string,
    duration: Option<int>,
    timestamp: Value)

  /** A record with its formats attached (`info['formats'] = ...`). */
  datatype Entry = Entry(info: Info, formats: seq<Format>)

  /** What `_download_and_extract_api_data` returns: one record, or `playlist_result(...)`. */
  datatype Extraction =
    | Single(entry: Entry)
    | Playlist(entries: seq<Entry>, id: string, title: Option<string>, description: Option<string>)

  /** `'%s/profile:player-960x540' % try_get(video, lambda x: x['image']['url'])`: Python writes a missing URL as `None`. */
  function Thumbnail(imageUrl: Option<string>): string {
    (if imageUrl.Some? then imageUrl.value else "None") + ThumbnailProfile
  }

  /** `_extract_info(video, video_id, require_title)`: `video['title']` raises only on a missing key. */
  function ExtractInfo(video: VideoItem, videoId: string, requireTitle: bool): Result<Info, Error> {
    if requireTitle && video.title.Absent? then Failure(MissingKey("title"))
    else
      Success(Info(
        if Truthy(video.clipId) then video.clipId.value else videoId,
        video.title.Get(),
        video.description,
        Thumbnail(video.imageUrl),
        IntOrNone(video.clipDuration),
        video.createdAt))
  }

  /** The record `_extract_info` builds, field by field. */
  lemma ExtractInfoFields(video: VideoItem, videoId: string, requireTitle: bool)
    ensures ExtractInfo(video, videoId, requireTitle).Success? <==> !requireTitle || !video.title.Absent?
    ensures ExtractInfo(video, videoId, requireTitle).Success? ==>
      var info := ExtractInfo(video, videoId, requireTitle).value;
      && (info.id == if Truthy(video.clipId) then video.clipId.value else videoId)
      && (videoId != [] ==> info.id != [])
      && (info.title.Some? <==> video.title.Given?)
      && (video.title.Given? ==> info.title == Some(video.title.value))
      && info.description == video.description
      && info.timestamp == video.createdAt
      && info.duration == IntOrNone(video.clipDuration)
      && (video.imageUrl.Some? ==> info.thumbnail == video.imageUrl.value + ThumbnailProfile)
      && (video.imageUrl.None? ==> info.thumbnail == "None" + ThumbnailProfile)
  {
  }

  /** A video without an image URL gets the thumbnail text `None/profile:player-960x540`. */
  lemma ThumbnailWithoutImage()
    ensures Thumbnail(None) == "None/profile:player-960x540"
  {
  }

  /** `_extract_api_data`: the geoblocking check, then the record and its formats. */
  function ExtractApiData(video: VideoItem, videoId: string, tools: FormatTools): Result<Entry, Error> {
    if video.errorCode == Some(GeoblockedCode) then
      match video.geoLocations
      case Absent => Failure(MissingKey("geo_locations"))
      case Null => Failure(GeoRestricted(None))
      case Given(countries) => Failure(GeoRestricted(Some(countries)))
    else
      var info :- ExtractInfo(video, videoId, true);
      var formats :- FormatList(video, videoId, tools);
      Success(Entry(info, formats))
  }

  /**
   * A geoblocked item raises the geo-restriction error with exactly its countries (`None` for a
   * `null`), or the key error when it has none; nothing is built.
   */
  lemma Geoblocked(video: VideoItem, videoId: string, tools: FormatTools)
    requires video.errorCode == Some(GeoblockedCode)
    ensures ExtractApiData(video, videoId, tools).Failure?
    ensures video.geoLocations.Absent? ==> ExtractApiData(video, videoId, tools).error == MissingKey("geo_locations")
    ensures !video.geoLocations.Absent? ==> ExtractApiData(video, videoId, tools).error == GeoRestricted(video.geoLocations.Get())
  {
  }

  /** Any other item yields its record with the formats of its source, or the first missing key. */
  lemma NotGeoblocked(video: VideoItem, videoId: string, tools: FormatTools)
    requires video.errorCode != Some(GeoblockedCode)
    ensures video.title.Absent? ==> ExtractApiData(video, videoId, tools) == Failure(MissingKey("title"))
    ensures !video.title.Absent? && video.source.None? ==> ExtractApiData(video, videoId, tools) == Failure(MissingKey("source"))
    ensures !video.title.Absent? && video.source.Some? ==>
      ExtractApiData(video, videoId, tools)
        == Success(Entry(ExtractInfo(video, videoId, true).value, FormatList(video, videoId, tools).value))
  {
  }

  /** The list comprehension over `videos`: every item extracted in order; the first failure propagates. */
  function ExtractAll(videos: seq<VideoItem>, videoId: string, tools: FormatTools): (r: Result<seq<Entry>, Error>)
    ensures r.Success? ==> |r.value| == |videos|
  {
    if videos == [] then Success([])
    else
      var first :- ExtractApiData(videos[0], videoId, tools);
      var rest :- ExtractAll(videos[1..], videoId, tools);
      Success([first] + rest)
  }

  /** `_download_and_extract_api_data` after the download: no video is an error, one a record, several a playlist. */
  function ExtractResponse(videoId: string, response: ApiResponse, tools: FormatTools): Result<Extraction, Error> {
    match response.videos
    case Absent => Failure(MissingKey("videos"))
    case Null => Failure(NoVideos("no videos found for " + videoId))
    case Given(videos) =>
      if videos == [] then Failure(NoVideos("no videos found for " + videoId))
      else if |videos| == 1 then
        var entry :- ExtractApiData(videos[0], videoId, tools);
        Success(Single(entry))
      else
        var entries :- ExtractAll(videos, videoId, tools);
        Success(Playlist(entries, videoId, entries[0].info.title, entries[0].info.description))
  }

  /** `ExtractAll` succeeds exactly when every item does, and then keeps their number and order. */
  lemma {:induction false} ExtractAllEach(videos: seq<VideoItem>, videoId: string, tools: FormatTools)
    ensures ExtractAll(videos, videoId, tools).Success? <==>
              forall k :: 0 <= k < |videos| ==> ExtractApiData(videos[k], videoId, tools).Success?
    ensures ExtractAll(videos, videoId, tools).Success? ==>
              |ExtractAll(videos, videoId, tools).value| == |videos| &&
              forall k :: 0 <= k < |videos| ==>
                ExtractAll(videos, videoId, tools).value[k] == ExtractApiData(videos[k], videoId, tools).value
  {
    if videos != [] {
      ExtractAllEach(videos[1..], videoId, tools);
      assert forall k :: 1 <= k < |videos| ==> videos[1..][k - 1] == videos[k];
    }
  }

  /** The error of a failing comprehension is that of its first failing item. */
  lemma {:induction false} ExtractAllFirstError(videos: seq<VideoItem>, k: nat, videoId: string, tools: FormatTools)
    requires k < |videos| && ExtractApiData(videos[k], videoId, tools).Failure?
    requires forall j :: 0 <= j < k ==> ExtractApiData(videos[j], videoId, tools).Success?
    ensures ExtractAll(videos, videoId, tools) == Failure(ExtractApiData(videos[k], videoId, tools).error)
  {
    var head := ExtractApiData(videos[0], videoId, tools);
    if k > 0 {
      assert head.Success?;
      var tail := videos[1..];
      assert tail[k - 1] == videos[k];
      forall j | 0 <= j < k - 1
        ensures ExtractApiData(tail[j], videoId, tools).Success?
      {
        assert tail[j] == videos[j + 1];
      }
      ExtractAllFirstError(tail, k - 1, videoId, tools);
      TailFails(videos, videoId, tools);
    } else {
      HeadFails(videos, videoId, tools);
    }
  }

  /** A failing first item fails the comprehension with its error. */
  lemma HeadFails(videos: seq<VideoItem>, videoId: string, tools: FormatTools)
    requires videos != [] && ExtractApiData(videos[0], videoId, tools).Failure?
    ensures ExtractAll(videos, videoId, tools) == Failure(ExtractApiData(videos[0], videoId, tools).error)
  {
    ExtractAllCons(videos, videoId, tools);
  }

  /** After a succeeding first item, a failing rest fails the comprehension with its error. */
  lemma TailFails(videos: seq<VideoItem>, videoId: string, tools: FormatTools)
    requires videos != [] && ExtractApiData(videos[0], videoId, tools).Success?
    requires ExtractAll(videos[1..], videoId, tools).Failure?
    ensures ExtractAll(videos, videoId, tools) == Failure(ExtractAll(videos[1..], videoId, tools).error)
  {
    ExtractAllCons(videos, videoId, tools);
  }

  /** One step of the comprehension: the first item, then the rest. */
  lemma ExtractAllCons(videos: seq<VideoItem>, videoId: string, tools: FormatTools)
    requires videos != []
    ensures var head := ExtractApiData(videos[0], videoId, tools);
      var rest := ExtractAll(videos[1..], videoId, tools);
      ExtractAll(videos, videoId, tools)
        == if head.Failure? then Failure(head.error)
           else if rest.Failure? then Failure(rest.error)
           else Success([head.value] + rest.value)
  {
  }

  /** An empty or `null` list of videos is reported as no videos found, a missing one as a key error. */
  lemma NoVideosFound(videoId: string, tools: FormatTools)
    ensures ExtractResponse(videoId, ApiResponse(Given([])), tools) == Failure(NoVideos("no videos found for " + videoId))
    ensures ExtractResponse(videoId, ApiResponse(Field.Null), tools) == Failure(NoVideos("no videos found for " + videoId))
    ensures ExtractResponse(videoId, ApiResponse(Absent), tools) == Failure(MissingKey("videos"))
  {
  }

  lemma OneVideo(videoId: string, video: VideoItem, tools: FormatTools)
    ensures ExtractApiData(video, videoId, tools).Success? ==>
      ExtractResponse(videoId, ApiResponse(Given([video])), tools) == Success(Single(ExtractApiData(video, videoId, tools).value))
    ensures ExtractApiData(video, videoId, tools).Failure? ==>
      ExtractResponse(videoId, ApiResponse(Given([video])), tools) == Failure(ExtractApiData(video, videoId, tools).error)
  {
  }

  /** Several videos give a playlist of as many records, in order, named after the request and its first record. */
  lemma SeveralVideos(videoId: string, videos: seq<VideoItem>, tools: FormatTools)
    requires |videos| > 1
    requires forall k :: 0 <= k < |videos| ==> ExtractApiData(videos[k], videoId, tools).Success?
    ensures ExtractResponse(videoId, ApiResponse(Given(videos)), tools).Success?
    ensures
      var r := ExtractResponse(videoId, ApiResponse(Given(videos)), tools).value;
      && r.Playlist?
      && |r.entries| == |videos|
      && (forall k :: 0 <= k < |videos| ==> r.entries[k] == ExtractApiData(videos[k], videoId, tools).value)
      && r.id == videoId
      && r.title == r.entries[0].info.title
      && r.description == r.entries[0].info.description
  {
    ExtractAllEach(videos, videoId, tools);
  }

  /** A geoblocked single video makes the whole extraction fail with its countries. */
  lemma GeoblockedResponse(videoId: string, video: VideoItem, tools: FormatTools)
    requires video.errorCode == Some(GeoblockedCode) && !video.geoLocations.Absent?
    ensures ExtractResponse(videoId, ApiResponse(Given([video])), tools) == Failure(GeoRestricted(video.geoLocations.Get()))
  {
  }
}
