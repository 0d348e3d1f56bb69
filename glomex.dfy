/**
 * `GlomexIE`: a `video.glomex.com` page hands over to the embed extractor through a player URL
 * built from the page's video id, a fixed integration, and the page URL as origin.
 */
module Glomex {
  import opened Wrappers
  import opened Errors
  import opened Text
  import opened UrlCodec
  import opened ApiData
  import opened Formats
  import opened GlomexBase
  import opened GlomexEmbed

  /** The integration every `video.glomex.com` page is played with. */
  const IntegrationId := "19syy24xjn1oqlpc"

  /** `GlomexEmbedIE.ie_key()`. */
  const EmbedIeKey := "GlomexEmbed"

  lemma IntegrationIdAscii()
    ensures AllAscii(IntegrationId) && IntegrationId != []
  {
  }

  /** The text after `http://` or `https://`, if the URL starts with either. */
  function AfterScheme(url: string): Option<string> {
    if StartsWith(url, "https://") then Some(url[8..])
    else if StartsWith(url, "http://") then Some(url[7..])
    else None
  }

  /** The host pattern `video.glomex.com/`, whose two dots stand for any character but a newline. */
  predicate HostMatches(h: string) {
    |h| >= 17 && h[..5] == "video" && h[5] != '\n' && h[6..12] == "glomex" && h[12] != '\n' && h[13..17] == "com/"
  }

  /**
   * `_match_id` for `https?://video.glomex.com/[^/]+/(?P<id>v-[^-]+)`, anchored at the start only:
   * the scheme, the host, a non-empty first path segment, then the id.
   */
  function MatchVideoId(url: string): Option<string> {
    match AfterScheme(url)
    case None => None
    case Some(h) => if HostMatches(h) then PathVideoId(h[17..]) else None
  }

  /** `[^/]+/` and the id: the first path segment must be non-empty and end in `/`. */
  function PathVideoId(path: string): Option<string> {
    var (segment, found, tail) := Partition(path, '/');
    if segment == [] || !found then None else IdAt(tail)
  }

  /** `v-[^-]+`: `v-` and the longest non-empty run without `-`. */
  function IdAt(tail: string): Option<string> {
    if !StartsWith(tail, "v-") then None
    else
      var run := Partition(tail[2..], '-').0;
      if run == [] then None else Some("v-" + run)
  }

  /** `url_result(url, ie_key, video_id)`. */
  datatype UrlResult = UrlResult(url: string, ieKey: string, videoId: string)

  /** `GlomexIE._real_extract`; a URL the pattern does not match is refused. */
  function RealExtract(url: string): Result<UrlResult, Error> {
    match MatchVideoId(url)
    case None => Failure(UrlMismatch)
    case Some(videoId) => Success(UrlResult(BuildPlayerUrl(videoId, IntegrationId, Some(url)), EmbedIeKey, videoId))
  }

  /** A matched id is `v-` followed by a non-empty run without `-`, so it always names a video. */
  lemma MatchedIdShape(url: string)
    requires MatchVideoId(url).Some?
    ensures var id := MatchVideoId(url).value;
      && |id| > 2 && id[..2] == "v-" && '-' !in id[2..]
      && VideoIdType(id) == "video"
  {
    var id := MatchVideoId(url).value;
    assert id == "v-" + id[2..];
    assert "v-" + id[2..] == "v" + "-" + id[2..];
    VideoIdTypeByPrefix("v", id[2..]);
  }

  /** The text after the scheme of a URL built from one. */
  lemma AfterSchemeOf(secure: bool, rest: string)
    ensures AfterScheme((if secure then "https://" else "http://") + rest) == Some(rest)
  {
    var url := (if secure then "https://" else "http://") + rest;
    if secure {
      assert url[..8] == "https://" && url[8..] == rest;
    } else {
      assert url[..7] == "http://" && url[7..] == rest;
      assert !StartsWith(url, "https://") by {
        if |url| >= 8 { assert url[4] == ':'; }
      }
    }
  }

  lemma HostOf(path: string)
    ensures HostMatches("video.glomex.com/" + path)
    ensures ("video.glomex.com/" + path)[17..] == path
  {
    var h := "video.glomex.com/" + path;
    assert h[..17] == "video.glomex.com/";
    assert h[..5] == h[..17][..5] && h[6..12] == h[..17][6..12] && h[13..17] == h[..17][13..17];
    assert h[5] == h[..17][5] && h[12] == h[..17][12];
  }

  lemma PathVideoIdOf(segment: string, tail: string)
    requires segment != [] && '/' !in segment
    ensures PathVideoId(segment + "/" + tail) == IdAt(tail)
  {
    PartitionAt(segment, '/', tail);
  }

  lemma IdAtOf(run: string, rest: string)
    requires run != [] && '-' !in run
    requires rest == [] || rest[0] == '-'
    ensures IdAt("v-" + run + rest) == Some("v-" + run)
  {
    var tail := "v-" + run + rest;
    assert tail[..2] == "v-";
    assert tail[2..] == run + rest;
    if rest == [] {
      assert run + rest == run;
      PartitionWithout(run, '-');
    } else {
      assert run + rest == run + ['-'] + rest[1..];
      PartitionAt(run, '-', rest[1..]);
    }
  }

  /**
   * Every URL of the pattern's shape is matched, with the id it spells: the scheme, the host,
   * a segment without `/`, then `v-` and a run without `-`, then nothing or a `-`.
   */
  lemma MatchVideoIdOf(secure: bool, segment: string, run: string, rest: string)
    requires segment != [] && '/' !in segment && run != [] && '-' !in run
    requires rest == [] || rest[0] == '-'
    ensures MatchVideoId((if secure then "https://" else "http://") + "video.glomex.com/" + segment + "/v-" + run + rest)
         == Some("v-" + run)
  {
    var tail := "v-" + run + rest;
    var path := segment + "/" + tail;
    var h := "video.glomex.com/" + path;
    var url := (if secure then "https://" else "http://") + h;
    assert url == (if secure then "https://" else "http://") + "video.glomex.com/" + segment + "/v-" + run + rest;
    AfterSchemeOf(secure, h);
    HostOf(path);
    PathVideoIdOf(segment, tail);
    IdAtOf(run, rest);
  }

  /** A URL that does not start with `http://` or `https://` is refused. */
  lemma WrongSchemeRefused(url: string)
    requires !StartsWith(url, "http://") && !StartsWith(url, "https://")
    ensures RealExtract(url) == Failure(UrlMismatch)
  {
  }

  /**
   * The hand-over: the result names the embed extractor and the matched id, and its URL reads back
   * as that id, the fixed integration and the page URL as origin.
   */
  lemma RedirectReadsBack(url: string)
    requires MatchVideoId(url).Some? && AllAscii(MatchVideoId(url).value)
    ensures RealExtract(url).Success?
    ensures RealExtract(url).value.ieKey == EmbedIeKey
    ensures RealExtract(url).value.videoId == MatchVideoId(url).value
    ensures ParsePlayerUrl(RealExtract(url).value.url)
         == Success(EmbedTarget(MatchVideoId(url).value, IntegrationId, Some(url)))
  {
    var id := MatchVideoId(url).value;
    MatchedIdShape(url);
    IntegrationIdAscii();
    PlayerUrlRoundTrip(id, IntegrationId, Some(url));
  }

  lemma MatchedUrlNonEmpty(url: string)
    requires MatchVideoId(url).Some?
    ensures url != []
  {
    assert AfterScheme(url).Some?;
  }

  /** The API call for a matched page: the matched id, the fixed integration, the page URL as `current_url`. */
  lemma RedirectRequest(url: string)
    requires MatchVideoId(url).Some?
    ensures var id := MatchVideoId(url).value;
      var request := DownloadApiRequest(id, IntegrationId, Some(url));
      && request.query == ApiQuery(IntegrationId, id, url)
      && request.note == "Downloading " + "video" + " JSON"
  {
    var id := MatchVideoId(url).value;
    MatchedIdShape(url);
    MatchedUrlNonEmpty(url);
    ApiQueryCurrentUrl(id, IntegrationId, Some(url));
  }

  /**
   * Following the hand-over makes that API call and shapes whatever comes back under the matched id.
   */
  lemma RedirectExtracts(url: string, fetch: ApiRequest -> Result<ApiResponse, Error>, tools: FormatTools)
    requires MatchVideoId(url).Some? && AllAscii(MatchVideoId(url).value)
    ensures var id := MatchVideoId(url).value;
      ExtractEmbed(RealExtract(url).value.url, fetch, tools)
         == (match fetch(DownloadApiRequest(id, IntegrationId, Some(url)))
             case Failure(e) => Failure(e)
             case Success(response) => ExtractResponse(id, response, tools))
  {
    RedirectReadsBack(url);
  }
}
