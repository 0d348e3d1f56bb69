/**
 * `GlomexEmbedIE`: building the iframe-player URL, choosing embed candidates in a web page,
 * and reading a player URL back into the API call it stands for.
 */
module GlomexEmbed {
  import opened Wrappers
  import opened Errors
  import opened Text
  import opened UrlCodec
  import opened Smuggling
  import opened ApiData
  import opened Formats
  import opened GlomexBase

  /** `https://player.glomex.com/integration/1/iframe-player.html`, written as host, path and page. */
  const BasePlayerUrl: string := PlayerHost + PlayerPath + PlayerPage

  const PlayerHost := "https://player.glomex.com/"
  const PlayerPath := "integration/1/"
  const PlayerPage := "iframe-player.html"

  /** The base URL has neither a query nor a fragment. */
  lemma BasePlayerUrlPlain()
    ensures '#' !in BasePlayerUrl && '?' !in BasePlayerUrl
  {
    assert '#' !in PlayerHost && '?' !in PlayerHost;
    assert '#' !in PlayerPath && '?' !in PlayerPath;
    assert '#' !in PlayerPage && '?' !in PlayerPage;
  }

  /** `build_player_url`: the query names the playlist id, then the integration; an origin is smuggled only when given. */
  function BuildPlayerUrl(videoId: string, integration: string, originUrl: Option<string>): string {
    var playerUrl := BasePlayerUrl + "?" + Urlencode([("playlistId", videoId), ("integrationId", integration)]);
    if originUrl.Some? then SmuggleOriginUrl(playerUrl, originUrl) else playerUrl
  }

  /** The player URL without an origin holds no `#`, so it can carry no payload. */
  lemma PlainPlayerUrl(videoId: string, integration: string)
    ensures '#' !in BuildPlayerUrl(videoId, integration, None)
    ensures !HasInfix(BuildPlayerUrl(videoId, integration, None), SmuggleMarker)
  {
    var url := BuildPlayerUrl(videoId, integration, None);
    UrlencodeExcludes([("playlistId", videoId), ("integrationId", integration)], '#');
    BasePlayerUrlPlain();
    if HasInfix(url, SmuggleMarker) {
      InfixHead(url, SmuggleMarker);
    }
  }

  /** Every player URL starts with the base URL and `?`; the origin travels in the side channel when, and only when, it is given. */
  lemma PlayerUrlShape(videoId: string, integration: string, originUrl: Option<string>, fallbackOriginUrl: Option<string>)
    ensures StartsWith(BuildPlayerUrl(videoId, integration, originUrl), BasePlayerUrl + "?")
    ensures originUrl.None? ==> !HasInfix(BuildPlayerUrl(videoId, integration, originUrl), SmuggleMarker)
    ensures originUrl.Some? ==>
      UnsmuggleOriginUrl(BuildPlayerUrl(videoId, integration, originUrl), fallbackOriginUrl)
        == Success((BuildPlayerUrl(videoId, integration, None), originUrl))
  {
    PlainPlayerUrl(videoId, integration);
    var prefix := BasePlayerUrl + "?";
    var query := Urlencode([("playlistId", videoId), ("integrationId", integration)]);
    var plain := BuildPlayerUrl(videoId, integration, None);
    assert plain == prefix + query;
    assert plain[..|prefix|] == prefix;
    if originUrl.Some? {
      StartsWithAppend(plain, SmuggleSuffix(originUrl), prefix);
      OriginRoundTrip(plain, originUrl, fallbackOriginUrl);
    }
  }

  /** What `_real_extract` reads out of a player URL before calling the API. */
  datatype EmbedTarget = EmbedTarget(videoId: string, integration: string, originUrl: Option<string>)

  /** `_real_extract` up to the API call: unsmuggle the origin, then read `playlistId` and `integrationId` from the query. */
  function ParsePlayerUrl(url: string): Result<EmbedTarget, Error> {
    var unsmuggled :- UnsmuggleOriginUrl(url, None);
    var pairs := ParseQsl(QueryOf(unsmuggled.0));
    match FirstValue(pairs, "playlistId")
    case None => Failure(MissingKey("playlistId"))
    case Some(videoId) =>
      match FirstValue(pairs, "integrationId")
      case None => Failure(MissingKey("integrationId"))
      case Some(integration) => Success(EmbedTarget(videoId, integration, unsmuggled.1))
  }

  /** `GlomexEmbedIE._real_extract`, with the JSON download given as `fetch`. */
  function ExtractEmbed(url: string, fetch: ApiRequest -> Result<ApiResponse, Error>, tools: FormatTools): Result<Extraction, Error> {
    var target :- ParsePlayerUrl(url);
    var response :- fetch(DownloadApiRequest(target.videoId, target.integration, target.originUrl));
    ExtractResponse(target.videoId, response, tools)
  }

  lemma PlayerQuery(videoId: string, integration: string)
    ensures QueryOf(BuildPlayerUrl(videoId, integration, None))
         == Urlencode([("playlistId", videoId), ("integrationId", integration)])
  {
    var pairs := [("playlistId", videoId), ("integrationId", integration)];
    UrlencodeExcludes(pairs, '#');
    BasePlayerUrlPlain();
    QueryOfAt(BasePlayerUrl, Urlencode(pairs));
  }

  /**
   * Reading any player URL: after unsmuggling, the first `playlistId` and the first `integrationId`
   * of its query, wherever they stand among other parameters, are the ids, and the origin is the
   * unsmuggled one.
   */
  lemma ReadPlayerUrl(url: string, plain: string, originUrl: Option<string>, j: nat, videoId: string, k: nat, integration: string)
    requires UnsmuggleOriginUrl(url, None) == Success((plain, originUrl))
    requires var pairs := ParseQsl(QueryOf(plain));
      && j < |pairs| && pairs[j] == ("playlistId", videoId) && (forall m :: 0 <= m < j ==> pairs[m].0 != "playlistId")
      && k < |pairs| && pairs[k] == ("integrationId", integration) && (forall m :: 0 <= m < k ==> pairs[m].0 != "integrationId")
    ensures ParsePlayerUrl(url) == Success(EmbedTarget(videoId, integration, originUrl))
  {
    var pairs := ParseQsl(QueryOf(plain));
    FirstValueAt(pairs, "playlistId", j);
    FirstValueAt(pairs, "integrationId", k);
  }

  /** The query a built player URL holds: the two ids, `playlistId` first. */
  lemma ReadTwoPairs(url: string, plain: string, originUrl: Option<string>, videoId: string, integration: string)
    requires UnsmuggleOriginUrl(url, None) == Success((plain, originUrl))
    requires ParseQsl(QueryOf(plain)) == [("playlistId", videoId), ("integrationId", integration)]
    ensures ParsePlayerUrl(url) == Success(EmbedTarget(videoId, integration, originUrl))
  {
    assert |"playlistId"| != |"integrationId"|;
    ReadPlayerUrl(url, plain, originUrl, 0, videoId, 1, integration);
  }

  /** A query without `playlistId`, or with it but without `integrationId`, raises the key error for the missing name. */
  lemma ReadPlayerUrlMissing(url: string, plain: string, originUrl: Option<string>)
    requires UnsmuggleOriginUrl(url, None) == Success((plain, originUrl))
    ensures var pairs := ParseQsl(QueryOf(plain));
      (forall m :: 0 <= m < |pairs| ==> pairs[m].0 != "playlistId") ==>
        ParsePlayerUrl(url) == Failure(MissingKey("playlistId"))
    ensures var pairs := ParseQsl(QueryOf(plain));
      (exists m :: 0 <= m < |pairs| && pairs[m].0 == "playlistId") &&
      (forall m :: 0 <= m < |pairs| ==> pairs[m].0 != "integrationId") ==>
        ParsePlayerUrl(url) == Failure(MissingKey("integrationId"))
  {
    var pairs := ParseQsl(QueryOf(plain));
    if forall m :: 0 <= m < |pairs| ==> pairs[m].0 != "playlistId" {
      NoPlaylistId(url, plain, originUrl);
    }
    if (exists m :: 0 <= m < |pairs| && pairs[m].0 == "playlistId") && (forall m :: 0 <= m < |pairs| ==> pairs[m].0 != "integrationId") {
      NoIntegrationId(url, plain, originUrl);
    }
  }

  lemma NoPlaylistId(url: string, plain: string, originUrl: Option<string>)
    requires UnsmuggleOriginUrl(url, None) == Success((plain, originUrl))
    requires FirstValue(ParseQsl(QueryOf(plain)), "playlistId").None?
    ensures ParsePlayerUrl(url) == Failure(MissingKey("playlistId"))
  {
  }

  lemma NoIntegrationId(url: string, plain: string, originUrl: Option<string>)
    requires UnsmuggleOriginUrl(url, None) == Success((plain, originUrl))
    requires FirstValue(ParseQsl(QueryOf(plain)), "playlistId").Some?
    requires FirstValue(ParseQsl(QueryOf(plain)), "integrationId").None?
    ensures ParsePlayerUrl(url) == Failure(MissingKey("integrationId"))
  {
  }

  /** A malformed side channel is reported before the query is read. */
  lemma ReadPlayerUrlMalformed(url: string)
    requires UnsmuggleOriginUrl(url, None).Failure?
    ensures ParsePlayerUrl(url) == Failure(UnsmuggleOriginUrl(url, None).error)
  {
  }

  /** Unsmuggling a built player URL gives the plain URL and the origin it was built with, or the default origin. */
  lemma PlayerUrlUnsmuggle(videoId: string, integration: string, originUrl: Option<string>)
    ensures UnsmuggleOriginUrl(BuildPlayerUrl(videoId, integration, originUrl), None)
         == Success((BuildPlayerUrl(videoId, integration, None), if originUrl.Some? then originUrl else Some(DefaultOriginUrl)))
  {
    PlainPlayerUrl(videoId, integration);
    if originUrl.Some? {
      PlayerUrlShape(videoId, integration, originUrl, None);
    } else {
      UnsmuggleOriginFallback(BuildPlayerUrl(videoId, integration, None), None);
    }
  }

  lemma QueryNamesAscii()
    ensures AllAscii("playlistId") && AllAscii("integrationId")
  {
  }

  lemma ParseTwoPairs(first: (string, string), second: (string, string))
    requires Encodable(first) && Encodable(second)
    ensures ParseQsl(Urlencode([first, second])) == [first, second]
  {
    ParseUrlencode([first, second]);
  }

  /** The query of the plain player URL reads back as the two pairs it was built from. */
  lemma PlayerUrlPairs(videoId: string, integration: string)
    requires AllAscii(videoId) && AllAscii(integration) && videoId != [] && integration != []
    ensures ParseQsl(QueryOf(BuildPlayerUrl(videoId, integration, None)))
         == [("playlistId", videoId), ("integrationId", integration)]
  {
    PlayerQuery(videoId, integration);
    QueryNamesAscii();
    ParseTwoPairs(("playlistId", videoId), ("integrationId", integration));
  }

  /**
   * The round trip: reading a built player URL back gives its ids, and the smuggled origin,
   * or the default origin when none was given.
   */
  lemma PlayerUrlRoundTrip(videoId: string, integration: string, originUrl: Option<string>)
    requires AllAscii(videoId) && AllAscii(integration) && videoId != [] && integration != []
    ensures ParsePlayerUrl(BuildPlayerUrl(videoId, integration, originUrl))
         == Success(EmbedTarget(videoId, integration, if originUrl.Some? then originUrl else Some(DefaultOriginUrl)))
  {
    PlayerUrlUnsmuggle(videoId, integration, originUrl);
    PlayerUrlPairs(videoId, integration);
    ReadTwoPairs(BuildPlayerUrl(videoId, integration, originUrl), BuildPlayerUrl(videoId, integration, None),
      if originUrl.Some? then originUrl else Some(DefaultOriginUrl), videoId, integration);
  }

  /** `parse_qs` drops a blank value, so a player URL built for an empty id cannot be read back. */
  lemma EmptyIdUnreadable(integration: string, originUrl: Option<string>)
    ensures ParsePlayerUrl(BuildPlayerUrl([], integration, originUrl)) == Failure(MissingKey("playlistId"))
  {
    BlankIdQuery([], integration);
    PlayerUrlUnsmuggle([], integration, originUrl);
    ReadPlayerUrlMissing(BuildPlayerUrl([], integration, originUrl), BuildPlayerUrl([], integration, None),
      if originUrl.Some? then originUrl else Some(DefaultOriginUrl));
  }

  /** The query of a player URL built for a blank id has no `playlistId` left once parsed. */
  lemma BlankIdQuery(videoId: string, integration: string)
    requires videoId == []
    ensures var pairs := ParseQsl(QueryOf(BuildPlayerUrl(videoId, integration, None)));
      forall m :: 0 <= m < |pairs| ==> pairs[m].0 != "playlistId"
  {
    PlayerQuery(videoId, integration);
    QueryNamesAscii();
    BlankValueNames(("playlistId", videoId), ("integrationId", integration));
    assert "integrationId" != "playlistId" by {
      assert |"playlistId"| != |"integrationId"|;
    }
  }

  /** One match of the embed pattern, as its optional capture groups. */
  datatype EmbedMatch = EmbedMatch(
    url: Option<string>,
    htmlTag: Option<string>,
    idHtml: Option<string>,
    integrationHtml: Option<string>,
    glomexPlayer: Option<string>,
    scriptTag: Option<string>,
    idJs: Option<string>,
    integrationJs: Option<string>)

  /**
   * The decision for one match: an iframe URL with the page origin, a player URL built from an
   * element's or a script's ids (with the `url` group as its origin), or nothing.
   */
  function EmbedCandidate(m: EmbedMatch, originUrl: Option<string>, unescape: string -> string): Option<string> {
    if Truthy(m.url) then Some(SmuggleOriginUrl(unescape(m.url.value), originUrl))
    else if Truthy(m.htmlTag) then
      if m.htmlTag.value == "div" && !Truthy(m.glomexPlayer) then None
      else if !Truthy(m.idHtml) || !Truthy(m.integrationHtml) then None
      else Some(BuildPlayerUrl(m.idHtml.value, m.integrationHtml.value, m.url))
    else if Truthy(m.scriptTag) then
      if !Truthy(m.idJs) || !Truthy(m.integrationJs) then None
      else Some(BuildPlayerUrl(m.idJs.value, m.integrationJs.value, m.url))
    else None
  }

  /** The candidates of the matches, in document order. */
  function EmbedUrls(matches: seq<EmbedMatch>, originUrl: Option<string>, unescape: string -> string): (urls: seq<string>)
    ensures |urls| <= |matches|
  {
    if matches == [] then []
    else
      var last := EmbedCandidate(matches[|matches| - 1], originUrl, unescape);
      EmbedUrls(matches[..|matches| - 1], originUrl, unescape) + (if last.Some? then [last.value] else [])
  }

  /** `_extract_urls`: the loop over the matches, with `continue` for a skipped one and a yield for a kept one. */
  method ExtractUrls(matches: seq<EmbedMatch>, originUrl: Option<string>, unescape: string -> string) returns (urls: seq<string>)
    ensures urls == EmbedUrls(matches, originUrl, unescape)
    ensures forall u :: u in urls ==> exists k :: 0 <= k < |matches| && EmbedCandidate(matches[k], originUrl, unescape) == Some(u)
  {
    urls := [];
    for k := 0 to |matches|
      invariant urls == EmbedUrls(matches[..k], originUrl, unescape)
    {
      assert matches[..k + 1][..k] == matches[..k];
      var m := matches[k];
      if Truthy(m.url) {
        urls := urls + [SmuggleOriginUrl(unescape(m.url.value), originUrl)];
      } else if Truthy(m.htmlTag) {
        if m.htmlTag.value == "div" && !Truthy(m.glomexPlayer) {
          continue;
        }
        if !Truthy(m.idHtml) || !Truthy(m.integrationHtml) {
          continue;
        }
        urls := urls + [BuildPlayerUrl(m.idHtml.value, m.integrationHtml.value, m.url)];
      } else if Truthy(m.scriptTag) {
        if !Truthy(m.idJs) || !Truthy(m.integrationJs) {
          continue;
        }
        urls := urls + [BuildPlayerUrl(m.idJs.value, m.integrationJs.value, m.url)];
      }
    }
    assert matches[..|matches|] == matches;
    EmbedUrlsFrom(matches, originUrl, unescape);
  }

  /** Every candidate comes from one of the matches. */
  lemma {:induction false} EmbedUrlsFrom(matches: seq<EmbedMatch>, originUrl: Option<string>, unescape: string -> string)
    ensures forall u :: u in EmbedUrls(matches, originUrl, unescape) ==>
              exists k :: 0 <= k < |matches| && EmbedCandidate(matches[k], originUrl, unescape) == Some(u)
  {
    if matches != [] {
      var front := matches[..|matches| - 1];
      EmbedUrlsFrom(front, originUrl, unescape);
      forall u | u in EmbedUrls(matches, originUrl, unescape)
        ensures exists k :: 0 <= k < |matches| && EmbedCandidate(matches[k], originUrl, unescape) == Some(u)
      {
        if u in EmbedUrls(front, originUrl, unescape) {
          var k :| 0 <= k < |front| && EmbedCandidate(front[k], originUrl, unescape) == Some(u);
          assert front[k] == matches[k];
        } else {
          assert EmbedCandidate(matches[|matches| - 1], originUrl, unescape) == Some(u);
        }
      }
    }
  }

  /** The scan keeps document order: the candidates of two consecutive stretches of matches are joined. */
  lemma {:induction false} EmbedUrlsAppend(a: seq<EmbedMatch>, b: seq<EmbedMatch>, originUrl: Option<string>, unescape: string -> string)
    ensures EmbedUrls(a + b, originUrl, unescape) == EmbedUrls(a, originUrl, unescape) + EmbedUrls(b, originUrl, unescape)
    decreases |b|
  {
    if b == [] {
      assert a + b == a;
    } else {
      var b' := b[..|b| - 1];
      assert (a + b)[..|a + b| - 1] == a + b';
      EmbedUrlsAppend(a, b', originUrl, unescape);
    }
  }

  /** An iframe match yields its unescaped URL carrying the page origin, which unsmuggling gives back. */
  lemma IframeCandidate(m: EmbedMatch, originUrl: Option<string>, unescape: string -> string, fallbackOriginUrl: Option<string>)
    requires Truthy(m.url)
    ensures EmbedCandidate(m, originUrl, unescape) == Some(SmuggleOriginUrl(unescape(m.url.value), originUrl))
    ensures !HasInfix(unescape(m.url.value), SmuggleMarker) ==>
      UnsmuggleOriginUrl(EmbedCandidate(m, originUrl, unescape).value, fallbackOriginUrl)
        == Success((unescape(m.url.value), originUrl))
  {
    if !HasInfix(unescape(m.url.value), SmuggleMarker) {
      OriginRoundTrip(unescape(m.url.value), originUrl, fallbackOriginUrl);
    }
  }

  /** A `div` without the player marker is skipped, whatever ids it carries. */
  lemma UnmarkedDivSkipped(m: EmbedMatch, originUrl: Option<string>, unescape: string -> string)
    requires !Truthy(m.url) && m.htmlTag == Some("div") && !Truthy(m.glomexPlayer)
    ensures EmbedCandidate(m, originUrl, unescape) == None
  {
  }

  /** An element match is kept exactly when it has both ids and is not an unmarked `div`. */
  lemma ElementCandidate(m: EmbedMatch, originUrl: Option<string>, unescape: string -> string)
    requires !Truthy(m.url) && Truthy(m.htmlTag)
    ensures EmbedCandidate(m, originUrl, unescape).Some? <==>
              !(m.htmlTag.value == "div" && !Truthy(m.glomexPlayer)) && Truthy(m.idHtml) && Truthy(m.integrationHtml)
    ensures EmbedCandidate(m, originUrl, unescape).Some? ==>
              EmbedCandidate(m, originUrl, unescape).value == BuildPlayerUrl(m.idHtml.value, m.integrationHtml.value, m.url)
  {
  }

  /** A script match is kept exactly when it has both ids. */
  lemma ScriptCandidate(m: EmbedMatch, originUrl: Option<string>, unescape: string -> string)
    requires !Truthy(m.url) && !Truthy(m.htmlTag) && Truthy(m.scriptTag)
    ensures EmbedCandidate(m, originUrl, unescape).Some? <==> Truthy(m.idJs) && Truthy(m.integrationJs)
    ensures EmbedCandidate(m, originUrl, unescape).Some? ==>
              EmbedCandidate(m, originUrl, unescape).value == BuildPlayerUrl(m.idJs.value, m.integrationJs.value, m.url)
  {
  }

  /**
   * When the iframe group did not take part in the match (`url` is `None`), a built candidate carries
   * no origin: unsmuggling it gives it back with the fallback, and it reads back to its own ids.
   */
  lemma BuiltCandidateWithoutOrigin(m: EmbedMatch, originUrl: Option<string>, unescape: string -> string, fallbackOriginUrl: Option<string>)
    requires m.url.None? && EmbedCandidate(m, originUrl, unescape).Some?
    ensures var c := EmbedCandidate(m, originUrl, unescape).value;
      && !HasInfix(c, SmuggleMarker)
      && UnsmuggleOriginUrl(c, fallbackOriginUrl) == Success((c, Some(OriginOrDefault(fallbackOriginUrl))))
  {
    var c := EmbedCandidate(m, originUrl, unescape).value;
    if Truthy(m.htmlTag) {
      PlainPlayerUrl(m.idHtml.value, m.integrationHtml.value);
    } else {
      PlainPlayerUrl(m.idJs.value, m.integrationJs.value);
    }
  }

  /** A marked element with ASCII ids is resolved against exactly those ids and the default origin. */
  lemma ElementCandidateResolves(m: EmbedMatch, originUrl: Option<string>, unescape: string -> string)
    requires m.url.None? && Truthy(m.htmlTag) && EmbedCandidate(m, originUrl, unescape).Some?
    requires AllAscii(m.idHtml.value) && AllAscii(m.integrationHtml.value)
    ensures ParsePlayerUrl(EmbedCandidate(m, originUrl, unescape).value)
         == Success(EmbedTarget(m.idHtml.value, m.integrationHtml.value, Some(DefaultOriginUrl)))
  {
    PlayerUrlRoundTrip(m.idHtml.value, m.integrationHtml.value, None);
  }

  /** No candidate of a page without iframe matches carries an origin. */
  lemma {:induction false} NoIframeNoOrigin(matches: seq<EmbedMatch>, originUrl: Option<string>, unescape: string -> string)
    requires forall k :: 0 <= k < |matches| ==> matches[k].url.None?
    ensures forall u :: u in EmbedUrls(matches, originUrl, unescape) ==> !HasInfix(u, SmuggleMarker)
  {
    EmbedUrlsFrom(matches, originUrl, unescape);
    forall u | u in EmbedUrls(matches, originUrl, unescape)
      ensures !HasInfix(u, SmuggleMarker)
    {
      var k :| 0 <= k < |matches| && EmbedCandidate(matches[k], originUrl, unescape) == Some(u);
      BuiltCandidateWithoutOrigin(matches[k], originUrl, unescape, None);
    }
  }
}
