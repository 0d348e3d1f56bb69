# Glomex extractor model

A Dafny model of the decision and data-shaping logic of youtube-dl's Glomex extractors. The model covers:

- `GlomexBaseIE`. It picks the origin carried through the URL side channel. It classifies playlist ids by their prefix. It builds the API request and its `current_url` default. It shapes the API's JSON answer into a single video record or a playlist, including the geoblocking check, the item-to-record mapping and the format list.
- `GlomexEmbedIE`. It builds player URLs (`build_player_url`). It decides, for each match of the embed pattern in a web page, whether to yield an iframe URL, yield a built player URL, or skip (`_extract_urls`). It reads a player URL back into the API call it stands for (`_real_extract`).
- `GlomexIE`. It matches a `video.glomex.com` page URL and hands it over to the embed extractor, with a fixed integration and the page URL as origin.

Modules, following the program's structure:

- `Wrappers` and `Errors` hold `Option`, `Result`, and the ways an extraction fails. A missing key stands for Python's `KeyError`. The other errors are "no videos", geo-restriction with its countries, a malformed side-channel payload, a URL the pattern refuses, and a transport error.
- `Text` models the Python string operations the code relies on: `partition`, `rpartition`, `split`, `in` and `startswith`.
- `Json` holds a JSON scalar value and `int_or_none`.
- `UrlCodec` models `quote_plus`/`urlencode`, `unquote_plus`/`parse_qsl` and the query part of `urlparse`.
- `Smuggling` is a concrete codec for `smuggle_url`/`unsmuggle_url`, restricted to the one `origin` entry the extractor sends.
- `ApiData` holds the decoded API response.
- `Formats` is `_extract_formats`, as a method with its loop, proved against a specification function.
- `GlomexBase`, `GlomexEmbed` and `Glomex` model the three extractor classes. `GlomexEmbed.ExtractUrls` is the generator loop of `_extract_urls`, as a method that accumulates a sequence.

These are left abstract and passed in as parameters:

- the JSON download (`fetch`);
- `determine_ext(url) == 'm3u8'`;
- the HLS manifest parser;
- the quality key of `_sort_formats`;
- `unescapeHTML`.

## Model

| member | source | states |
|---|---|---|
| GlomexBase.UnsmuggleOriginFallback | youtube_dl/extractor/glomex.py:32-36 | a URL without a payload comes back unchanged; its origin is the fallback when truthy, else `https://player.glomex.com/` |
| GlomexBase.OriginRoundTrip | youtube_dl/extractor/glomex.py:28-36 | a smuggled origin, `None` included, is unsmuggled exactly and wins over any fallback |
| GlomexBase.ApiQueryCurrentUrl | youtube_dl/extractor/glomex.py:38-43 | the API query names the playlist id and integration; `current_url` is the given URL, or the default origin when it is absent or empty |
| GlomexBase.VideoIdTypeByPrefix | youtube_dl/extractor/glomex.py:74-75 | only the text before the first `-` decides the type |
| GlomexBase.VideoIdTypeKnown | youtube_dl/extractor/glomex.py:67-75 | `v-`, `pl-`, `rl-`, `cl-` ids are video, playlist, related videos playlist, curated playlist |
| GlomexBase.VideoIdTypeUnknown | youtube_dl/extractor/glomex.py:74-75 | any other prefix gives `unknown type` |
| GlomexBase.VideoIdTypeNoDash | youtube_dl/extractor/glomex.py:74-75 | a whole id without `-` that is not a known prefix gives `unknown type` |
| GlomexBase.ExtractInfoFields | youtube_dl/extractor/glomex.py:51-65 | the record succeeds exactly when the `title` key is present (even as `null`) or not required; id is `clip_id` when truthy, else the requested id; the title is the given one, or `None` for `null` or a missing key; description is passed through; duration is `int_or_none(clip_duration)`; timestamp is `created_at`; thumbnail is exactly the image URL followed by `/profile:player-960x540`, or `None` followed by it |
| GlomexBase.ThumbnailWithoutImage | youtube_dl/extractor/glomex.py:55-56 | with no image URL the thumbnail is `None/profile:player-960x540` |
| GlomexBase.Geoblocked | youtube_dl/extractor/glomex.py:77-79 | a geoblocked item always fails, before anything is built: with its `geo_locations` as the countries, `None` countries for `null`, and a key error when the key is missing |
| GlomexBase.NotGeoblocked | youtube_dl/extractor/glomex.py:77-82 | any other item fails on a missing `title` key, then on a missing source, else yields its record with its format list |
| GlomexBase.ExtractAll | youtube_dl/extractor/glomex.py:92-95 | the comprehension, when it succeeds, has one record per video |
| GlomexBase.ExtractAllEach | youtube_dl/extractor/glomex.py:92-95 | the comprehension succeeds exactly when every item does, and then holds the item records in order |
| GlomexBase.ExtractAllFirstError | youtube_dl/extractor/glomex.py:92-95 | a failing comprehension raises the error of its first failing item |
| GlomexBase.HeadFails | youtube_dl/extractor/glomex.py:92-95 | a failing first item fails the comprehension with its error |
| GlomexBase.TailFails | youtube_dl/extractor/glomex.py:92-95 | after a succeeding first item, a failing rest fails the comprehension with the rest's error |
| GlomexBase.NoVideosFound | youtube_dl/extractor/glomex.py:86-88 | an empty or `null` `videos` fails with `no videos found for <id>`; a missing `videos` key is a key error |
| GlomexBase.OneVideo | youtube_dl/extractor/glomex.py:89-90 | one video gives that video's single record, or its error |
| GlomexBase.SeveralVideos | youtube_dl/extractor/glomex.py:91-99 | n > 1 videos give a playlist of n records in order, with the requested id and the first record's title and description |
| GlomexBase.GeoblockedResponse | youtube_dl/extractor/glomex.py:77-90 | a geoblocked single video with a `geo_locations` key makes the whole extraction fail with its countries |
| Formats.ExtractFormats | youtube_dl/extractor/glomex.py:101-115 | the loop's list, sorted, equals the format-list specification; it is sorted by the quality key, a permutation of the collected formats, and fails exactly when `source` is missing |
| Formats.CollectAppend | youtube_dl/extractor/glomex.py:103-113 | formats are collected in source order: a joined source gives the joined formats |
| Formats.CollectDirect | youtube_dl/extractor/glomex.py:109-113 | without manifests each entry gives exactly one format with its URL and format id, in order |
| Formats.ManifestEntry | youtube_dl/extractor/glomex.py:105-108 | an `m3u8` entry contributes exactly what the manifest parser returns, possibly nothing |
| Formats.DirectEntryGivesFormat | youtube_dl/extractor/glomex.py:109-114 | a direct entry's format is in the final list |
| Formats.SortFormats | youtube_dl/extractor/glomex.py:114 | the sorted list is ordered by the quality key and is a permutation of its input |
| Formats.InsertSorted | youtube_dl/extractor/glomex.py:114 | inserting into a sorted list keeps it sorted |
| Formats.InsertPermutes | youtube_dl/extractor/glomex.py:114 | inserting adds exactly one format |
| GlomexEmbed.BasePlayerUrlPlain | youtube_dl/extractor/glomex.py:169 | the base player URL has no `?` and no `#` |
| GlomexEmbed.PlainPlayerUrl | youtube_dl/extractor/glomex.py:198-202 | a player URL built without an origin holds no `#`, so no payload |
| GlomexEmbed.PlayerUrlShape | youtube_dl/extractor/glomex.py:196-205 | every player URL starts with the base URL and `?`; it carries a payload only when an origin is given, and that origin unsmuggles exactly |
| GlomexEmbed.PlayerQuery | youtube_dl/extractor/glomex.py:198-202 | the query of a plain player URL is the encoded `playlistId`/`integrationId` pair list |
| GlomexEmbed.PlayerUrlPairs | youtube_dl/extractor/glomex.py:198-202 | for non-empty ASCII ids, parsing that query gives back exactly the two pairs |
| GlomexEmbed.PlayerUrlUnsmuggle | youtube_dl/extractor/glomex.py:203-204 | unsmuggling a built URL gives the plain URL and the given origin, or the default origin |
| GlomexEmbed.ReadPlayerUrl | youtube_dl/extractor/glomex.py:258-265 | a URL whose unsmuggled query holds a `playlistId` and an `integrationId` anywhere among other parameters is read as the first value of each and the unsmuggled origin; this is the program's reading only when the id needs no encoding and `playlistId` occurs once (see the `assert embed_id == video_id` line under Left out) |
| GlomexEmbed.ReadTwoPairs | youtube_dl/extractor/glomex.py:258-265 | in the model, a query of exactly the two id pairs, as built, is read as those ids; the program agrees only when the raw `playlistId` text is its decoded value (see the `assert embed_id == video_id` line under Left out) |
| GlomexEmbed.ReadPlayerUrlMissing | youtube_dl/extractor/glomex.py:258-265 | a query without `playlistId` fails with that missing key; in the model, one with it but without `integrationId` fails with that one, where the program first stops at its assert when the raw `playlistId` text differs from its decoded value |
| GlomexEmbed.NoPlaylistId | youtube_dl/extractor/glomex.py:261-262 | no `playlistId` value is a key error for it |
| GlomexEmbed.NoIntegrationId | youtube_dl/extractor/glomex.py:261-265 | in the model, a `playlistId` value without an `integrationId` value is a key error for the latter; the program raises it only when the raw `playlistId` text is its decoded value, and otherwise stops at its assert |
| GlomexEmbed.ReadPlayerUrlMalformed | youtube_dl/extractor/glomex.py:258-259 | a malformed payload is reported before the query is read |
| GlomexEmbed.PlayerUrlRoundTrip | youtube_dl/extractor/glomex.py:196-205 | for non-empty ASCII ids, a built URL reads back in the model to its ids and origin, or the default origin; the program agrees only for ids `quote_plus` leaves unchanged (see the `assert embed_id == video_id` line under Left out) |
| GlomexEmbed.EmptyIdUnreadable | youtube_dl/extractor/glomex.py:261-262 | in the model, a URL built for an empty id fails with a missing `playlistId`, because blank values are dropped; the program fails earlier, at its embed URL match, which needs a non-empty value |
| GlomexEmbed.BlankIdQuery | youtube_dl/extractor/glomex.py:198-202 | the query built for an empty id parses to no `playlistId` pair |
| GlomexEmbed.EmbedUrls | youtube_dl/extractor/glomex.py:239-256 | the candidates number at most the matches |
| GlomexEmbed.ExtractUrls | youtube_dl/extractor/glomex.py:239-256 | the loop yields the candidates of the matches in document order, each from one of the matches |
| GlomexEmbed.EmbedUrlsFrom | youtube_dl/extractor/glomex.py:239-256 | every candidate comes from some match |
| GlomexEmbed.EmbedUrlsAppend | youtube_dl/extractor/glomex.py:239-256 | the scan keeps document order over consecutive stretches of the page |
| GlomexEmbed.IframeCandidate | youtube_dl/extractor/glomex.py:245-246 | an iframe match yields its unescaped URL smuggled with the page origin, which unsmuggles back exactly |
| GlomexEmbed.UnmarkedDivSkipped | youtube_dl/extractor/glomex.py:248-249 | a `div` without the `glomex_player` group is skipped |
| GlomexEmbed.ElementCandidate | youtube_dl/extractor/glomex.py:247-252 | an element match is kept exactly when it is not an unmarked `div` and has both ids, and is then the built player URL |
| GlomexEmbed.ScriptCandidate | youtube_dl/extractor/glomex.py:253-256 | a script match is kept exactly when it has both ids, and is then the built player URL |
| GlomexEmbed.BuiltCandidateWithoutOrigin | youtube_dl/extractor/glomex.py:250-256 | with the `url` group absent, a built candidate carries no payload and unsmuggles to itself with the fallback origin |
| GlomexEmbed.ElementCandidateResolves | youtube_dl/extractor/glomex.py:252 | in the model, an element candidate with ASCII ids reads back to those ids and the default origin; the program agrees only for ids `quote_plus` leaves unchanged, since `id_html` is copied raw and its decoded value then differs at the assert |
| GlomexEmbed.NoIframeNoOrigin | youtube_dl/extractor/glomex.py:247-256 | a page without iframe matches yields no candidate with a payload |
| Glomex.MatchedIdShape | youtube_dl/extractor/glomex.py:121 | a matched id is `v-` followed by a non-empty run without `-`, so its type is video |
| Glomex.MatchVideoIdOf | youtube_dl/extractor/glomex.py:121 | every URL of the pattern's shape, with either scheme, is matched with the id it spells |
| Glomex.WrongSchemeRefused | youtube_dl/extractor/glomex.py:121 | a URL with neither scheme is refused |
| Glomex.RedirectReadsBack | youtube_dl/extractor/glomex.py:154-163 | the result names the embed extractor and the matched id; its URL reads back to that id, integration `19syy24xjn1oqlpc`, and the page URL as origin, in the model; the program's embed step agrees only when the matched id needs no encoding (see the `assert embed_id == video_id` line under Left out) |
| Glomex.RedirectRequest | youtube_dl/extractor/glomex.py:38-49 | the resulting API call asks for the matched id under the fixed integration, with the page URL as `current_url`, as a video |
| Glomex.RedirectExtracts | youtube_dl/extractor/glomex.py:154-163 | following the hand-over makes that call and shapes its answer under the matched id, in the model; for a matched id that `quote_plus` changes, the program stops at its assert instead |
| Smuggling.UnsmugglePlain | youtube_dl/extractor/glomex.py:35 | a URL without `#` is returned unchanged with the default |
| Smuggling.UnsmuggleSmuggle | youtube_dl/extractor/glomex.py:28-36 | unsmuggling a smuggled URL gives back the URL and the origin |
| Smuggling.FieldDecodes | youtube_dl/extractor/glomex.py:30 | the smuggled field starts with the key and its payload decodes to the origin |
| Smuggling.UnescapeEscape | youtube_dl/extractor/glomex.py:30 | the payload escape is undone exactly |
| Smuggling.DecodeEncodePayload | youtube_dl/extractor/glomex.py:30 | the payload decodes to the origin it encodes |
| UrlCodec.QuotePlus | youtube_dl/extractor/glomex.py:198-201 | the encoded text holds only unreserved characters (Python 3.7 and later, `~` included), `+` and `%`, and is empty exactly when its input is |
| UrlCodec.QuotePlusIdentity | youtube_dl/extractor/glomex.py:198-201 | URL-safe text is encoded as itself |
| UrlCodec.UnquoteQuotePlus | youtube_dl/extractor/glomex.py:198-201 | decoding undoes encoding for ASCII text |
| UrlCodec.ParseUrlencode | youtube_dl/extractor/glomex.py:198-201 | parsing an encoded query of ASCII pairs with non-empty values gives back the pairs |
| UrlCodec.BlankValueDropped | youtube_dl/extractor/glomex.py:261 | a pair with an empty value is encoded but dropped when parsed |
| UrlCodec.BlankValueNames | youtube_dl/extractor/glomex.py:261 | after a blank pair, only the other pair's name can be parsed |
| UrlCodec.ParseUrlencodeCons | youtube_dl/extractor/glomex.py:198-201 | a pair put in front of a query that reads back still reads back |
| UrlCodec.FirstValue | youtube_dl/extractor/glomex.py:261-265 | the value is found exactly when the name occurs, and belongs to the first pair with that name |
| UrlCodec.FirstValueAt | youtube_dl/extractor/glomex.py:261-265 | the value of a name is that of its first occurrence, wherever it stands |
| UrlCodec.QueryOfAt | youtube_dl/extractor/glomex.py:261 | the query of `base?query` is `query` when neither part has `#` and the base has no `?` |
| Text.Split | youtube_dl/extractor/glomex.py:74 | the split is never empty and no part holds the separator |
| Text.JoinSplit | youtube_dl/extractor/glomex.py:74 | joining the parts of a split with the separator gives back the text |
| Text.PartitionAt | youtube_dl/extractor/glomex.py:74 | a text is partitioned at its first separator |
| Text.PartitionWithout | youtube_dl/extractor/glomex.py:74 | a text without the separator is its own head, with nothing found |
| Text.RPartitionAt | youtube_dl/extractor/glomex.py:35 | a text is partitioned at its last separator |
| Json.IntOrNoneDecimal | youtube_dl/extractor/glomex.py:63 | a natural number and its decimal text both coerce to that number |
| Json.IntOrNoneSigned | youtube_dl/extractor/glomex.py:63 | a decimal text with a `-` or `+` sign coerces to the signed number, and a negative number coerces to itself |
| Json.IntOrNoneRejectsLetters | youtube_dl/extractor/glomex.py:63 | a text with an ASCII letter anywhere coerces to nothing |

## Left out

- The JSON download (`_download_json`) and any network access are left out. The API answer is a parameter (`fetch`) returning a decoded `ApiResponse` or a transport error.
- The regular expressions `EMBED_RE` and the embed `_VALID_URL` are left out. `_extract_urls` works on abstract match records of the eight capture groups. `GlomexIE`'s own simple pattern is modelled (`Glomex.MatchVideoId`).
- `_match_id` on the embed URL (line 260) and the `assert embed_id == video_id` after it (line 264) are left out, since both need the embed `_VALID_URL` (line 170). The program therefore fails in cases where the model's read-back (`GlomexEmbed.ParsePlayerUrl`) succeeds:
  - The assert compares two different values: the pattern's `id` group, which is the raw, still-encoded text of the last `playlistId=` repetition, and `parse_qs(...)['playlistId'][0]`, the decoded first value. So an id that `quote_plus` changes (one holding `/`, `?`, `&` or a space, say, which `GlomexIE`'s `[^-]+` accepts) makes the program raise `AssertionError`. So does a query with two different `playlistId` values.
  - A URL built for an empty id (`?playlistId=&integrationId=...`) does not match the embed pattern at all, because every alternative needs a non-empty value. The program fails in `_match_id`, not with the `KeyError` the model reports (`GlomexEmbed.EmptyIdUnreadable`).
  - GlomexEmbed.PlayerUrlRoundTrip, GlomexEmbed.ReadPlayerUrl, GlomexEmbed.ReadTwoPairs, GlomexEmbed.ElementCandidateResolves, Glomex.RedirectReadsBack and Glomex.RedirectExtracts describe the program only for URL-safe ids (`UrlCodec.AllUnreserved`) with a single `playlistId`. For other ids they describe the model's read-back only.
  - The `integrationId` key error of GlomexEmbed.NoIntegrationId and of the second clause of GlomexEmbed.ReadPlayerUrlMissing is the program's only when the raw `playlistId` text equals its decoded value. Otherwise the program raises `AssertionError` first.
- `_match_integration` and its class-level compiled-pattern cache are left out; no logic here uses them.
- `smuggle_url`/`unsmuggle_url` (utils) are not part of this model. A concrete codec stands in for them. It carries only the `origin` entry, escapes `#` and `%`, and writes `null` for `None`, instead of JSON plus URL encoding.
- Smuggling.Smuggle: does not merge with a payload the URL already carries, as the real `smuggle_url` does. Every caller here smuggles into a fresh URL, or into an iframe URL whose existing payload is not modelled.
- UrlCodec.Unquote: decodes only `%XX` escapes below 128, so multi-byte UTF-8 escapes are left undecoded. The round-trip lemmas hold for ASCII ids.
- UrlCodec.ParseQsl: `;` is not a separator, and no whitespace is stripped from the URL as `urlsplit` does.
- `unescapeHTML` is left out. It is a parameter of the candidate selection.
- `determine_ext`, `_extract_m3u8_formats` and the quality comparator of `_sort_formats` are left out. They are parameters (`FormatTools`).
- Formats.SortFormats: orders by an integer rank and is a stable insertion sort. It does not model the error the framework's `_sort_formats` raises on an empty list, and stability is not stated as a property.
- JSON `null` is told apart from a missing key for three of the fields read with `[...]`: `title`, `geo_locations` and `videos`. On the fields read with `.get`, `None` stands for both, as it does in the code. Floats and nested values other than the fields read are left out.
- A `source` that is `null` is modelled as a missing key (`MissingKey("source")`), where the code fails with an `AttributeError` on `.items()`. A `geo_locations` or `title` of a JSON type other than the modelled one is left out.
- Json.IntOrNone: `int()` on text accepts an optional sign and ASCII digits with surrounding ASCII whitespace (`\t` to `\r`, `\x1c` to `\x1f`, space). Underscore separators, non-ASCII digits and non-ASCII whitespace are not modelled.
- UrlCodec.QuotePlus: follows `quote_plus` of Python 3.7 and later, where `~` is left unencoded; earlier versions encode it as `%7E`.
- The `_TESTS` fixtures are left out: they name URLs of another site.
- The source passes `created_at` through unchanged as the timestamp, and the model follows it (`ExtractInfoFields`); it is not coerced to an integer.
- The query of `build_player_url` is written in the dict's order, `playlistId` then `integrationId`.
- An abstract match record whose `url` group is an empty string (`Some("")`) gets that empty origin smuggled when its element or script candidate is built. A real regex match cannot produce it, because the iframe group is non-empty whenever it takes part.
