/**
 * The URL side channel (`smuggle_url` / `unsmuggle_url`): a payload appended to a URL behind
 * `#__youtubedl_smuggle=` so that it survives a plain URL hand-over. The payload here is
 * the single `origin` entry the extractor uses, an optional string.
 */
module Smuggling {
  import opened Wrappers
  import opened Errors
  import opened Text

  const SmuggleKey := "__youtubedl_smuggle"

  /** What `unsmuggle_url` looks for before it tries to decode anything. */
  const SmuggleMarker := "#" + SmuggleKey

  /** `%`-escapes `#` and `%` so that the payload holds no `#`. */
  function Escape(s: string): (r: string)
    ensures '#' !in r
  {
    if s == [] then []
    else if s[0] == '#' then "%23" + Escape(s[1..])
    else if s[0] == '%' then "%25" + Escape(s[1..])
    else [s[0]] + Escape(s[1..])
  }

  function Unescape(s: string): Option<string>
    decreases |s|
  {
    if s == [] then Some([])
    else if s[0] == '%' then
      if |s| >= 3 && s[1..3] == "23" then
        match Unescape(s[3..]) case Some(r) => Some("#" + r) case None => None
      else if |s| >= 3 && s[1..3] == "25" then
        match Unescape(s[3..]) case Some(r) => Some("%" + r) case None => None
      else None
    else
      match Unescape(s[1..]) case Some(r) => Some([s[0]] + r) case None => None
  }

  lemma {:induction false} UnescapeEscape(s: string)
    ensures Unescape(Escape(s)) == Some(s)
  {
    if s != [] {
      UnescapeEscape(s[1..]);
      var e := Escape(s);
      if s[0] == '#' || s[0] == '%' {
        assert e[1..3] == (if s[0] == '#' then "23" else "25") && e[3..] == Escape(s[1..]);
      } else {
        assert e[1..] == Escape(s[1..]);
      }
      assert s == [s[0]] + s[1..];
    }
  }

  /** The payload text: `null` for no origin, otherwise the escaped origin in quotes. */
  function EncodePayload(origin: Option<string>): (r: string)
    ensures '#' !in r
  {
    match origin
    case None => "null"
    case Some(s) => "\"" + Escape(s) + "\""
  }

  function DecodePayload(t: string): Option<Option<string>> {
    if t == "null" then Some(None)
    else if |t| >= 2 && t[0] == '"' && t[|t| - 1] == '"' then
      match Unescape(t[1..|t| - 1]) case Some(s) => Some(Some(s)) case None => None
    else None
  }

  lemma DecodeEncodePayload(origin: Option<string>)
    ensures DecodePayload(EncodePayload(origin)) == Some(origin)
  {
    if origin.Some? {
      var t := EncodePayload(origin);
      assert t[1..|t| - 1] == Escape(origin.value);
      UnescapeEscape(origin.value);
    }
  }

  /** What `smuggle_url` appends: `#`, the key, `=` and the payload. */
  function SmuggleSuffix(origin: Option<string>): string {
    "#" + SmuggleKey + "=" + EncodePayload(origin)
  }

  /** `smuggle_url(url, {'origin': origin})` for a URL that carries no payload yet. */
  function Smuggle(url: string, origin: Option<string>): string {
    url + SmuggleSuffix(origin)
  }

  /**
   * `unsmuggle_url(s, default)`: a URL without the marker comes back unchanged with `default`;
   * otherwise the payload after the last `#` is decoded, and a payload that does not decode raises.
   */
  function Unsmuggle(s: string, default: Option<string>): Result<(string, Option<string>), Error> {
    if !HasInfix(s, SmuggleMarker) then Success((s, default))
    else
      var (url, _, data) := RPartition(s, '#');
      var prefix := SmuggleKey + "=";
      if |data| >= |prefix| && data[..|prefix|] == prefix then
        match DecodePayload(data[|prefix|..])
        case Some(origin) => Success((url, origin))
        case None => Failure(MalformedPayload)
      else Failure(MalformedPayload)
  }

  /** A URL that carries no payload is handed back unchanged, with the caller's default. */
  lemma UnsmugglePlain(s: string, default: Option<string>)
    requires '#' !in s
    ensures Unsmuggle(s, default) == Success((s, default))
  {
    if HasInfix(s, SmuggleMarker) {
      InfixHead(s, SmuggleMarker);
    }
  }

  /** The appended text is `#` and then a `#`-free field, and it starts with the marker. */
  lemma SuffixShape(origin: Option<string>)
    ensures SmuggleSuffix(origin) == ['#'] + (SmuggleKey + "=" + EncodePayload(origin))
    ensures SmuggleSuffix(origin) == SmuggleMarker + ("=" + EncodePayload(origin))
    ensures '#' !in SmuggleKey + "=" + EncodePayload(origin)
  {
    FieldShape(EncodePayload(origin));
  }

  /** The same facts for any payload text without `#`. */
  lemma FieldShape(payload: string)
    requires '#' !in payload
    ensures "#" + SmuggleKey + "=" + payload == ['#'] + (SmuggleKey + "=" + payload)
    ensures "#" + SmuggleKey + "=" + payload == SmuggleMarker + ("=" + payload)
    ensures '#' !in SmuggleKey + "=" + payload
  {
    assert '#' !in SmuggleKey;
  }

  /** The field after the last `#` carries the key and decodes to the origin. */
  lemma FieldDecodes(origin: Option<string>)
    ensures var data := SmuggleKey + "=" + EncodePayload(origin);
      var prefix := SmuggleKey + "=";
      && |data| >= |prefix| && data[..|prefix|] == prefix
      && DecodePayload(data[|prefix|..]) == Some(origin)
  {
    var data := SmuggleKey + "=" + EncodePayload(origin);
    var prefix := SmuggleKey + "=";
    assert data == prefix + EncodePayload(origin);
    assert data[..|prefix|] == prefix && data[|prefix|..] == EncodePayload(origin);
    DecodeEncodePayload(origin);
  }

  /** Decoding after encoding gives back the URL and the payload, whatever the default. */
  lemma UnsmuggleSmuggle(url: string, origin: Option<string>, default: Option<string>)
    requires !HasInfix(url, SmuggleMarker)
    ensures Unsmuggle(Smuggle(url, origin), default) == Success((url, origin))
  {
    var data := SmuggleKey + "=" + EncodePayload(origin);
    var s := Smuggle(url, origin);
    SuffixShape(origin);
    assert s == url + SmuggleMarker + ("=" + EncodePayload(origin));
    InfixAt(url, SmuggleMarker, "=" + EncodePayload(origin));
    assert s == url + ['#'] + data;
    RPartitionAt(url, '#', data);
    FieldDecodes(origin);
  }
}
