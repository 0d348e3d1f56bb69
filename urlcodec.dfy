/**
 * Form encoding of query strings (`urlencode` with `quote_plus`), its reading back
 * (`parse_qsl` with `unquote_plus`), and the query component of a URL (`urlparse(url).query`).
 */
module UrlCodec {
  import opened Wrappers
  import opened Text

  /** The characters `quote_plus` leaves as they are, as of Python 3.7, where `~` joined them. */
  predicate IsUnreserved(c: char) {
    ('A' <= c <= 'Z') || ('a' <= c <= 'z') || ('0' <= c <= '9') || c == '_' || c == '.' || c == '-' || c == '~'
  }

  predicate AllUnreserved(s: string) {
    forall k :: 0 <= k < |s| ==> IsUnreserved(s[k])
  }

  predicate AllAscii(s: string) {
    forall k :: 0 <= k < |s| ==> (s[k] as int) < 128
  }

  /** What an encoded text is made of: unreserved characters, `+` and `%`. */
  predicate IsEncodedChar(c: char) {
    IsUnreserved(c) || c == '+' || c == '%'
  }

  function HexDigit(d: nat): (c: char)
    requires d < 16
    ensures IsUnreserved(c)
  {
    if d < 10 then ((d + '0' as int) as char) else ((d - 10 + 'A' as int) as char)
  }

  function HexValue(c: char): (r: Option<nat>)
    ensures r.Some? ==> r.value < 16
  {
    if '0' <= c <= '9' then Some(c as int - '0' as int)
    else if 'A' <= c <= 'F' then Some(c as int - 'A' as int + 10)
    else if 'a' <= c <= 'f' then Some(c as int - 'a' as int + 10)
    else None
  }

  lemma HexRoundTrip(d: nat)
    requires d < 16
    ensures HexValue(HexDigit(d)) == Some(d)
  {
  }

  /** The UTF-8 bytes of a character. */
  function Utf8(c: char): (bytes: seq<nat>)
    ensures 1 <= |bytes| <= 4
    ensures forall k :: 0 <= k < |bytes| ==> bytes[k] < 256
  {
    var cp := c as int;
    if cp < 0x80 then [cp]
    else if cp < 0x800 then [0xC0 + cp / 0x40, 0x80 + cp % 0x40]
    else if cp < 0x1_0000 then [0xE0 + cp / 0x1000, 0x80 + (cp / 0x40) % 0x40, 0x80 + cp % 0x40]
    else [0xF0 + cp / 0x4_0000 % 8, 0x80 + (cp / 0x1000) % 0x40, 0x80 + (cp / 0x40) % 0x40, 0x80 + cp % 0x40]
  }

  /** `%XX` escapes, upper-case hexadecimal, one per byte. */
  function PercentBytes(bytes: seq<nat>): (r: string)
    requires forall k :: 0 <= k < |bytes| ==> bytes[k] < 256
    ensures forall k :: 0 <= k < |r| ==> IsEncodedChar(r[k])
  {
    if bytes == [] then []
    else ['%', HexDigit(bytes[0] / 16), HexDigit(bytes[0] % 16)] + PercentBytes(bytes[1..])
  }

  function EncodeChar(c: char): (r: string)
    ensures r != []
    ensures forall k :: 0 <= k < |r| ==> IsEncodedChar(r[k])
  {
    if IsUnreserved(c) then [c]
    else if c == ' ' then "+"
    else PercentBytes(Utf8(c))
  }

  /** `quote_plus(s, safe='')`. */
  function QuotePlus(s: string): (r: string)
    ensures forall k :: 0 <= k < |r| ==> IsEncodedChar(r[k])
    ensures r == [] <==> s == []
  {
    if s == [] then [] else EncodeChar(s[0]) + QuotePlus(s[1..])
  }

  /** `unquote_plus(s)`: `+` is a space, `%XX` escapes of single-byte characters are decoded. */
  function Unquote(s: string): string
    decreases |s|
  {
    if s == [] then []
    else if s[0] == '+' then [' '] + Unquote(s[1..])
    else if s[0] == '%' && |s| >= 3 && HexValue(s[1]).Some? && HexValue(s[2]).Some?
        && HexValue(s[1]).value * 16 + HexValue(s[2]).value < 128 then
      [(HexValue(s[1]).value * 16 + HexValue(s[2]).value) as char] + Unquote(s[3..])
    else [s[0]] + Unquote(s[1..])
  }

  /** A character the encoder can never emit, such as `&`, `=`, `?` or `#`. */
  lemma QuotePlusExcludes(s: string, c: char)
    requires !IsEncodedChar(c)
    ensures c !in QuotePlus(s)
  {
  }

  /** Text made only of unreserved characters is encoded as itself. */
  lemma {:induction false} QuotePlusIdentity(s: string)
    requires AllUnreserved(s)
    ensures QuotePlus(s) == s
  {
    if s != [] {
      QuotePlusIdentity(s[1..]);
    }
  }

  lemma UnquoteEncodeChar(c: char, rest: string)
    requires (c as int) < 128
    ensures Unquote(EncodeChar(c) + rest) == [c] + Unquote(rest)
  {
    if IsUnreserved(c) {
      assert (EncodeChar(c) + rest)[1..] == rest;
    } else if c == ' ' {
      assert (EncodeChar(c) + rest)[1..] == rest;
    } else {
      var b := c as int;
      var e := ['%', HexDigit(b / 16), HexDigit(b % 16)];
      assert Utf8(c) == [b];
      assert PercentBytes([b]) == e + PercentBytes([]);
      assert EncodeChar(c) == e;
      HexRoundTrip(b / 16);
      HexRoundTrip(b % 16);
      var s := e + rest;
      assert s[3..] == rest;
      assert (b / 16 * 16 + b % 16) as char == c;
    }
  }

  /** Decoding undoes encoding on ASCII text. */
  lemma {:induction false} UnquoteQuotePlus(s: string)
    requires AllAscii(s)
    ensures Unquote(QuotePlus(s)) == s
  {
    if s != [] {
      UnquoteEncodeChar(s[0], QuotePlus(s[1..]));
      UnquoteQuotePlus(s[1..]);
    }
  }

  function EncodePair(p: (string, string)): string {
    QuotePlus(p.0) + "=" + QuotePlus(p.1)
  }

  /** `urlencode(pairs)`, the pairs in order, joined by `&`. */
  function Urlencode(pairs: seq<(string, string)>): string {
    if pairs == [] then []
    else if |pairs| == 1 then EncodePair(pairs[0])
    else EncodePair(pairs[0]) + "&" + Urlencode(pairs[1..])
  }

  /** The name-value pairs of the `&`-separated fields; a field without `=` or with an empty value is dropped. */
  function PairsOf(fields: seq<string>): seq<(string, string)> {
    if fields == [] then []
    else
      var rest := PairsOf(fields[1..]);
      var (name, found, value) := Partition(fields[0], '=');
      if !found || value == [] then rest
      else [(Unquote(name), Unquote(value))] + rest
  }

  /** `parse_qsl(qs)` with its defaults (blank values dropped, `&` the only separator). */
  function ParseQsl(qs: string): seq<(string, string)> {
    PairsOf(Split(qs, '&'))
  }

  /** `parse_qs(qs)[name][0]`: the first value given for `name`. */
  function FirstValue(pairs: seq<(string, string)>, name: string): (r: Option<string>)
    ensures r.Some? <==> exists k :: 0 <= k < |pairs| && pairs[k].0 == name
    ensures r.Some? ==> exists k :: 0 <= k < |pairs| && pairs[k] == (name, r.value)
                          && forall j :: 0 <= j < k ==> pairs[j].0 != name
  {
    if pairs == [] then None
    else if pairs[0].0 == name then Some(pairs[0].1)
    else
      var r := FirstValue(pairs[1..], name);
      assert forall k :: 1 <= k < |pairs| ==> pairs[1..][k - 1] == pairs[k];
      r
  }

  /** The first pair with the name gives the value. */
  lemma FirstValueAt(pairs: seq<(string, string)>, name: string, k: nat)
    requires k < |pairs| && pairs[k].0 == name && forall m :: 0 <= m < k ==> pairs[m].0 != name
    ensures FirstValue(pairs, name) == Some(pairs[k].1)
  {
    var r := FirstValue(pairs, name);
    var i :| 0 <= i < |pairs| && pairs[i] == (name, r.value) && forall m :: 0 <= m < i ==> pairs[m].0 != name;
    assert i == k;
  }

  /** A pair `urlencode` writes so that `parse_qsl` reads it back: ASCII text, a non-empty value. */
  predicate Encodable(p: (string, string)) {
    AllAscii(p.0) && AllAscii(p.1) && p.1 != []
  }

  lemma EncodePairParts(p: (string, string))
    requires Encodable(p)
    ensures '&' !in EncodePair(p)
    ensures PairsOf([EncodePair(p)]) == [p]
  {
    QuotePlusExcludes(p.0, '&');
    QuotePlusExcludes(p.1, '&');
    QuotePlusExcludes(p.0, '=');
    PartitionAt(QuotePlus(p.0), '=', QuotePlus(p.1));
    UnquoteQuotePlus(p.0);
    UnquoteQuotePlus(p.1);
  }

  lemma PairsOfCons(field: string, fields: seq<string>)
    ensures PairsOf([field] + fields) == PairsOf([field]) + PairsOf(fields)
  {
    assert ([field] + fields)[1..] == fields;
    assert [field][1..] == [];
  }

  lemma ParseUrlencodeCons(p: (string, string), rest: seq<(string, string)>)
    requires Encodable(p) && rest != [] && ParseQsl(Urlencode(rest)) == rest
    ensures ParseQsl(Urlencode([p] + rest)) == [p] + rest
  {
    var pairs := [p] + rest;
    assert pairs[0] == p && pairs[1..] == rest;
    var head := EncodePair(p);
    var tail := Urlencode(rest);
    EncodePairParts(p);
    assert Urlencode(pairs) == head + ['&'] + tail;
    SplitAt(head, '&', tail);
    PairsOfCons(head, Split(tail, '&'));
  }

  /** Reading back an encoded query gives exactly the pairs it was built from. */
  lemma {:induction false} ParseUrlencode(pairs: seq<(string, string)>)
    requires forall k :: 0 <= k < |pairs| ==> Encodable(pairs[k])
    ensures ParseQsl(Urlencode(pairs)) == pairs
  {
    if pairs == [] {
      assert Split([], '&') == [[]];
    } else if |pairs| == 1 {
      EncodePairParts(pairs[0]);
      SplitWithout(EncodePair(pairs[0]), '&');
    } else {
      ParseUrlencode(pairs[1..]);
      ParseUrlencodeCons(pairs[0], pairs[1..]);
      assert pairs == [pairs[0]] + pairs[1..];
    }
  }

  /** A pair with a blank value is written by `urlencode` but dropped by `parse_qsl`. */
  lemma BlankValueDropped(blank: (string, string), other: (string, string))
    requires blank.1 == [] && AllAscii(other.0)
    ensures ParseQsl(Urlencode([blank, other])) == (if other.1 == [] then [] else [(other.0, Unquote(QuotePlus(other.1)))])
  {
    var first := EncodePair(blank);
    var second := EncodePair(other);
    assert [blank, other][1..] == [other];
    assert Urlencode([blank, other]) == first + ['&'] + second;
    QuotePlusExcludes(blank.0, '&');
    QuotePlusExcludes(blank.0, '=');
    QuotePlusExcludes(other.0, '&');
    QuotePlusExcludes(other.0, '=');
    QuotePlusExcludes(other.1, '&');
    SplitAt(first, '&', second);
    SplitWithout(second, '&');
    PartitionAt(QuotePlus(blank.0), '=', []);
    PartitionAt(QuotePlus(other.0), '=', QuotePlus(other.1));
    UnquoteQuotePlus(other.0);
    PairsOfCons(first, [second]);
    assert QuotePlus(other.1) == [] <==> other.1 == [];
  }

  /** After a blank first value, every parsed pair carries the second name. */
  lemma BlankValueNames(blank: (string, string), other: (string, string))
    requires blank.1 == [] && AllAscii(other.0)
    ensures var pairs := ParseQsl(Urlencode([blank, other]));
      forall m :: 0 <= m < |pairs| ==> pairs[m].0 == other.0
  {
    BlankValueDropped(blank, other);
  }

  /** An encoded query holds nothing but encoded characters, `=` and `&`. */
  lemma {:induction false} UrlencodeExcludes(pairs: seq<(string, string)>, c: char)
    requires !IsEncodedChar(c) && c != '=' && c != '&'
    ensures c !in Urlencode(pairs)
  {
    if pairs != [] {
      QuotePlusExcludes(pairs[0].0, c);
      QuotePlusExcludes(pairs[0].1, c);
      UrlencodeExcludes(pairs[1..], c);
    }
  }

  /** `urlparse(url).query`: the text after the first `?` and before the fragment. */
  function QueryOf(url: string): string {
    var (withoutFragment, _, _) := Partition(url, '#');
    var (_, found, query) := Partition(withoutFragment, '?');
    if found then query else []
  }

  lemma QueryOfAt(base: string, query: string)
    requires '?' !in base && '#' !in base && '#' !in query
    ensures QueryOf(base + "?" + query) == query
  {
    var url := base + "?" + query;
    assert '#' !in url;
    PartitionAt(base, '?', query);
  }
}
