/** The format list of one video (`_extract_formats`). */
module Formats {
  import opened Wrappers
  import opened Errors
  import opened ApiData

  /** A format record; `fields` holds whatever else a manifest parser attaches (empty for a direct format). */
  datatype Format = Format(url: string, formatId: string, fields: map<string, string>)

  /**
   * The collaborators outside this file: `determine_ext(url) == 'm3u8'`, the HLS manifest parser
   * `_extract_m3u8_formats(url, video_id, 'mp4', m3u8_id=format_id, fatal=False)`, and the quality
   * key by which `_sort_formats` orders formats, worst first.
   */
  datatype FormatTools = FormatTools(
    isM3u8: string -> bool,
    hls: (string, string, string) -> seq<Format>,
    rank: Format -> int)

  /** The direct format of a non-manifest entry: exactly its URL and its format id. */
  function DirectFormat(s: Source): Format {
    Format(s.url, s.formatId, map[])
  }

  /** What one `source` entry contributes. */
  function EntryFormats(s: Source, videoId: string, tools: FormatTools): seq<Format> {
    if tools.isM3u8(s.url) then tools.hls(s.url, videoId, s.formatId) else [DirectFormat(s)]
  }

  /** The formats collected by the loop, before sorting, entry after entry. */
  function CollectFormats(source: seq<Source>, videoId: string, tools: FormatTools): seq<Format> {
    if source == [] then []
    else CollectFormats(source[..|source| - 1], videoId, tools) + EntryFormats(source[|source| - 1], videoId, tools)
  }

  predicate SortedBy(fs: seq<Format>, rank: Format -> int) {
    forall i, j :: 0 <= i < j < |fs| ==> rank(fs[i]) <= rank(fs[j])
  }

  /** Insertion into a sorted list, before the first format ranked strictly higher. */
  function Insert(f: Format, fs: seq<Format>, rank: Format -> int): seq<Format> {
    if fs == [] || rank(f) <= rank(fs[0]) then [f] + fs
    else [fs[0]] + Insert(f, fs[1..], rank)
  }

  /** Insertion adds exactly the one format. */
  lemma {:induction false} InsertPermutes(f: Format, fs: seq<Format>, rank: Format -> int)
    ensures multiset(Insert(f, fs, rank)) == multiset(fs) + multiset{f}
  {
    if !(fs == [] || rank(f) <= rank(fs[0])) {
      InsertPermutes(f, fs[1..], rank);
      assert fs == [fs[0]] + fs[1..];
    }
  }

  lemma SortedTail(fs: seq<Format>, rank: Format -> int)
    requires fs != [] && SortedBy(fs, rank)
    ensures SortedBy(fs[1..], rank)
    ensures forall g :: g in fs[1..] ==> rank(fs[0]) <= rank(g)
  {
    var tail := fs[1..];
    forall i, j | 0 <= i < j < |tail|
      ensures rank(tail[i]) <= rank(tail[j])
    {
      assert tail[i] == fs[i + 1] && tail[j] == fs[j + 1];
    }
    forall g | g in tail
      ensures rank(fs[0]) <= rank(g)
    {
      var k :| 0 <= k < |tail| && tail[k] == g;
      assert fs[k + 1] == g;
    }
  }

  lemma SortedCons(x: Format, rest: seq<Format>, rank: Format -> int)
    requires SortedBy(rest, rank) && forall g :: g in rest ==> rank(x) <= rank(g)
    ensures SortedBy([x] + rest, rank)
  {
    var r := [x] + rest;
    forall i, j | 0 <= i < j < |r|
      ensures rank(r[i]) <= rank(r[j])
    {
      assert r[j] == rest[j - 1];
      assert r[j] in rest;
      if i > 0 {
        assert r[i] == rest[i - 1];
      }
    }
  }

  /** Insertion keeps a sorted list sorted. */
  lemma {:induction false} InsertSorted(f: Format, fs: seq<Format>, rank: Format -> int)
    requires SortedBy(fs, rank)
    ensures SortedBy(Insert(f, fs, rank), rank)
  {
    if fs == [] || rank(f) <= rank(fs[0]) {
      if fs != [] {
        SortedTail(fs, rank);
      }
      SortedCons(f, fs, rank);
    } else {
      var tail := fs[1..];
      SortedTail(fs, rank);
      InsertSorted(f, tail, rank);
      InsertPermutes(f, tail, rank);
      var rest := Insert(f, tail, rank);
      forall g | g in rest
        ensures rank(fs[0]) <= rank(g)
      {
        assert g in multiset(rest);
        if g != f {
          assert g in multiset(tail);
        }
      }
      SortedCons(fs[0], rest, rank);
    }
  }

  /** `_sort_formats`: a stable sort by the quality key. */
  function SortFormats(fs: seq<Format>, rank: Format -> int): (r: seq<Format>)
    ensures SortedBy(r, rank)
    ensures multiset(r) == multiset(fs)
  {
    if fs == [] then []
    else
      var rest := SortFormats(fs[1..], rank);
      InsertSorted(fs[0], rest, rank);
      InsertPermutes(fs[0], rest, rank);
      assert fs == [fs[0]] + fs[1..];
      Insert(fs[0], rest, rank)
  }

  /** The specification of `_extract_formats`: the collected formats, sorted. */
  function FormatList(options: VideoItem, videoId: string, tools: FormatTools): Result<seq<Format>, Error> {
    match options.source
    case None => Failure(MissingKey("source"))
    case Some(source) => Success(SortFormats(CollectFormats(source, videoId, tools), tools.rank))
  }

  /** `_extract_formats`: walk `options['source']`, extend with manifest formats or append a direct one, then sort. */
  method ExtractFormats(options: VideoItem, videoId: string, tools: FormatTools) returns (r: Result<seq<Format>, Error>)
    ensures r == FormatList(options, videoId, tools)
    ensures r.Success? ==> SortedBy(r.value, tools.rank)
    ensures r.Success? ==> multiset(r.value) == multiset(CollectFormats(options.source.value, videoId, tools))
    ensures r.Failure? <==> options.source.None?
  {
    if options.source.None? {
      return Failure(MissingKey("source"));
    }
    var source := options.source.value;
    var formats: seq<Format> := [];
    for k := 0 to |source|
      invariant formats == CollectFormats(source[..k], videoId, tools)
    {
      assert source[..k + 1][..k] == source[..k];
      var entry := source[k];
      if tools.isM3u8(entry.url) {
        formats := formats + tools.hls(entry.url, videoId, entry.formatId);
      } else {
        formats := formats + [Format(entry.url, entry.formatId, map[])];
      }
    }
    assert source[..|source|] == source;
    formats := SortFormats(formats, tools.rank);
    r := Success(formats);
  }

  /** The collection runs in source order: the formats of a joined source are the joined formats. */
  lemma {:induction false} CollectAppend(a: seq<Source>, b: seq<Source>, videoId: string, tools: FormatTools)
    ensures CollectFormats(a + b, videoId, tools) == CollectFormats(a, videoId, tools) + CollectFormats(b, videoId, tools)
    decreases |b|
  {
    if b == [] {
      assert a + b == a;
    } else {
      var b' := b[..|b| - 1];
      assert (a + b)[..|a + b| - 1] == a + b';
      CollectAppend(a, b', videoId, tools);
    }
  }

  /** Without manifests, every entry gives exactly one direct format, in order. */
  lemma {:induction false} CollectDirect(source: seq<Source>, videoId: string, tools: FormatTools)
    requires forall k :: 0 <= k < |source| ==> !tools.isM3u8(source[k].url)
    ensures |CollectFormats(source, videoId, tools)| == |source|
    ensures forall k :: 0 <= k < |source| ==> CollectFormats(source, videoId, tools)[k] == DirectFormat(source[k])
  {
    if source != [] {
      CollectDirect(source[..|source| - 1], videoId, tools);
    }
  }

  /** A manifest entry contributes exactly what the parser returns, possibly nothing. */
  lemma ManifestEntry(before: seq<Source>, entry: Source, after: seq<Source>, videoId: string, tools: FormatTools)
    requires tools.isM3u8(entry.url)
    ensures CollectFormats(before + [entry] + after, videoId, tools)
         == CollectFormats(before, videoId, tools) + tools.hls(entry.url, videoId, entry.formatId)
            + CollectFormats(after, videoId, tools)
  {
    CollectAppend(before + [entry], after, videoId, tools);
    CollectAppend(before, [entry], videoId, tools);
    assert [entry][..0] == [];
  }

  /** A source with at least one direct entry never yields an empty format list. */
  lemma DirectEntryGivesFormat(options: VideoItem, k: nat, videoId: string, tools: FormatTools)
    requires options.source.Some? && k < |options.source.value|
    requires !tools.isM3u8(options.source.value[k].url)
    ensures FormatList(options, videoId, tools).Success?
    ensures DirectFormat(options.source.value[k]) in FormatList(options, videoId, tools).value
  {
    var source := options.source.value;
    var entry := source[k];
    assert source == source[..k] + [entry] + source[k + 1..];
    CollectAppend(source[..k] + [entry], source[k + 1..], videoId, tools);
    CollectAppend(source[..k], [entry], videoId, tools);
    assert [entry][..0] == [];
    var collected := CollectFormats(source, videoId, tools);
    assert DirectFormat(entry) in collected;
    assert DirectFormat(entry) in multiset(collected);
  }
}
