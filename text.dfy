/** The few Python string operations the extractor relies on. */
module Text {
  import opened Wrappers

  /** Python truthiness of an optional string: present and non-empty. */
  predicate Truthy(s: Option<string>) {
    s.Some? && s.value != []
  }

  /** `s.startswith(p)`. */
  predicate StartsWith(s: string, p: string) {
    |s| >= |p| && s[..|p|] == p
  }

  lemma StartsWithAppend(s: string, t: string, p: string)
    requires StartsWith(s, p)
    ensures StartsWith(s + t, p)
  {
    assert (s + t)[..|p|] == s[..|p|];
  }

  /** `str.partition(sep)`: the text before the first `sep`, whether `sep` occurs, and the text after it. */
  function Partition(s: string, sep: char): (r: (string, bool, string))
    ensures r.1 ==> s == r.0 + [sep] + r.2 && sep !in r.0
    ensures !r.1 ==> r.0 == s && r.2 == [] && sep !in s
  {
    if s == [] then ([], false, [])
    else if s[0] == sep then ([], true, s[1..])
    else
      var (before, found, after) := Partition(s[1..], sep);
      ([s[0]] + before, found, after)
  }

  /** The decomposition at the first separator is the only one. */
  lemma {:induction false} PartitionAt(a: string, sep: char, b: string)
    requires sep !in a
    ensures Partition(a + [sep] + b, sep) == (a, true, b)
    decreases |a|
  {
    var s := a + [sep] + b;
    if a == [] {
      assert s[1..] == b;
    } else {
      assert s[0] == a[0] && s[1..] == a[1..] + [sep] + b;
      PartitionAt(a[1..], sep, b);
      assert [a[0]] + a[1..] == a;
    }
  }

  /** Without the separator the whole text is the part before it. */
  lemma {:induction false} PartitionWithout(s: string, sep: char)
    requires sep !in s
    ensures Partition(s, sep) == (s, false, [])
  {
    if s != [] {
      PartitionWithout(s[1..], sep);
      assert [s[0]] + s[1..] == s;
    }
  }

  /** `str.rpartition(sep)`: split at the last `sep`; without one, `("", false, s)`. */
  function RPartition(s: string, sep: char): (r: (string, bool, string))
    ensures r.1 ==> s == r.0 + [sep] + r.2 && sep !in r.2
    ensures !r.1 ==> r.0 == [] && r.2 == s && sep !in s
  {
    if s == [] then ([], false, [])
    else if s[|s| - 1] == sep then (s[..|s| - 1], true, [])
    else
      var (before, found, after) := RPartition(s[..|s| - 1], sep);
      assert s == s[..|s| - 1] + [s[|s| - 1]];
      if found then (before, true, after + [s[|s| - 1]]) else ([], false, s)
  }

  /** The decomposition at the last separator is the only one. */
  lemma {:induction false} RPartitionAt(a: string, sep: char, b: string)
    requires sep !in b
    ensures RPartition(a + [sep] + b, sep) == (a, true, b)
    decreases |b|
  {
    var s := a + [sep] + b;
    if b == [] {
      assert s[..|s| - 1] == a;
    } else {
      var last := b[|b| - 1];
      assert s[|s| - 1] == last && s[..|s| - 1] == a + [sep] + b[..|b| - 1];
      RPartitionAt(a, sep, b[..|b| - 1]);
      assert b[..|b| - 1] + [last] == b;
    }
  }

  /** `str.split(sep)`: the pieces between the separators, never an empty list. */
  function Split(s: string, sep: char): (parts: seq<string>)
    ensures |parts| >= 1
    ensures forall k :: 0 <= k < |parts| ==> sep !in parts[k]
    decreases |s|
  {
    var (before, found, after) := Partition(s, sep);
    if found then [before] + Split(after, sep) else [before]
  }

  /** Joining the pieces with the separator, the inverse of `Split`. */
  function Join(parts: seq<string>, sep: char): string {
    if parts == [] then []
    else if |parts| == 1 then parts[0]
    else parts[0] + [sep] + Join(parts[1..], sep)
  }

  lemma {:induction false} JoinSplit(s: string, sep: char)
    ensures Join(Split(s, sep), sep) == s
    decreases |s|
  {
    var (before, found, after) := Partition(s, sep);
    if found {
      JoinSplit(after, sep);
      assert Split(s, sep) == [before] + Split(after, sep);
    }
  }

  lemma SplitWithout(s: string, sep: char)
    requires sep !in s
    ensures Split(s, sep) == [s]
  {
  }

  lemma SplitAt(a: string, sep: char, b: string)
    requires sep !in a
    ensures Split(a + [sep] + b, sep) == [a] + Split(b, sep)
  {
    PartitionAt(a, sep, b);
  }

  /** Python's `t in s` for strings. */
  predicate HasInfix(s: string, t: string)
    decreases |s|
  {
    if |s| < |t| then false
    else s[..|t|] == t || (|s| > 0 && HasInfix(s[1..], t))
  }

  lemma {:induction false} InfixAt(a: string, t: string, b: string)
    ensures HasInfix(a + t + b, t)
    decreases |a|
  {
    var s := a + t + b;
    if a == [] {
      assert s[..|t|] == t;
    } else {
      InfixAt(a[1..], t, b);
      assert s[1..] == a[1..] + t + b;
    }
  }

  /** A string that contains `t` contains its first character. */
  lemma {:induction false} InfixHead(s: string, t: string)
    requires |t| > 0 && HasInfix(s, t)
    ensures t[0] in s
    decreases |s|
  {
    if s[..|t|] == t {
      assert s[0] == t[0];
    } else {
      InfixHead(s[1..], t);
    }
  }
}
