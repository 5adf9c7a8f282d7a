/** Strings as sequences of characters: searching, splitting and joining on one separator.
    Every path and relation parser of the repository goes through these few functions. */
module Text {

  /** The position of the first `c` in `s`, or |s| when there is none. */
  function IndexOf(s: string, c: char): (i: nat)
    ensures i <= |s|
    ensures i < |s| ==> s[i] == c
    ensures forall k :: 0 <= k < i ==> s[k] != c
  {
    if s == "" || s[0] == c then 0 else 1 + IndexOf(s[1..], c)
  }

  /** Python's and JavaScript's `split` on a one-character separator. */
  function Split(s: string, c: char): (parts: seq<string>)
    ensures |parts| >= 1
    decreases |s|
  {
    var i := IndexOf(s, c);
    if i == |s| then [s] else [s[..i]] + Split(s[i + 1..], c)
  }

  function Join(parts: seq<string>, c: char): string
    requires parts != []
  {
    if |parts| == 1 then parts[0] else parts[0] + [c] + Join(parts[1..], c)
  }

  predicate StartsWith(s: string, prefix: string) {
    |prefix| <= |s| && s[..|prefix|] == prefix
  }

  lemma StartsWithMeans(s: string, prefix: string)
    ensures StartsWith(s, prefix) <==> exists rest :: s == prefix + rest
  {
    if StartsWith(s, prefix) { assert s == prefix + s[|prefix|..]; }
  }

  lemma IndexOfIs(s: string, c: char, i: nat)
    requires i <= |s| && (i < |s| ==> s[i] == c)
    requires forall k :: 0 <= k < i ==> s[k] != c
    ensures IndexOf(s, c) == i
  {
  }

  /** A string without the separator is a single part. */
  lemma SplitSingle(s: string, c: char)
    requires c !in s
    ensures Split(s, c) == [s]
  {
    IndexOfIs(s, c, |s|);
  }

  lemma JoinFirst(first: string, rest: seq<string>, c: char)
    requires rest != []
    ensures Join([first] + rest, c) == first + [c] + Join(rest, c)
  {
    assert ([first] + rest)[1..] == rest;
  }

  lemma CutFirst(a: string, c: char, i: nat)
    requires i < |a| && a[i] == c
    ensures a == a[..i] + [c] + a[i + 1..]
  {
  }

  lemma {:induction false} JoinSplit(s: string, c: char)
    ensures Join(Split(s, c), c) == s
    decreases |s|
  {
    var i := IndexOf(s, c);
    if i < |s| {
      CutFirst(s, c, i);
      JoinSplit(s[i + 1..], c);
      JoinFirst(s[..i], Split(s[i + 1..], c), c);
    }
  }

  lemma {:induction false} PartsHaveNoSeparator(s: string, c: char)
    ensures forall p :: p in Split(s, c) ==> c !in p
    decreases |s|
  {
    var i := IndexOf(s, c);
    if i < |s| {
      PartsHaveNoSeparator(s[i + 1..], c);
    }
  }

  /** Up to its first separator a string is its first part. */
  lemma SplitFirst(first: string, rest: string, c: char)
    requires c !in first
    ensures Split(first + [c] + rest, c) == [first] + Split(rest, c)
  {
    var s := first + [c] + rest;
    IndexOfIs(s, c, |first|);
    assert s[..|first|] == first && s[|first| + 1..] == rest;
  }

  /** One part at the front of both sides. */
  lemma SplitConcatBehind(first: string, rest: string, b: string, c: char)
    requires c !in first
    requires Split(rest + [c] + b, c) == Split(rest, c) + Split(b, c)
    ensures Split(first + [c] + rest + [c] + b, c) == Split(first + [c] + rest, c) + Split(b, c)
  {
    assert first + [c] + rest + [c] + b == first + [c] + (rest + [c] + b);
    SplitFirst(first, rest, c);
    SplitFirst(first, rest + [c] + b, c);
    PrependConcat(first, Split(rest, c), Split(b, c));
  }

  lemma PrependConcat(first: string, rest: seq<string>, others: seq<string>)
    ensures [first] + (rest + others) == [first] + rest + others
  {
  }

  /** Splitting distributes over a separator. */
  lemma {:induction false} SplitConcat(a: string, b: string, c: char)
    ensures Split(a + [c] + b, c) == Split(a, c) + Split(b, c)
    decreases |a|
  {
    var i := IndexOf(a, c);
    if i == |a| {
      SplitSingle(a, c);
      SplitFirst(a, b, c);
    } else {
      CutFirst(a, c, i);
      SplitConcat(a[i + 1..], b, c);
      SplitConcatBehind(a[..i], a[i + 1..], b, c);
    }
  }

  lemma {:induction false} SplitJoin(parts: seq<string>, c: char)
    requires parts != []
    requires forall p :: p in parts ==> c !in p
    ensures Split(Join(parts, c), c) == parts
  {
    SplitSingle(parts[0], c);
    if |parts| > 1 {
      SplitConcat(parts[0], Join(parts[1..], c), c);
      SplitJoin(parts[1..], c);
      assert parts == [parts[0]] + parts[1..];
    }
  }

  /** Splitting loses nothing. */
  lemma SplitInjective(a: string, b: string, c: char)
    requires Split(a, c) == Split(b, c)
    ensures a == b
  {
    JoinSplit(a, c);
    JoinSplit(b, c);
  }

  lemma {:induction false} JoinConcat(a: seq<string>, b: seq<string>, c: char)
    requires a != [] && b != []
    ensures Join(a + b, c) == Join(a, c) + [c] + Join(b, c)
  {
    if |a| == 1 {
      assert (a + b)[1..] == b;
    } else {
      assert (a + b)[1..] == a[1..] + b;
      JoinConcat(a[1..], b, c);
    }
  }

  lemma StartsWithMeansSplitPrefix(s: string, a: string, c: char)
    requires StartsWith(s, a + [c])
    ensures Split(a, c) < Split(s, c)
  {
    var rest := s[|a| + 1..];
    assert s == a + [c] + rest;
    SplitConcat(a, rest, c);
    assert Split(s, c) == Split(a, c) + Split(rest, c);
  }

  lemma SplitPrefixMeansStartsWith(s: string, a: string, c: char)
    requires Split(a, c) < Split(s, c)
    ensures StartsWith(s, a + [c])
  {
    var rest := Split(s, c)[|Split(a, c)|..];
    assert Split(s, c) == Split(a, c) + rest;
    JoinConcat(Split(a, c), rest, c);
    JoinSplit(a, c);
    JoinSplit(s, c);
    var tail := Join(rest, c);
    assert s == a + [c] + tail;
    assert (a + [c] + tail)[..|a + [c]|] == a + [c];
  }

  /** `a` followed by the separator starts `s` exactly when its parts strictly start those of `s`. */
  lemma PrefixIsPartPrefix(s: string, a: string, c: char)
    ensures StartsWith(s, a + [c]) <==> Split(a, c) < Split(s, c)
  {
    if StartsWith(s, a + [c]) {
      StartsWithMeansSplitPrefix(s, a, c);
    }
    if Split(a, c) < Split(s, c) {
      SplitPrefixMeansStartsWith(s, a, c);
    }
  }
}
