/** The handful of Python string operations the bot relies on: str.find, str.join
    and splitting on one character, as functions over seq<char>. */
module Text {

  /** pat occurs in s starting at index i. */
  predicate OccursAt(s: string, pat: string, i: int) {
    0 <= i && i + |pat| <= |s| && s[i..i + |pat|] == pat
  }

  /** Python's s.find(pat, start): the least index i >= start at which pat occurs, or -1. */
  function Find(s: string, pat: string, start: nat): (r: int)
    ensures r == -1 || (start <= r && OccursAt(s, pat, r))
    ensures forall i :: start <= i && (r == -1 || i < r) ==> !OccursAt(s, pat, i)
    decreases |s| - start
  {
    if start + |pat| > |s| then -1
    else if s[start..start + |pat|] == pat then start
    else Find(s, pat, start + 1)
  }

  /** Python's s.find(c, start) for a one-character pattern: the least index i >= start
      holding c, or -1. */
  function FindChar(s: string, c: char, start: nat): (r: int)
    ensures r == -1 || (start <= r < |s| && s[r] == c)
    ensures forall i :: start <= i < |s| && (r == -1 || i < r) ==> s[i] != c
    decreases |s| - start
  {
    if start >= |s| then -1
    else if s[start] == c then start
    else FindChar(s, c, start + 1)
  }

  /** FindChar is Find with the one-character pattern [c]. */
  lemma {:induction false} FindCharIsFind(s: string, c: char, start: nat)
    ensures FindChar(s, c, start) == Find(s, [c], start)
    decreases |s| - start
  {
    if start < |s| {
      assert s[start..start + 1] == [s[start]];
      if s[start] != c {
        FindCharIsFind(s, c, start + 1);
      }
    }
  }

  /** Python's sep.join(parts). */
  function Join(parts: seq<string>, sep: string): string
    decreases |parts|
  {
    if |parts| == 0 then ""
    else if |parts| == 1 then parts[0]
    else parts[0] + sep + Join(parts[1..], sep)
  }

  /** Where part k starts inside Join(parts, sep). */
  function PartOffset(parts: seq<string>, sep: string, k: nat): nat
    requires k <= |parts|
  {
    if k == 0 then 0 else |parts[0]| + |sep| + PartOffset(parts[1..], sep, k - 1)
  }

  /** The joined string is exactly the parts laid end to end with one separator
      between neighbours: part k sits at PartOffset(k), a separator follows every part
      but the last, and the last part ends the string. */
  lemma {:induction false} JoinLayout(parts: seq<string>, sep: string, k: nat)
    requires k < |parts|
    ensures OccursAt(Join(parts, sep), parts[k], PartOffset(parts, sep, k))
    ensures k + 1 < |parts| ==> OccursAt(Join(parts, sep), sep, PartOffset(parts, sep, k) + |parts[k]|)
    ensures k + 1 == |parts| ==> PartOffset(parts, sep, k) + |parts[k]| == |Join(parts, sep)|
    decreases |parts|
  {
    var j := Join(parts, sep);
    if |parts| == 1 {
      assert j == parts[0];
    } else {
      var rest := Join(parts[1..], sep);
      assert j == parts[0] + sep + rest;
      var base := |parts[0]| + |sep|;
      if k == 0 {
        OccursAtFront(parts[0], sep, rest);
      } else {
        JoinLayout(parts[1..], sep, k - 1);
        var off := PartOffset(parts[1..], sep, k - 1);
        assert parts[1..][k - 1] == parts[k];
        OccursAfterPrefix(parts[0] + sep, rest, parts[k], off);
        if k + 1 < |parts| {
          OccursAfterPrefix(parts[0] + sep, rest, sep, off + |parts[k]|);
        }
      }
    }
  }

  /** The first two pieces of a concatenation occur where they were put. */
  lemma OccursAtFront(a: string, b: string, c: string)
    ensures OccursAt(a + b + c, a, 0) && OccursAt(a + b + c, b, |a|)
  {
    assert (a + b + c)[..|a|] == a;
    assert (a + b + c)[|a|..|a| + |b|] == b;
  }

  /** The layout of a joined list followed by a suffix: the parts and separators stay
      in place and the suffix follows the last part. */
  lemma JoinThenSuffixLayout(parts: seq<string>, sep: string, suffix: string, k: nat)
    requires k < |parts|
    ensures var q := Join(parts, sep) + suffix;
      var at := PartOffset(parts, sep, k);
      && OccursAt(q, parts[k], at)
      && (k + 1 < |parts| ==> OccursAt(q, sep, at + |parts[k]|))
      && (k + 1 == |parts| ==> OccursAt(q, suffix, at + |parts[k]|))
  {
    var joined := Join(parts, sep);
    var at := PartOffset(parts, sep, k);
    JoinLayout(parts, sep, k);
    OccursBeforeSuffix(joined, suffix, parts[k], at);
    if k + 1 < |parts| {
      OccursBeforeSuffix(joined, suffix, sep, at + |parts[k]|);
    } else {
      OccursAtEnd(joined, suffix);
    }
  }

  /** An occurrence keeps its place when a suffix is added. */
  lemma OccursBeforeSuffix(a: string, b: string, pat: string, i: int)
    requires OccursAt(a, pat, i)
    ensures OccursAt(a + b, pat, i)
  {
    assert (a + b)[i..i + |pat|] == a[i..i + |pat|];
  }

  /** The suffix of a concatenation occurs right after the prefix. */
  lemma OccursAtEnd(a: string, b: string)
    ensures OccursAt(a + b, b, |a|)
  {
    assert (a + b)[|a|..|a| + |b|] == b;
  }

  /** An occurrence keeps its place, shifted by the prefix, when a prefix is added. */
  lemma OccursAfterPrefix(a: string, b: string, pat: string, i: int)
    requires OccursAt(b, pat, i)
    ensures OccursAt(a + b, pat, |a| + i)
  {
    assert (a + b)[|a| + i..|a| + i + |pat|] == b[i..i + |pat|];
  }

  /** Python's s.split(c) for a one-character separator. */
  function Split(s: string, c: char): (r: seq<string>)
    ensures |r| >= 1
    decreases |s|
  {
    if |s| == 0 then [""]
    else
      var rest := Split(s[1..], c);
      if s[0] == c then [""] + rest
      else [[s[0]] + rest[0]] + rest[1..]
  }

  lemma {:induction false} SplitWithoutSeparator(a: string, c: char)
    requires c !in a
    ensures Split(a, c) == [a]
    decreases |a|
  {
    if |a| > 0 {
      SplitWithoutSeparator(a[1..], c);
      assert [a[0]] + a[1..] == a;
    }
  }

  lemma {:induction false} SplitAtFirstSeparator(a: string, b: string, c: char)
    requires c !in a
    ensures Split(a + [c] + b, c) == [a] + Split(b, c)
    decreases |a|
  {
    var s := a + [c] + b;
    if |a| == 0 {
      assert s == [c] + b;
      assert s[1..] == b;
    } else {
      assert s[1..] == a[1..] + [c] + b;
      SplitAtFirstSeparator(a[1..], b, c);
      assert [a[0]] + a[1..] == a;
    }
  }

  /** Splitting a joined list on its separator gives the list back, provided no
      part contains the separator. */
  lemma {:induction false} SplitJoin(parts: seq<string>, c: char)
    requires |parts| >= 1
    requires forall i :: 0 <= i < |parts| ==> c !in parts[i]
    ensures Split(Join(parts, [c]), c) == parts
    decreases |parts|
  {
    if |parts| == 1 {
      SplitWithoutSeparator(parts[0], c);
    } else {
      SplitJoin(parts[1..], c);
      SplitAtFirstSeparator(parts[0], Join(parts[1..], [c]), c);
      assert [parts[0]] + parts[1..] == parts;
    }
  }
}
