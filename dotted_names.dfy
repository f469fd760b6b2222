/** Dotted property names: prefix tests, splitting on '.', and joining segments back. */
module DottedNames {

  /** String.startsWith. */
  predicate StartsWith(s: string, prefix: string) {
    |prefix| <= |s| && s[..|prefix|] == prefix
  }

  /** A single segment of a dotted name: it holds no dot. */
  predicate IsSegment(s: string) {
    '.' !in s
  }

  /** Every piece of `s` between dots, empty pieces included. */
  function Segments(s: string): (r: seq<string>)
    ensures |r| >= 1
    ensures forall i :: 0 <= i < |r| ==> IsSegment(r[i])
    decreases |s|
  {
    if s == [] then [""]
    else if s[0] == '.' then [""] + Segments(s[1..])
    else
      var rest := Segments(s[1..]);
      [[s[0]] + rest[0]] + rest[1..]
  }

  /** The segments joined with dots: the inverse of Segments. */
  function Join(parts: seq<string>): string
    requires |parts| >= 1
    decreases |parts|
  {
    if |parts| == 1 then parts[0] else parts[0] + "." + Join(parts[1..])
  }

  /** Removes the empty strings at the end of a split, as java.util.regex does. */
  function DropTrailingEmpty(parts: seq<string>): (r: seq<string>)
    ensures |r| <= |parts| && r == parts[..|r|]
    ensures |r| > 0 ==> r[|r| - 1] != ""
    ensures forall i :: |r| <= i < |parts| ==> parts[i] == ""
    decreases |parts|
  {
    if parts == [] then []
    else if parts[|parts| - 1] == "" then DropTrailingEmpty(parts[..|parts| - 1])
    else parts
  }

  /**
   * String.split("\\.") in Java: a name without a dot is returned whole (even the empty
   * name); otherwise its segments, without the empty ones at the end.
   */
  function JavaSplit(s: string): (r: seq<string>)
    ensures forall i :: 0 <= i < |r| ==> IsSegment(r[i])
    ensures IsSegment(s) ==> r == [s]
  {
    if IsSegment(s) then [s] else DropTrailingEmpty(Segments(s))
  }

  /** Segments of a name that has no dot. */
  lemma {:induction false} SegmentsOfSegment(a: string)
    requires IsSegment(a)
    ensures Segments(a) == [a]
    decreases |a|
  {
    if a != [] {
      assert a[0] in a;
      SegmentsOfSegment(a[1..]);
      assert [a[0]] + a[1..] == a;
    }
  }

  /** A dot after a plain segment starts a new segment. */
  lemma {:induction false} SegmentsAfterSegment(a: string, b: string)
    requires IsSegment(a)
    ensures Segments(a + "." + b) == [a] + Segments(b)
    decreases |a|
  {
    if a == [] {
      assert a + "." + b == ['.'] + b;
      assert (['.'] + b)[1..] == b;
    } else {
      var s := a + "." + b;
      assert s[0] == a[0] && s[1..] == a[1..] + "." + b;
      SegmentsAfterSegment(a[1..], b);
      assert [a[0]] + a[1..] == a;
    }
  }

  /** Splitting a joined name gives its segments back. */
  lemma {:induction false} SegmentsOfJoin(parts: seq<string>)
    requires |parts| >= 1
    requires forall i :: 0 <= i < |parts| ==> IsSegment(parts[i])
    ensures Segments(Join(parts)) == parts
    decreases |parts|
  {
    if |parts| == 1 {
      SegmentsOfSegment(parts[0]);
    } else {
      SegmentsOfJoin(parts[1..]);
      SegmentsAfterSegment(parts[0], Join(parts[1..]));
      assert [parts[0]] + parts[1..] == parts;
    }
  }

  /** Java's split of a joined name of two or more segments, the last one non-empty. */
  lemma JavaSplitOfJoin(parts: seq<string>)
    requires |parts| >= 2 && parts[|parts| - 1] != ""
    requires forall i :: 0 <= i < |parts| ==> IsSegment(parts[i])
    ensures JavaSplit(Join(parts)) == parts
  {
    SegmentsOfJoin(parts);
    assert Join(parts) == parts[0] + "." + Join(parts[1..]);
    assert Join(parts)[|parts[0]|] == '.';
  }

  /** Joining splits at any inner boundary. */
  lemma {:induction false} JoinSplitAt(parts: seq<string>, n: nat)
    requires 1 <= n < |parts|
    ensures Join(parts) == Join(parts[..n]) + "." + Join(parts[n..])
    decreases n
  {
    if n > 1 {
      JoinSplitAt(parts[1..], n - 1);
      assert parts[1..][..n - 1] == parts[1..n];
      assert parts[1..][n - 1..] == parts[n..];
      assert parts[..n][1..] == parts[1..n];
    } else {
      assert parts[..1] == [parts[0]];
      assert parts[1..] == parts[n..];
    }
  }

  /** The first segment of a dotted name: everything before its first dot. */
  function FirstSegment(s: string): (r: string)
    ensures IsSegment(r) && StartsWith(s, r)
    ensures |r| < |s| ==> s[|r|] == '.'
    decreases |s|
  {
    if s == [] || s[0] == '.' then "" else [s[0]] + FirstSegment(s[1..])
  }
}
