/** The few `java.lang.String` operations the registry relies on. */
module JavaStrings {

  /** `s.startsWith(prefix)`; every string starts with "". */
  predicate StartsWith(s: string, prefix: string)
    ensures StartsWith(s, prefix) <==>
      |prefix| <= |s| && forall i :: 0 <= i < |prefix| ==> s[i] == prefix[i]
  {
    |prefix| <= |s| && s[..|prefix|] == prefix
  }

  /** `pat` occurs in `s` starting at index `i`. */
  predicate OccursAt(s: string, pat: string, i: int) {
    0 <= i && i + |pat| <= |s| && s[i..i + |pat|] == pat
  }

  /** `pat` occurs somewhere in `s`. */
  ghost predicate Contains(s: string, pat: string) {
    exists i :: OccursAt(s, pat, i)
  }

  function IndexFrom(s: string, pat: string, from: nat): (r: int)
    requires from <= |s|
    ensures r == -1 || from <= r <= |s|
    ensures r >= 0 ==> OccursAt(s, pat, r)
    ensures forall j :: from <= j && (r < 0 || j < r) ==> !OccursAt(s, pat, j)
    decreases |s| - from
  {
    if OccursAt(s, pat, from) then from
    else if from == |s| then -1
    else IndexFrom(s, pat, from + 1)
  }

  /** `s.indexOf(pat)`: the first index at which `pat` occurs, or -1. */
  function IndexOf(s: string, pat: string): (r: int)
    ensures r == -1 || 0 <= r <= |s|
    ensures r == -1 <==> !Contains(s, pat)
    ensures r >= 0 ==> OccursAt(s, pat, r) && forall j :: 0 <= j < r ==> !OccursAt(s, pat, j)
  {
    IndexFrom(s, pat, 0)
  }

  /**
   * The comma-separated segments of `s`, empty ones included: a string with
   * n commas has n + 1 segments.
   */
  function Segments(s: string): (r: seq<string>)
    ensures |r| >= 1
    ensures forall i :: 0 <= i < |r| ==> ',' !in r[i]
    decreases |s|
  {
    if s == [] then [""]
    else if s[0] == ',' then [""] + Segments(s[1..])
    else
      var rest := Segments(s[1..]);
      [[s[0]] + rest[0]] + rest[1..]
  }

  /** The segments joined back with commas. */
  function Join(parts: seq<string>): string {
    if |parts| == 0 then ""
    else if |parts| == 1 then parts[0]
    else parts[0] + "," + Join(parts[1..])
  }

  /** Drops the empty strings at the end of `parts`, as `String.split` does. */
  function DropTrailingEmpty(parts: seq<string>): (r: seq<string>)
    ensures |r| <= |parts| && r == parts[..|r|]
    ensures forall i :: |r| <= i < |parts| ==> parts[i] == ""
    ensures |r| > 0 ==> r[|r| - 1] != ""
    decreases |parts|
  {
    if |parts| > 0 && parts[|parts| - 1] == "" then DropTrailingEmpty(parts[..|parts| - 1])
    else parts
  }

  /**
   * `s.split(",")`: the segments with the trailing empty ones removed; the
   * empty string, which contains no comma, splits into [""].
   */
  function Split(s: string): (r: seq<string>)
    ensures forall x :: x in r && x != "" <==> x in Segments(s) && x != ""
  {
    if s == "" then [""] else DropTrailingEmpty(Segments(s))
  }

  lemma {:induction false} JoinCons(c: char, part: string, rest: seq<string>)
    ensures Join([[c] + part] + rest) == [c] + Join([part] + rest)
  {
    if |rest| > 0 {
      assert ([[c] + part] + rest)[1..] == rest;
      assert ([part] + rest)[1..] == rest;
    }
  }

  /** Joining the segments of a string gives the string back. */
  lemma {:induction false} JoinSegments(s: string)
    ensures Join(Segments(s)) == s
    decreases |s|
  {
    if s == [] {
    } else if s[0] == ',' {
      JoinSegments(s[1..]);
      assert ([""] + Segments(s[1..]))[1..] == Segments(s[1..]);
      assert s == "," + s[1..];
    } else {
      var rest := Segments(s[1..]);
      JoinSegments(s[1..]);
      JoinCons(s[0], rest[0], rest[1..]);
      assert [rest[0]] + rest[1..] == rest;
      assert s == [s[0]] + s[1..];
    }
  }

  /** Splitting `a + "," + b` splits `a` and `b` separately. */
  lemma {:induction false} SegmentsConcat(a: string, b: string)
    ensures Segments(a + "," + b) == Segments(a) + Segments(b)
    decreases |a|
  {
    var s := a + "," + b;
    if a == [] {
      assert s == "," + b && s[1..] == b;
    } else {
      assert s[0] == a[0] && s[1..] == a[1..] + "," + b;
      SegmentsConcat(a[1..], b);
      if a[0] != ',' {
        var ra := Segments(a[1..]);
        assert Segments(s[1..]) == ra + Segments(b);
        assert (ra + Segments(b))[1..] == ra[1..] + Segments(b);
      }
    }
  }

  /** A string without commas is a single segment. */
  lemma {:induction false} SegmentsCommaFree(s: string)
    requires ',' !in s
    ensures Segments(s) == [s]
    decreases |s|
  {
    if s != [] {
      assert s[0] in s;
      assert forall c :: c in s[1..] ==> c in s;
      SegmentsCommaFree(s[1..]);
      assert [s[0]] + s[1..] == s;
    }
  }

  /** Comma-free parts survive a join and a split unchanged. */
  lemma {:induction false} SegmentsJoin(parts: seq<string>)
    requires |parts| >= 1
    requires forall i :: 0 <= i < |parts| ==> ',' !in parts[i]
    ensures Segments(Join(parts)) == parts
    decreases |parts|
  {
    if |parts| == 1 {
      SegmentsCommaFree(parts[0]);
    } else {
      SegmentsCommaFree(parts[0]);
      SegmentsJoin(parts[1..]);
      SegmentsConcat(parts[0], Join(parts[1..]));
      assert [parts[0]] + parts[1..] == parts;
    }
  }

  /** Appending a part at the end of a join. */
  lemma {:induction false} JoinSnoc(parts: seq<string>, last: string)
    requires |parts| >= 1
    ensures Join(parts + [last]) == Join(parts) + "," + last
    decreases |parts|
  {
    if |parts| > 1 {
      assert (parts + [last])[1..] == parts[1..] + [last];
      JoinSnoc(parts[1..], last);
    }
  }
}
