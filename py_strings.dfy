/** The two pieces of Python's `str` that the chain loader relies on: `find` and `s[:stop]`. */
module PyStrings {

  /** `s.find(c)`: the index of the first `c` in `s`, or -1 when there is none. */
  function Find(s: string, c: char): (i: int)
    ensures -1 <= i < |s|
    ensures i == -1 <==> c !in s
    ensures i >= 0 ==> s[i] == c && c !in s[..i]
  {
    if |s| == 0 then -1
    else if s[0] == c then 0
    else
      var k := Find(s[1..], c);
      assert s[1..][..k + 1] == s[1..k + 2] by {
        if k >= 0 { assert s[1..][..k + 1] == s[1..][..k] + [s[1..][k]]; }
      }
      if k == -1 then -1 else k + 1
  }

  /**
   * `s[:stop]`: a count from the front when `stop` is not negative, and
   * from the back when it is; clipped to the string either way.
   */
  function SliceTo(s: string, stop: int): (r: string)
    ensures r <= s
    ensures 0 <= stop <= |s| ==> |r| == stop
    ensures stop >= |s| ==> r == s
    ensures stop < 0 && -stop <= |s| ==> r + s[|s| + stop..] == s
    ensures stop < 0 && -stop >= |s| ==> r == []
  {
    if stop >= 0 then s[..if stop <= |s| then stop else |s|]
    else s[..if |s| + stop >= 0 then |s| + stop else 0]
  }

  /**
   * `s[:s.find(c)]`: the part before the first `c` when there is one;
   * otherwise `find` gives -1 and the slice drops the last character.
   */
  function BeforeFirst(s: string, c: char): string
  {
    SliceTo(s, Find(s, c))
  }

  /** With a `c` in `s`, the result is what precedes the first `c`, and holds no `c` itself. */
  lemma BeforeFirstFound(s: string, c: char)
    requires c in s
    ensures BeforeFirst(s, c) + [c] <= s
    ensures c !in BeforeFirst(s, c)
  {
    var i := Find(s, c);
    assert s[..i + 1] == s[..i] + [c];
  }

  /** With no `c` in `s`, the result is `s` without its last character (empty for empty `s`). */
  lemma BeforeFirstMissing(s: string, c: char)
    requires c !in s
    ensures |s| > 0 ==> BeforeFirst(s, c) == s[..|s| - 1]
    ensures |s| == 0 ==> BeforeFirst(s, c) == []
  {
  }
}
