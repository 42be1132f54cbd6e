/** The string operations the service and the gallery apply to file names. */
module FileNames {

  /** `name.split('.').pop()`: the text after the last '.', or the whole name when it has no '.'. */
  function LastSegment(s: string): (r: string)
    ensures '.' !in r
    ensures |r| <= |s| && r == s[|s| - |r|..]
    ensures |r| < |s| ==> s[|s| - |r| - 1] == '.'
    decreases |s|
  {
    if |s| == 0 || s[|s| - 1] == '.' then []
    else LastSegment(s[..|s| - 1]) + [s[|s| - 1]]
  }

  /** The segment after the last dot of `stem + "." + ext` is `ext`. */
  lemma {:induction false} LastSegmentAfterDot(stem: string, ext: string)
    requires '.' !in ext
    ensures LastSegment(stem + "." + ext) == ext
  {
    var s := stem + "." + ext;
    var r := LastSegment(s);
    assert s[|stem|] == '.';
    assert s[|s| - |ext|..] == ext;
  }

  /** A name without a dot is its own last segment. */
  lemma LastSegmentUndotted(s: string)
    requires '.' !in s
    ensures LastSegment(s) == s
  {
  }

  /** `name.replace(/\.[^/.]+$/, "")`: drops a final dot followed by one or more characters that are
      neither '.' nor '/'; any other name is returned as it is. */
  function StripExtension(s: string): (r: string)
    ensures r == s || s == r + "." + LastSegment(s)
    ensures r != s <==> |LastSegment(s)| < |s| && LastSegment(s) != [] && '/' !in LastSegment(s)
  {
    var ext := LastSegment(s);
    if |ext| < |s| && ext != [] && '/' !in ext then
      assert s == s[..|s| - |ext| - 1] + "." + ext;
      s[..|s| - |ext| - 1]
    else s
  }

  /** `toUpperCase` on ASCII letters; other characters are kept. */
  function UpperChar(c: char): char {
    if 'a' <= c <= 'z' then (c as int - 32) as char else c
  }

  function Upper(s: string): (r: string)
    ensures |r| == |s|
    ensures forall k :: 0 <= k < |s| ==> !('a' <= r[k] <= 'z')
    ensures forall k :: 0 <= k < |s| ==>
      if 'a' <= s[k] <= 'z' then r[k] as int == s[k] as int - 32 else r[k] == s[k]
  {
    seq(|s|, k requires 0 <= k < |s| => UpperChar(s[k]))
  }
}
