/** Trimming a repeated character from either end of a text: Go's
    `strings.TrimLeft` and `strings.TrimRight` with a one-character cut set,
    and the leading-space skip of `time.Parse`. */
module Text {

  /** `s` without its leading run of `c`. */
  function TrimLeft(s: string, c: char): (r: string)
    ensures |r| <= |s| && r == s[|s| - |r|..]
    ensures |r| > 0 ==> r[0] != c
    ensures forall i :: 0 <= i < |s| - |r| ==> s[i] == c
  {
    if |s| > 0 && s[0] == c then TrimLeft(s[1..], c) else s
  }

  /** `s` without its trailing run of `c`. */
  function TrimRight(s: string, c: char): (r: string)
    ensures |r| <= |s| && r == s[..|r|]
    ensures |r| > 0 ==> r[|r| - 1] != c
    ensures forall i :: |r| <= i < |s| ==> s[i] == c
  {
    if |s| > 0 && s[|s| - 1] == c then TrimRight(s[..|s| - 1], c) else s
  }

  /** Trimming both ends leaves a contiguous middle of `s` with only `c`
      on either side of it. */
  lemma TrimBothIsSpan(s: string, c: char)
    ensures var r := TrimRight(TrimLeft(s, c), c);
            exists i, j :: (0 <= i <= j <= |s| && r == s[i..j]
                            && (forall k :: 0 <= k < i ==> s[k] == c)
                            && (forall k :: j <= k < |s| ==> s[k] == c))
    ensures var r := TrimRight(TrimLeft(s, c), c);
            |r| > 0 ==> r[0] != c && r[|r| - 1] != c
  {
    var left := TrimLeft(s, c);
    var r := TrimRight(left, c);
    var i := |s| - |left|;
    var j := i + |r|;
    assert left == s[i..];
    assert r == s[i..j];
    assert |r| > 0 ==> r[0] == left[0];
    forall k | j <= k < |s|
      ensures s[k] == c
    {
      assert s[k] == left[k - i];
    }
    assert 0 <= i <= j <= |s| && r == s[i..j]
           && (forall k :: 0 <= k < i ==> s[k] == c)
           && (forall k :: j <= k < |s| ==> s[k] == c);
  }
}
