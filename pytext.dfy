/**
 * Python's `str.strip()` with no argument: removes leading and trailing
 * characters for which `str.isspace()` holds.
 */
module PyText {

  /** The code points Python's `str.isspace()` accepts. */
  predicate IsSpace(c: char) {
    var n := c as int;
    || 0x09 <= n <= 0x0D
    || 0x1C <= n <= 0x20
    || n == 0x85 || n == 0xA0 || n == 0x1680
    || 0x2000 <= n <= 0x200A
    || n == 0x2028 || n == 0x2029 || n == 0x202F || n == 0x205F || n == 0x3000
  }

  /** Neither the first nor the last character of `s` is whitespace. */
  predicate NoOuterSpace(s: string) {
    s == [] || (!IsSpace(s[0]) && !IsSpace(s[|s| - 1]))
  }

  /** `s[i..j]` is `s` with only whitespace cut from its two ends. */
  predicate OuterSpaceRemoved(s: string, i: int, j: int) {
    && 0 <= i <= j <= |s|
    && (forall k :: 0 <= k < i ==> IsSpace(s[k]))
    && (forall k :: j <= k < |s| ==> IsSpace(s[k]))
  }

  /** `s.lstrip()`: a suffix of `s`, all of whose removed characters are spaces. */
  function StripLeading(s: string): (r: string)
    ensures |r| <= |s| && r == s[|s| - |r|..]
    ensures forall k :: 0 <= k < |s| - |r| ==> IsSpace(s[k])
    ensures r == [] || !IsSpace(r[0])
  {
    if |s| > 0 && IsSpace(s[0]) then
      var r := StripLeading(s[1..]);
      assert s[1..][|s| - 1 - |r|..] == s[|s| - |r|..];
      assert forall k :: 1 <= k < |s| - |r| ==> s[k] == s[1..][k - 1];
      r
    else s
  }

  /** `s.rstrip()`: a prefix of `s`, all of whose removed characters are spaces. */
  function StripTrailing(s: string): (r: string)
    ensures |r| <= |s| && r == s[..|r|]
    ensures forall k :: |r| <= k < |s| ==> IsSpace(s[k])
    ensures r == [] || !IsSpace(r[|r| - 1])
  {
    if |s| > 0 && IsSpace(s[|s| - 1]) then StripTrailing(s[..|s| - 1]) else s
  }

  /**
   * Python's `strip()`: whitespace removed from both ends, so the result is
   * no longer than `s` and neither starts nor ends with whitespace.
   */
  function Strip(s: string): (r: string)
    ensures |r| <= |s|
    ensures NoOuterSpace(r)
  {
    var t := StripLeading(s);
    var r := StripTrailing(t);
    assert r != [] ==> r[0] == t[0];
    r
  }

  /**
   * `Strip(s)` is the slice `s[i..j]` obtained by removing only whitespace
   * from both ends.
   */
  lemma StripSpec(s: string)
    ensures exists i, j :: OuterSpaceRemoved(s, i, j) && Strip(s) == s[i..j]
  {
    var t := StripLeading(s);
    var r := StripTrailing(t);
    var i := |s| - |t|;
    PrefixOfSuffix(s, i, r);
    SpacesOfSuffix(s, i, |r|);
    assert OuterSpaceRemoved(s, i, i + |r|);
  }

  /** A prefix of the suffix `s[i..]` is a slice of `s`. */
  lemma PrefixOfSuffix(s: string, i: nat, r: string)
    requires i <= |s| && |r| <= |s| - i && r == s[i..][..|r|]
    ensures r == s[i..i + |r|]
  {
  }

  /** Whitespace at the tail of the suffix `s[i..]` is whitespace at the tail of `s`. */
  lemma SpacesOfSuffix(s: string, i: nat, n: nat)
    requires i <= |s| && n <= |s| - i
    requires forall k :: n <= k < |s[i..]| ==> IsSpace(s[i..][k])
    ensures forall k :: i + n <= k < |s| ==> IsSpace(s[k])
  {
    forall k | i + n <= k < |s| ensures IsSpace(s[k]) {
      assert s[k] == s[i..][k - i];
    }
  }

  /** A string without outer whitespace is left alone by `Strip`. */
  lemma StripKeepsClean(s: string)
    requires NoOuterSpace(s)
    ensures Strip(s) == s
  {
  }

  /** Stripping twice is the same as stripping once. */
  lemma StripIdempotent(s: string)
    ensures Strip(Strip(s)) == Strip(s)
  {
    StripSpec(s);
    StripKeepsClean(Strip(s));
  }
}
