/** The string operations of the source language that the text algorithms rest on. */
module PythonText {

  predicate IsSpace(c: char) {
    var n := c as int;
    || 9 <= n <= 13 || 28 <= n <= 32 || n == 0x85 || n == 0xa0 || n == 0x1680 || 0x2000 <= n <= 0x200a
    || n == 0x2028 || n == 0x2029 || n == 0x202f || n == 0x205f || n == 0x3000
  }

  predicate IsBlank(s: string) { forall i | 0 <= i < |s| :: IsSpace(s[i]) }

  /** No whitespace at either end. */
  predicate IsTrimmed(s: string) { s == "" || (!IsSpace(s[0]) && !IsSpace(s[|s| - 1])) }

  /** The first position from `i` on that is not whitespace. */
  function Forward(s: string, i: nat): (r: nat)
    requires i <= |s|
    ensures i <= r <= |s| && (forall k | i <= k < r :: IsSpace(s[k])) && (r < |s| ==> !IsSpace(s[r]))
    decreases |s| - i
  {
    if i == |s| || !IsSpace(s[i]) then i else Forward(s, i + 1)
  }

  /** The end of the text before `j` without the whitespace that precedes `j`. */
  function Backward(s: string, j: nat): (r: nat)
    requires j <= |s|
    ensures r <= j && (forall k | r <= k < j :: IsSpace(s[k])) && (r > 0 ==> !IsSpace(s[r - 1]))
  {
    if j == 0 || !IsSpace(s[j - 1]) then j else Backward(s, j - 1)
  }

  function LStrip(s: string): string { s[Forward(s, 0)..] }

  function RStrip(s: string): string { s[..Backward(s, |s|)] }

  function Strip(s: string): string { RStrip(LStrip(s)) }

  /** What stripping keeps is a trimmed slice, and what it drops on either side is blank. */
  lemma StripTrims(s: string) returns (a: nat, b: nat)
    ensures a <= b <= |s| && Strip(s) == s[a..b] && IsTrimmed(Strip(s))
    ensures IsBlank(s[..a]) && IsBlank(s[b..])
    ensures Strip(s) == "" <==> IsBlank(s)
  {
    hide IsSpace;
    a := Forward(s, 0);
    var left := s[a..];
    b := a + Backward(left, |left|);
    assert left[..b - a] == s[a..b];
    forall k | b <= k < |s| ensures IsSpace(s[k]) { assert s[k] == left[k - a]; }
    if a < b { assert left[b - a - 1] == s[b - 1] && !IsSpace(s[a]) && !IsSpace(s[b - 1]); }
    hide Forward, Backward;
    if a < b {
      assert s[a..b][0] == s[a] && s[a..b][b - a - 1] == s[b - 1];
    } else {
      forall k | 0 <= k < |s| ensures IsSpace(s[k]) {}
    }
  }

  /** A trimmed string is its own strip, and nothing else is. */
  lemma StripFixes(s: string)
    ensures Strip(s) == s <==> IsTrimmed(s)
  {
    hide IsSpace;
    var a, b := StripTrims(s);
    hide Strip;
    if s != "" && a > 0 { assert s[..a][0] == s[0]; }
    if s != "" && b < |s| { assert s[b..][|s| - b - 1] == s[|s| - 1]; }
  }

  /** `s.rfind(sub, 0, end)`: the last start of `sub` that ends by `end`, or -1. */
  method RFind(s: string, sub: string, end: nat) returns (index: int)
    requires sub != ""
    ensures index == -1 || Occurs(s, sub, end, index)
    ensures forall i | Occurs(s, sub, end, i) :: i <= index
  {
    var last := if end < |s| then end else |s|;
    index := last - |sub|;
    while index >= 0
      invariant -|sub| <= index <= last - |sub|
      invariant forall i | Occurs(s, sub, end, i) :: i <= index
    {
      if s[index..index + |sub|] == sub { return; }
      index := index - 1;
    }
    index := -1;
  }

  predicate Occurs(s: string, sub: string, end: nat, i: int) {
    0 <= i && i + |sub| <= end && i + |sub| <= |s| && s[i..i + |sub|] == sub
  }

  /** Among the ASCII characters these are white: tab to carriage return, the four separators, and the space. */
  lemma AsciiSpaces(c: char)
    requires c < 128 as char
    ensures IsSpace(c) <==> c in "\t\n\r " || c == 11 as char || c == 12 as char || 28 as char <= c <= 31 as char
  {
  }
}
