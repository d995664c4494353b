/**
 * The few java.lang.String operations the DOI type relies on, over ASCII:
 * lower-casing, trim, startsWith, indexOf, and hexadecimal digits.
 */
module JavaText {

  /** String.toLowerCase on one character: 'A'..'Z' become 'a'..'z', every other character is kept. */
  function LowerChar(c: char): char {
    if 'A' <= c <= 'Z' then (c as int + 32) as char else c
  }

  /** String.toLowerCase, character by character. */
  function Lower(s: string): (r: string)
    ensures |r| == |s|
  {
    seq(|s|, i requires 0 <= i < |s| => LowerChar(s[i]))
  }

  lemma LowerAppend(a: string, b: string)
    ensures Lower(a + b) == Lower(a) + Lower(b)
  {
    assert forall i | 0 <= i < |a + b| :: Lower(a + b)[i] == (Lower(a) + Lower(b))[i];
  }

  /** String.startsWith. */
  predicate StartsWith(s: string, prefix: string) {
    |prefix| <= |s| && s[..|prefix|] == prefix
  }

  /** startsWith holds exactly when the string is the prefix followed by the rest. */
  lemma StartsWithSplits(s: string, prefix: string)
    ensures StartsWith(s, prefix) <==> |prefix| <= |s| && s == prefix + s[|prefix|..]
  {
    if |prefix| <= |s| {
      assert s == s[..|prefix|] + s[|prefix|..];
      assert (prefix + s[|prefix|..])[..|prefix|] == prefix;
    }
  }

  /** String.indexOf(char): the first index of `c` in `s`, or -1 when `c` does not occur. */
  function IndexOf(s: string, c: char): (i: int)
    ensures -1 <= i < |s|
    ensures i == -1 <==> c !in s
    ensures 0 <= i ==> s[i] == c && c !in s[..i]
  {
    if s == [] then -1
    else if s[0] == c then 0
    else
      var j := IndexOf(s[1..], c);
      if j < 0 then -1 else j + 1
  }

  /** Every character is one that String.trim removes (code point at most U+0020). */
  predicate IsBlank(s: string) {
    forall i | 0 <= i < |s| :: s[i] <= ' '
  }

  /** The leading loop of String.trim: drop characters up to U+0020 from the front. */
  function TrimLeading(s: string): (r: string)
    ensures |r| <= |s| && r == s[|s| - |r|..]
    ensures IsBlank(s[..|s| - |r|])
    ensures r == [] || r[0] > ' '
  {
    if s != [] && s[0] <= ' ' then
      var r := TrimLeading(s[1..]);
      assert s[1..][..|s| - 1 - |r|] == s[1..|s| - |r|];
      r
    else s
  }

  /** The trailing loop of String.trim: drop characters up to U+0020 from the back. */
  function TrimTrailing(s: string): (r: string)
    ensures |r| <= |s| && r == s[..|r|]
    ensures IsBlank(s[|r|..])
    ensures r == [] || r[|r| - 1] > ' '
  {
    if s != [] && s[|s| - 1] <= ' ' then
      var t := s[..|s| - 1];
      var r := TrimTrailing(t);
      assert t[..|r|] == s[..|r|];
      assert IsBlank(s[|r|..]) by {
        forall i | 0 <= i < |s| - |r| ensures s[|r|..][i] <= ' ' {
          if i < |t| - |r| { assert s[|r|..][i] == t[|r|..][i]; }
        }
      }
      r
    else s
  }

  /** String.trim: both ends stripped of characters up to U+0020; empty exactly when `s` is blank. */
  function Trim(s: string): (r: string)
    ensures r == [] <==> IsBlank(s)
    ensures r != [] ==> r[0] > ' ' && r[|r| - 1] > ' '
  {
    TrimBlank(s);
    TrimTrailing(TrimLeading(s))
  }

  lemma TrimBlank(s: string)
    ensures TrimTrailing(TrimLeading(s)) == [] <==> IsBlank(s)
    ensures TrimTrailing(TrimLeading(s)) != [] ==> TrimTrailing(TrimLeading(s))[0] > ' '
  {
    var t := TrimLeading(s);
    var r := TrimTrailing(t);
    if t == [] {
      assert s[..|s|] == s;
    } else {
      assert t[0] > ' ';
      assert t[0] == s[|s| - |t|];
      assert !IsBlank(s);
      assert r[0] == t[0];
    }
  }

  /** An ASCII hexadecimal digit, in either case. */
  predicate IsHexChar(c: char) {
    '0' <= c <= '9' || 'A' <= c <= 'F' || 'a' <= c <= 'f'
  }

  /** The value of a hexadecimal digit. */
  function HexValue(c: char): (v: nat)
    requires IsHexChar(c)
    ensures v < 16
  {
    if '0' <= c <= '9' then c as int - '0' as int
    else if 'A' <= c <= 'F' then c as int - 'A' as int + 10
    else c as int - 'a' as int + 10
  }

  /** The upper-case hexadecimal digit java.net.URI writes for `n`; reading it back gives `n`. */
  function HexDigit(n: nat): (c: char)
    requires n < 16
    ensures IsHexChar(c) && HexValue(c) == n
    ensures !('a' <= c <= 'z')
  {
    if n < 10 then ('0' as int + n) as char else ('A' as int + n - 10) as char
  }
}
