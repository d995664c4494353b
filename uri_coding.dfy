/**
 * The two places where the DOI type leans on java.net.URI, written out as
 * ASCII character classes of RFC 2396 (with the "[" and "]" that RFC 2732
 * adds to the reserved set, as java.net.URI does):
 *  - quoting a path (section 3.3): characters not allowed in a path become
 *    "%XX" with upper-case hex digits; "%" itself is always quoted;
 *  - checking and decoding a query (sections 2.4.2, 2.4.3 and 3.4): only
 *    "uric" characters and well-formed "%XX" escapes are accepted, and each
 *    escape decodes to the character with that code.
 * Characters outside ASCII pass through unchanged in all three.
 */
module UriCoding {
  import opened Nullable
  import opened JavaText

  predicate IsAscii(c: char) {
    c < 128 as char
  }

  predicate IsAlphaNum(c: char) {
    'a' <= c <= 'z' || 'A' <= c <= 'Z' || '0' <= c <= '9'
  }

  /** mark (RFC 2396 section 2.3). */
  predicate IsMark(c: char) {
    c == '-' || c == '_' || c == '.' || c == '!' || c == '~' || c == '*' || c == '\'' || c == '(' || c == ')'
  }

  /** unreserved = alphanum | mark (RFC 2396 section 2.3). */
  predicate IsUnreserved(c: char) {
    IsAlphaNum(c) || IsMark(c)
  }

  /** The reserved characters a path segment may hold (RFC 2396 section 3.3), with the separators ";" and "/". */
  predicate IsPathPunctuation(c: char) {
    c == ':' || c == '@' || c == '&' || c == '=' || c == '+' || c == '$' || c == ',' || c == ';' || c == '/'
  }

  /** reserved (RFC 2396 section 2.2, plus "[" and "]"). */
  predicate IsReserved(c: char) {
    IsPathPunctuation(c) || c == '?' || c == '[' || c == ']'
  }

  /** A character a path keeps as it is: pchar of RFC 2396 section 3.3 without escapes, plus ";" and "/". */
  predicate KeptInPath(c: char)
    ensures IsUnreserved(c) || c == ':' || c == ';' || c == '/' || c == '@' || c == '=' ==> KeptInPath(c)
    ensures KeptInPath(c) ==> c > ' ' && c != '%' && c != '#' && c != '?' && c != '[' && c != ']'
                              && c != '<' && c != '>' && c != '"' && c != '{' && c != '}' && c != '\\'
  {
    !IsAscii(c) || IsUnreserved(c) || IsPathPunctuation(c)
  }

  /** A character a query or fragment may hold unescaped: uric without escapes. */
  predicate AllowedInQuery(c: char)
    ensures c == '?' || c == '[' || c == ']' || c == '/' || c == ':' ==> AllowedInQuery(c)
    ensures AllowedInQuery(c) ==> c > ' ' && c != '%' && c != '#' && c != '<' && c != '>' && c != '"'
  {
    !IsAscii(c) || IsUnreserved(c) || IsReserved(c)
  }

  lemma PathCharsAreQueryChars(c: char)
    ensures KeptInPath(c) ==> AllowedInQuery(c) && c != '%' && c != '#'
  {
  }

  /** How a path quotes one character: kept, or "%" and two upper-case hex digits that decode back to it. */
  function EncodeChar(c: char): (r: string)
    ensures KeptInPath(c) ==> r == [c]
    ensures !KeptInPath(c) ==> |r| == 3 && r[0] == '%' && IsHexChar(r[1]) && IsHexChar(r[2])
                               && HexValue(r[1]) * 16 + HexValue(r[2]) == c as int
    ensures !KeptInPath(c) ==> !('a' <= r[1] <= 'z') && !('a' <= r[2] <= 'z')
  {
    if KeptInPath(c) then [c]
    else ['%', HexDigit(c as int / 16), HexDigit(c as int % 16)]
  }

  /** The path quoting java.net.URI applies when built from separate components. */
  function EncodePath(s: string): (r: string)
    ensures |s| <= |r| <= 3 * |s|
  {
    if s == [] then [] else EncodeChar(s[0]) + EncodePath(s[1..])
  }

  /**
   * java.net.URI's check of a query or fragment: every character is allowed
   * in a query, or is a "%" followed by two hex digits.
   */
  predicate ValidUric(s: string)
    ensures ValidUric(s) ==> '#' !in s
    ensures (forall i | 0 <= i < |s| :: AllowedInQuery(s[i])) ==> ValidUric(s)
  {
    if s == [] then true
    else if s[0] == '%' then |s| >= 3 && IsHexChar(s[1]) && IsHexChar(s[2]) && ValidUric(s[3..])
    else AllowedInQuery(s[0]) && ValidUric(s[1..])
  }

  /** Percent-decoding of a checked query: each "%XX" becomes the character with code XX. */
  function Decode(s: string): (r: string)
    requires ValidUric(s)
    ensures |r| <= |s|
    ensures '%' !in s ==> r == s
  {
    if s == [] then []
    else if s[0] == '%' then [(HexValue(s[1]) * 16 + HexValue(s[2])) as char] + Decode(s[3..])
    else [s[0]] + Decode(s[1..])
  }

  /**
   * The decoded query of the URI "some://host/path?" + t, or None when
   * java.net.URI refuses it. The parser ends the query at the first "#";
   * what follows is the fragment, which must pass the same check.
   */
  function QueryOf(t: string): (r: Option<string>)
    ensures '#' !in t ==> r == (if ValidUric(t) then Some(Decode(t)) else None)
    ensures r.Some? ==> var q := if '#' in t then t[..IndexOf(t, '#')] else t;
                        ValidUric(q) && r.value == Decode(q)
  {
    var h := IndexOf(t, '#');
    var query := if h < 0 then t else t[..h];
    if ValidUric(query) && (h < 0 || ValidUric(t[h + 1..])) then Some(Decode(query)) else None
  }

  lemma {:induction false} EncodePathAppend(a: string, b: string)
    ensures EncodePath(a + b) == EncodePath(a) + EncodePath(b)
  {
    if a == [] {
      assert a + b == b;
    } else {
      assert (a + b)[1..] == a[1..] + b;
      EncodePathAppend(a[1..], b);
    }
  }

  /** A string made only of path characters is its own encoding. */
  lemma {:induction false} EncodePathKeeps(s: string)
    requires forall i | 0 <= i < |s| :: KeptInPath(s[i])
    ensures EncodePath(s) == s
  {
    if s != [] {
      EncodePathKeeps(s[1..]);
    }
  }

  /** An encoded path holds only path characters and "%": in particular no "#" survives. */
  lemma {:induction false} EncodedPathIsLegal(s: string)
    ensures forall i | 0 <= i < |EncodePath(s)| :: EncodePath(s)[i] == '%' || KeptInPath(EncodePath(s)[i])
  {
    if s != [] {
      EncodedPathIsLegal(s[1..]);
      var e, rest := EncodeChar(s[0]), EncodePath(s[1..]);
      forall i | 0 <= i < |e + rest|
        ensures (e + rest)[i] == '%' || KeptInPath((e + rest)[i])
      {
        if i >= |e| {
          assert (e + rest)[i] == rest[i - |e|];
        }
      }
    }
  }

  lemma DecodeEncodeChar(c: char, rest: string)
    requires ValidUric(rest)
    ensures ValidUric(EncodeChar(c) + rest)
    ensures Decode(EncodeChar(c) + rest) == [c] + Decode(rest)
  {
    var e := EncodeChar(c);
    if KeptInPath(c) {
      assert (e + rest)[0] == c && (e + rest)[1..] == rest;
    } else {
      assert (e + rest)[..3] == e && (e + rest)[3..] == rest;
    }
  }

  /** No "#" survives encoding, so a parser cannot take any part of it for a fragment. */
  lemma {:induction false} EncodedPathHasNoHash(s: string)
    ensures '#' !in EncodePath(s)
  {
    if s != [] {
      EncodedPathHasNoHash(s[1..]);
      assert '#' !in EncodeChar(s[0]);
    }
  }

  /** Decoding undoes encoding, and every encoding passes the query check (RFC 2396 section 2.4.2). */
  lemma {:induction false} DecodeEncode(s: string)
    ensures ValidUric(EncodePath(s))
    ensures Decode(EncodePath(s)) == s
  {
    if s != [] {
      DecodeEncode(s[1..]);
      DecodeEncodeChar(s[0], EncodePath(s[1..]));
      assert [s[0]] + s[1..] == s;
    }
  }

  /** The query check rejects any ASCII character that is neither uric nor "%" (e.g. "<", ">", space, a second "#"). */
  lemma {:induction false} IllegalCharRejected(s: string, i: nat)
    requires i < |s| && !AllowedInQuery(s[i]) && s[i] != '%'
    ensures !ValidUric(s)
  {
    if s[0] == '%' {
      if |s| >= 3 && IsHexChar(s[1]) && IsHexChar(s[2]) {
        IllegalCharRejected(s[3..], i - 3);
      }
    } else if i > 0 {
      IllegalCharRejected(s[1..], i - 1);
    }
  }

  /** A "%" not followed by two hex digits, anywhere in the input, is refused. */
  lemma {:induction false} BadEscapeRejected(s: string, i: nat)
    requires i < |s| && s[i] == '%'
    requires i + 2 >= |s| || !IsHexChar(s[i + 1]) || !IsHexChar(s[i + 2])
    ensures !ValidUric(s)
  {
    if s[0] == '%' {
      if |s| >= 3 && IsHexChar(s[1]) && IsHexChar(s[2]) {
        BadEscapeRejected(s[3..], i - 3);
      }
    } else {
      BadEscapeRejected(s[1..], i - 1);
    }
  }

  /** A query part that passes the check keeps its decoded value; the fragment after "#" is dropped. */
  lemma QueryOfDropsFragment(q: string, f: string)
    requires '#' !in q && ValidUric(q) && ValidUric(f)
    ensures QueryOf(q + "#" + f) == Some(Decode(q))
  {
    var t := q + "#" + f;
    assert t[|q|] == '#' && t[..|q|] == q && t[|q| + 1..] == f;
    assert IndexOf(t, '#') == |q|;
  }

  /** A query or a fragment that fails the check makes java.net.URI refuse the whole remainder. */
  lemma QueryOfRefusesFragment(q: string, f: string)
    requires '#' !in q && (!ValidUric(q) || !ValidUric(f))
    ensures QueryOf(q + "#" + f) == None
  {
    var t := q + "#" + f;
    assert t[|q|] == '#' && t[..|q|] == q && t[|q| + 1..] == f;
    assert IndexOf(t, '#') == |q|;
  }

  /** Reading back an encoded string as a query gives the original string. */
  lemma QueryOfEncoded(s: string)
    ensures QueryOf(EncodePath(s)) == Some(s)
  {
    DecodeEncode(s);
    EncodedPathHasNoHash(s);
  }
}
