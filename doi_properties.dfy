/**
 * What the DOI type promises across its operations: parsing inverts
 * formatting in each presentation, how the "doi:" tag and the resolver
 * URLs are stripped, and what equals() and hashCode() decide.
 */
module DoiProperties {
  import opened Nullable
  import opened JavaText
  import opened UriCoding
  import opened DoiValue
  import JavaHash

  /** A pure body is split at its first "/" and handed to the constructor as it is. */
  lemma GetDoiOfParts(registrantCode: string, suffix: string)
    requires registrantCode != [] && '/' !in registrantCode
    ensures GetDoi("10." + registrantCode + "/" + suffix) == NewDoi(Some(registrantCode), Some(suffix))
  {
    var c := "10." + registrantCode + "/" + suffix;
    var s := 3 + |registrantCode|;
    assert StartsWith(c, DirectoryIndicatorPrefix) by { assert c[..3] == DirectoryIndicatorPrefix; }
    assert c[s] == '/';
    assert c[..s] == "10." + registrantCode;
    assert '/' !in c[..s];
    assert IndexOf(c, '/') == s;
    assert c[3..s] == registrantCode;
    assert c[s + 1..] == suffix;
    assert GetDoi(c) == NewDoi(Some(c[3..s]), Some(c[s + 1..]));
  }

  /** A string that starts with the directory indicator carries none of the recognised prefixes. */
  lemma PureDoiIsNotStripped(s: string)
    requires StartsWith(s, DirectoryIndicatorPrefix)
    ensures StripDoiPrefix(s) == Ok(s)
    ensures Create(Some(s)) == GetDoi(s)
  {
    var l := Lower(s);
    assert l[0] == '1';
    assert !StartsWith(l, PrintableDoiPrefix) by { assert PrintableDoiPrefix[0] == 'd'; }
    assert !StartsWith(l, SecureDefaultResolver) by { assert SecureDefaultResolver[0] == 'h'; }
    assert !StartsWith(l, UnsecureDefaultResolver) by { assert UnsecureDefaultResolver[0] == 'h'; }
  }

  /** A candidate with the directory indicator but no "/" lacks its registrant code. */
  lemma NoSlashMissingRegistrant(s: string)
    requires StartsWith(s, DirectoryIndicatorPrefix) && '/' !in s
    ensures Create(Some(s)) == Err(Malformed(MissingRegistrantCode))
  {
    PureDoiIsNotStripped(s);
  }

  /** An empty suffix passes the parser and is refused by the constructor as an invalid argument. */
  lemma EmptySuffixIsInvalidArgument(registrantCode: string)
    requires !IsBlank(registrantCode) && '/' !in registrantCode
    ensures Create(Some("10." + registrantCode + "/")) == Err(InvalidArgument(SuffixArg))
  {
    var c := "10." + registrantCode + "/";
    assert registrantCode != [];
    assert c + [] == c;
    GetDoiOfParts(registrantCode, []);
    assert StartsWith(c, DirectoryIndicatorPrefix) by { assert c[..3] == DirectoryIndicatorPrefix; }
    PureDoiIsNotStripped(c);
  }

  /** toString() opens with the directory indicator and its full stop. */
  lemma CanonicalPrefix(d: Doi)
    ensures StartsWith(ToString(d), DirectoryIndicatorPrefix)
  {
    assert ToString(d)[..3] == DirectoryIndicatorPrefix;
  }

  /**
   * When the registrant code holds no "/", the first "/" of toString() is
   * the one after it, and the suffix follows: the cut getDOI makes.
   */
  lemma CanonicalFirstSlash(d: Doi)
    requires '/' !in d.registrantCode
    ensures IndexOf(ToString(d), '/') == |DirectoryIndicatorPrefix| + |d.registrantCode|
    ensures ToString(d)[|DirectoryIndicatorPrefix| + |d.registrantCode| + 1..] == d.suffix
  {
    var c := ToString(d);
    var k := |DirectoryIndicatorPrefix| + |d.registrantCode|;
    assert c[k] == '/';
    assert forall j | 0 <= j < k :: c[j] != '/' by {
      forall j | 0 <= j < k ensures c[j] != '/' {
        if j >= 3 { assert c[j] == d.registrantCode[j - 3]; }
      }
    }
    assert c[k + 1..] == d.suffix;
  }

  /** Parsing the canonical string of a DOI the parser could have produced gives that DOI back. */
  lemma ParseCanonicalRoundTrip(d: Doi)
    requires Valid(d) && '/' !in d.registrantCode
    ensures GetDoi(ToString(d)) == Ok(d)
    ensures Create(Some(ToString(d))) == Ok(d)
  {
    assert d.registrantCode != [] by { assert !IsBlank(d.registrantCode); }
    CanonicalPrefix(d);
    GetDoiOfParts(d.registrantCode, d.suffix);
    PureDoiIsNotStripped(ToString(d));
  }

  /** A "/" in a constructed registrant code is not recovered: two DOIs share one canonical string. */
  lemma SlashInRegistrantCodeIsAmbiguous()
    ensures ToString(Doi("1/2", "3")) == ToString(Doi("1", "2/3"))
    ensures Create(Some(ToString(Doi("1/2", "3")))) == Ok(Doi("1", "2/3"))
  {
    var d := Doi("1", "2/3");
    assert ToString(Doi("1/2", "3")) == "10.1/2/3" == ToString(d);
    assert !IsBlank(d.registrantCode) by { assert d.registrantCode[0] > ' '; }
    assert !IsBlank(d.suffix) by { assert d.suffix[0] > ' '; }
    ParseCanonicalRoundTrip(d);
  }

  /** A "doi:" tag in any case is cut off verbatim, with no decoding; the tag alone is kept and fails. */
  lemma DoiLabelStrippedVerbatim(tag: string, s: string)
    requires Lower(tag) == PrintableDoiPrefix
    ensures Create(Some(tag + s)) == GetDoi(if s == [] then tag else s)
  {
    var u := tag + s;
    LowerAppend(tag, s);
    assert Lower(u)[..4] == Lower(tag);
    assert StartsWith(Lower(u), PrintableDoiPrefix);
    assert u[4..] == s;
    assert s == [] ==> u == tag;
    assert StripDoiPrefix(u) == Ok(if s == [] then tag else s);
  }

  /** create("doi:" + s), create("DOI:" + s), create("DoI:" + s) and create(s) agree on a pure DOI body. */
  lemma DoiLabelCaseIgnored(tag: string, s: string)
    requires Lower(tag) == PrintableDoiPrefix && StartsWith(s, DirectoryIndicatorPrefix)
    ensures Create(Some(tag + s)) == Create(Some(s))
  {
    DoiLabelStrippedVerbatim(tag, s);
    PureDoiIsNotStripped(s);
  }

  /** An input that is only the tag, in any case, is a malformed DOI. */
  lemma BareDoiLabelMalformed(tag: string)
    requires Lower(tag) == PrintableDoiPrefix
    ensures Create(Some(tag)) == Err(Malformed(NoDirectoryIndicator))
  {
    DoiLabelStrippedVerbatim(tag, []);
    assert tag + [] == tag;
    assert Lower(tag)[0] == LowerChar(tag[0]) == 'd';
    assert tag[0] != '1';
  }

  /**
   * After a resolver URL (in any case) the rest is percent-decoded as a URI
   * query: the DOI is parsed from the decoded text, and a rest java.net.URI
   * refuses makes the DOI malformed.
   */
  lemma ResolverPrefixDecoded(prefix: string, t: string)
    requires Lower(prefix) == SecureDefaultResolver || Lower(prefix) == UnsecureDefaultResolver
    requires t != []
    ensures Create(Some(prefix + t)) == match QueryOf(t)
                                        case None => Err(Malformed(UnescapedDoiInUri))
                                        case Some(q) => GetDoi(q)
  {
    var u := prefix + t;
    LowerAppend(prefix, t);
    assert Lower(u)[..|prefix|] == Lower(prefix);
    assert u[|prefix|..] == t;
    if Lower(prefix) == SecureDefaultResolver {
      SecureResolverStripped(u);
    } else {
      LegacyResolverStripped(u);
    }
  }

  /** An input starting with https://doi.org/ in any case, and longer than it, is cut by the first resolver. */
  lemma SecureResolverStripped(u: string)
    requires |u| > |SecureDefaultResolver| && StartsWith(Lower(u), SecureDefaultResolver)
    ensures StripDoiPrefix(u) == match QueryOf(u[|SecureDefaultResolver|..])
                                 case None => Err(Malformed(UnescapedDoiInUri))
                                 case Some(q) => Ok(q)
  {
    assert !StartsWith(Lower(u), PrintableDoiPrefix) by { assert Lower(u)[0] == 'h' && PrintableDoiPrefix[0] == 'd'; }
    assert DoiUrls[0] == SecureDefaultResolver;
  }

  /** An input starting with http://dx.doi.org/ in any case, and longer than it, is cut by the second resolver. */
  lemma LegacyResolverStripped(u: string)
    requires |u| > |UnsecureDefaultResolver| && StartsWith(Lower(u), UnsecureDefaultResolver)
    ensures StripDoiPrefix(u) == match QueryOf(u[|UnsecureDefaultResolver|..])
                                 case None => Err(Malformed(UnescapedDoiInUri))
                                 case Some(q) => Ok(q)
  {
    var l := Lower(u);
    assert !StartsWith(l, PrintableDoiPrefix) by { assert l[0] == 'h' && PrintableDoiPrefix[0] == 'd'; }
    assert !StartsWith(l, SecureDefaultResolver) by { assert l[4] == ':' && SecureDefaultResolver[4] == 's'; }
    assert DoiUrls[0] == SecureDefaultResolver && DoiUrls[1..] == [UnsecureDefaultResolver];
    assert StripResolverPrefix(u, DoiUrls) == StripResolverPrefix(u, [UnsecureDefaultResolver]);
  }

  /** The query java.net.URI reads from a remainder: everything before the first "#". */
  lemma QueryPartHolds(t: string, i: nat)
    requires i < |t| && t[i] != '#' && '#' !in t[..i]
    ensures var q := if '#' in t then t[..IndexOf(t, '#')] else t;
            i < |q| && q[..i + 1] == t[..i + 1] && (i + 2 < |q| ==> q[i + 1] == t[i + 1] && q[i + 2] == t[i + 2])
  {
    if '#' in t {
      assert IndexOf(t, '#') > i by {
        assert forall j | 0 <= j < i :: t[..i][j] == t[j];
      }
    }
  }

  /**
   * After a resolver URL, an ASCII character that is neither uric nor "%"
   * ahead of any "#" (such as the "<" of a legacy, unescaped DOI) makes the
   * DOI malformed.
   */
  lemma IllegalRemainderIsMalformed(prefix: string, t: string, i: nat)
    requires Lower(prefix) == SecureDefaultResolver || Lower(prefix) == UnsecureDefaultResolver
    requires i < |t| && !AllowedInQuery(t[i]) && t[i] != '%' && t[i] != '#' && '#' !in t[..i]
    ensures Create(Some(prefix + t)) == Err(Malformed(UnescapedDoiInUri))
  {
    ResolverPrefixDecoded(prefix, t);
    QueryPartHolds(t, i);
    var q := if '#' in t then t[..IndexOf(t, '#')] else t;
    assert q[i] == t[..i + 1][i];
    IllegalCharRejected(q, i);
  }

  /** After a resolver URL, a "%" ahead of any "#" that is not followed by two hex digits makes the DOI malformed. */
  lemma BadEscapeInRemainderIsMalformed(prefix: string, t: string, i: nat)
    requires Lower(prefix) == SecureDefaultResolver || Lower(prefix) == UnsecureDefaultResolver
    requires i < |t| && t[i] == '%' && '#' !in t[..i]
    requires i + 2 >= |t| || !IsHexChar(t[i + 1]) || !IsHexChar(t[i + 2])
    ensures Create(Some(prefix + t)) == Err(Malformed(UnescapedDoiInUri))
  {
    ResolverPrefixDecoded(prefix, t);
    QueryPartHolds(t, i);
    var q := if '#' in t then t[..IndexOf(t, '#')] else t;
    assert q[i] == t[..i + 1][i];
    BadEscapeRejected(q, i);
  }

  /** A resolver URL with nothing after it is not stripped and fails as malformed. */
  lemma BareResolverMalformed(prefix: string)
    requires Lower(prefix) == SecureDefaultResolver || Lower(prefix) == UnsecureDefaultResolver
    ensures Create(Some(prefix)) == Err(Malformed(NoDirectoryIndicator))
  {
    var l := Lower(prefix);
    assert l[0] == 'h' && l[4] == LowerChar(prefix[4]);
    assert !StartsWith(l, PrintableDoiPrefix) by { assert PrintableDoiPrefix[0] == 'd'; }
    if l == UnsecureDefaultResolver {
      assert !StartsWith(l, SecureDefaultResolver) by { assert SecureDefaultResolver[4] == 's'; }
    }
    assert StripDoiPrefix(prefix) == Ok(prefix);
    assert LowerChar(prefix[0]) == 'h';
    assert prefix[0] != '1';
  }

  lemma EncodedCanonicalNonEmpty(d: Doi)
    ensures EncodePath(ToString(d)) != []
  {
    CanonicalPrefix(d);
    assert EncodePath(ToString(d))[..1] == EncodeChar('1');
  }

  /** Parsing the URI that toURI() renders gives the DOI back: encoding and decoding cancel, "#" included. */
  lemma UriRoundTrip(d: Doi)
    requires Valid(d) && '/' !in d.registrantCode
    ensures Create(Some(ToUri(d))) == Ok(d)
  {
    EncodedCanonicalNonEmpty(d);
    ResolverUrlsLowerCase();
    ResolverPrefixDecoded(SecureDefaultResolver, EncodePath(ToString(d)));
    QueryOfEncoded(ToString(d));
    ParseCanonicalRoundTrip(d);
  }

  /** The same holds under the legacy resolver http://dx.doi.org/. */
  lemma LegacyUriRoundTrip(d: Doi)
    requires Valid(d) && '/' !in d.registrantCode
    ensures Create(Some(UriForDoi(d, Some(Uri(Some("http"), Some("dx.doi.org"), Some("/")))))) == Ok(d)
  {
    var resolver := Uri(Some("http"), Some("dx.doi.org"), Some("/"));
    UriShape(resolver, ToString(d));
    LegacyResolverBase();
    ResolverUrlsLowerCase();
    EncodedCanonicalNonEmpty(d);
    ResolverPrefixDecoded(UnsecureDefaultResolver, EncodePath(ToString(d)));
    QueryOfEncoded(ToString(d));
    ParseCanonicalRoundTrip(d);
  }

  lemma LegacyResolverBase()
    ensures ResolverBase(Uri(Some("http"), Some("dx.doi.org"), Some("/"))) + "/" == UnsecureDefaultResolver
  {
    assert ':' !in "dx.doi.org";
    ResolverBaseOf("http", "dx.doi.org", Some("/"));
  }

  lemma ResolverUrlsLowerCase()
    ensures Lower(SecureDefaultResolver) == SecureDefaultResolver
    ensures Lower(UnsecureDefaultResolver) == UnsecureDefaultResolver
  {
  }

  /** create(URI) inverts the decoded path of any URI rendered for the DOI, whatever its scheme and host. */
  lemma CreateFromUriRoundTrip(d: Doi, scheme: Option<string>, host: Option<string>)
    requires Valid(d) && '/' !in d.registrantCode
    ensures CreateFromUri(Some(Uri(scheme, host, Some("/" + ToString(d))))) == Ok(d)
  {
    assert ("/" + ToString(d))[1..] == ToString(d);
    ParseCanonicalRoundTrip(d);
  }

  /** The printable form parses back to the DOI. */
  lemma PrintableRoundTrip(d: Doi)
    requires Valid(d) && '/' !in d.registrantCode
    ensures Create(Some(ToPrintableDoi(d))) == Ok(d)
  {
    assert Lower("doi:") == PrintableDoiPrefix;
    DoiLabelCaseIgnored("doi:", ToString(d));
    ParseCanonicalRoundTrip(d);
  }

  /**
   * Every prefix isCommonlyUsedDoiPrefix accepts is one create() strips:
   * the tag in front of the canonical string, a resolver URL in front of
   * the encoded canonical string.
   */
  lemma CommonlyUsedPrefixStripped(prefix: string, d: Doi)
    requires IsCommonlyUsedDoiPrefix(Some(prefix))
    requires Valid(d) && '/' !in d.registrantCode
    ensures Lower(prefix) == PrintableDoiPrefix ==> Create(Some(prefix + ToString(d))) == Ok(d)
    ensures Lower(prefix) != PrintableDoiPrefix ==> Create(Some(prefix + EncodePath(ToString(d)))) == Ok(d)
  {
    ParseCanonicalRoundTrip(d);
    if Lower(prefix) == PrintableDoiPrefix {
      CanonicalPrefix(d);
      DoiLabelCaseIgnored(prefix, ToString(d));
    } else {
      EncodedCanonicalNonEmpty(d);
      ResolverPrefixDecoded(prefix, EncodePath(ToString(d)));
      QueryOfEncoded(ToString(d));
    }
  }

  /** equals() is reflexive, symmetric and transitive. */
  lemma EqualsIsEquivalence(a: Doi, b: Doi, c: Doi)
    ensures Equals(a, Some(a))
    ensures Equals(a, Some(b)) ==> Equals(b, Some(a))
    ensures Equals(a, Some(b)) && Equals(b, Some(c)) ==> Equals(a, Some(c))
    ensures !Equals(a, None)
  {
  }

  /** DOIs whose components differ only in ASCII case are equal and hash alike. */
  lemma CaseInsensitiveEquality(a: Doi, b: Doi)
    requires Lower(a.registrantCode) == Lower(b.registrantCode) && Lower(a.suffix) == Lower(b.suffix)
    ensures HashCode(a) == HashCode(b)
    ensures Equals(a, Some(b)) && EqualsIgnoreCase(a, Some(b))
  {
    LowerCanonical(a);
    LowerCanonical(b);
  }

  lemma LowerCanonical(d: Doi)
    ensures Lower(ToString(d)) == "10." + Lower(d.registrantCode) + "/" + Lower(d.suffix)
  {
    var head := "10." + d.registrantCode;
    LowerAppend("10.", d.registrantCode);
    LowerAppend(head, "/");
    LowerAppend(head + "/", d.suffix);
    assert Lower("10.") == "10.";
    assert Lower("/") == "/";
    assert ToString(d) == head + "/" + d.suffix;
  }

  /** Two Java ints that agree modulo 2^32 are the same int. */
  lemma Int32Congruent(x: int, y: int)
    requires JavaHash.IsInt32(x) && JavaHash.IsInt32(y)
    requires x % JavaHash.TwoTo32 == y % JavaHash.TwoTo32
    ensures x == y
  {
  }

  /**
   * As written, equals() compares hash codes only: "10.1/bz" and "10.1/c["
   * are different even ignoring case, yet their hashes collide
   * (31 * 'b' + 'z' == 31 * 'c' + '[') and equals() holds.
   */
  lemma HashCollisionCountsAsEqual()
    ensures Equals(Doi("1", "bz"), Some(Doi("1", "c[")))
    ensures !EqualsIgnoreCase(Doi("1", "bz"), Some(Doi("1", "c[")))
  {
    var a, b := Doi("1", "bz"), Doi("1", "c[");
    CollidingLowerForms();
    LowerCanonical(a);
    LowerCanonical(b);
    Int32Congruent(HashCode(a), HashCode(b));
  }

  lemma CollidingLowerForms()
    ensures Lower("1") == "1" && Lower("bz") == "bz" && Lower("c[") == "c["
    ensures JavaHash.PolynomialHash("10." + "1" + "/" + "bz") == JavaHash.PolynomialHash("10." + "1" + "/" + "c[")
    ensures "10." + "1" + "/" + "bz" != "10." + "1" + "/" + "c["
  {
    var head := "10.1/";
    assert "10." + "1" + "/" + "bz" == head + ['b'] + ['z'];
    assert "10." + "1" + "/" + "c[" == head + ['c'] + ['['];
    JavaHash.PolynomialHashSnoc(head, 'b');
    JavaHash.PolynomialHashSnoc(head + ['b'], 'z');
    JavaHash.PolynomialHashSnoc(head, 'c');
    JavaHash.PolynomialHashSnoc(head + ['c'], '[');
    assert ("10." + "1" + "/" + "bz")[5] != ("10." + "1" + "/" + "c[")[5];
  }

  /** The corrected equality is an equivalence relation consistent with hashCode(). */
  lemma EqualsIgnoreCaseIsEquivalence(a: Doi, b: Doi, c: Doi)
    ensures EqualsIgnoreCase(a, Some(a))
    ensures EqualsIgnoreCase(a, Some(b)) ==> EqualsIgnoreCase(b, Some(a)) && HashCode(a) == HashCode(b)
    ensures EqualsIgnoreCase(a, Some(b)) && EqualsIgnoreCase(b, Some(c)) ==> EqualsIgnoreCase(a, Some(c))
  {
  }
}
