/** The concrete cases of the project's unit tests, derived from the model. */
module DoiExamples {
  import opened Nullable
  import opened JavaText
  import opened UriCoding
  import opened DoiValue
  import opened DoiProperties
  import JavaHash

  /** A string not starting with "d", "h" (in either case) carries none of the recognised prefixes. */
  lemma UnprefixedKeptWhole(s: string)
    requires s != [] && LowerChar(s[0]) != 'd' && LowerChar(s[0]) != 'h'
    ensures Create(Some(s)) == GetDoi(s)
  {
    var l := Lower(s);
    assert l[0] == LowerChar(s[0]);
    assert !StartsWith(l, PrintableDoiPrefix) by { assert PrintableDoiPrefix[0] == 'd'; }
    assert !StartsWith(l, SecureDefaultResolver) by { assert SecureDefaultResolver[0] == 'h'; }
    assert !StartsWith(l, UnsecureDefaultResolver) by { assert UnsecureDefaultResolver[0] == 'h'; }
  }

  lemma NotBlank(s: string)
    requires s != [] && s[0] > ' '
    ensures !IsBlank(s)
  {
  }

  /** A DOI whose components start with a visible character and whose registrant code has no "/" is one the parser yields. */
  lemma Parseable(d: Doi)
    requires d.registrantCode != [] && d.registrantCode[0] > ' ' && d.suffix != [] && d.suffix[0] > ' '
    requires forall i | 0 <= i < |d.registrantCode| :: d.registrantCode[i] != '/'
    ensures Valid(d) && '/' !in d.registrantCode
  {
    NotBlank(d.registrantCode);
    NotBlank(d.suffix);
  }

  /** Quoting a string with one character outside the path set escapes that character alone. */
  lemma EncodeAround(a: string, x: char, b: string)
    requires forall i | 0 <= i < |a| :: KeptInPath(a[i])
    requires forall i | 0 <= i < |b| :: KeptInPath(b[i])
    ensures EncodePath(a + [x] + b) == a + EncodeChar(x) + b
  {
    EncodePathAppend(a + [x], b);
    EncodePathAppend(a, [x]);
    EncodePathKeeps(a);
    EncodePathKeeps(b);
    EncodeSingle(x);
  }

  /** A one-character string quotes as that character does. */
  lemma EncodeSingle(x: char)
    ensures EncodePath([x]) == EncodeChar(x)
  {
    assert [x][1..] == [];
    assert EncodeChar(x) + [] == EncodeChar(x);
  }

  /** The same with two such characters. */
  lemma EncodeAroundTwo(a: string, x: char, b: string, y: char, c: string)
    requires forall i | 0 <= i < |a| :: KeptInPath(a[i])
    requires forall i | 0 <= i < |b| :: KeptInPath(b[i])
    requires forall i | 0 <= i < |c| :: KeptInPath(c[i])
    ensures EncodePath(a + [x] + b + [y] + c) == a + EncodeChar(x) + b + EncodeChar(y) + c
  {
    var head := a + [x] + b;
    EncodePathKeeps(c);
    calc {
      EncodePath(head + [y] + c);
    == { EncodePathAppend(head + [y], c); }
      EncodePath(head + [y]) + EncodePath(c);
    == { EncodePathAppend(head, [y]); }
      EncodePath(head) + EncodePath([y]) + c;
    == { assert EncodePath([y]) == EncodeChar(y) + EncodePath([]); EncodeAround(a, x, b);
         Regroup(EncodePath(head), a, EncodeChar(x), b, EncodeChar(y), EncodePath([]), c); }
      a + EncodeChar(x) + b + EncodeChar(y) + c;
    }
  }

  /** Concatenation regrouped, stated once so that the proofs need not rediscover associativity. */
  lemma Regroup(p: string, a: string, ex: string, b: string, ey: string, empty: string, c: string)
    requires p == a + ex + b && empty == []
    ensures p + (ey + empty) + c == a + ex + b + ey + c
  {
  }

  /** DOITest.throwOnNull* and throwOnEmpty*. */
  lemma NullAndEmptyArguments()
    ensures NewDoi(None, Some("bla")) == Err(NullInput(RegistrantCodeArg))
    ensures NewDoi(Some("foo"), None) == Err(NullInput(SuffixArg))
    ensures NewDoi(Some("foo"), Some("")) == Err(InvalidArgument(SuffixArg))
    ensures NewDoi(Some(""), Some("foo")) == Err(InvalidArgument(RegistrantCodeArg))
  {
    NotBlank("foo");
  }

  /** DOITest.throwOnInvalidDirectoryIndicator: a DOI must open with "10.". */
  lemma InvalidDirectoryIndicatorExample(s: string)
    requires s == "9.1000/123456"
    ensures Create(Some(s)) == Err(Malformed(NoDirectoryIndicator))
  {
    UnprefixedKeptWhole(s);
    assert !StartsWith(s, DirectoryIndicatorPrefix) by { assert s[0] != DirectoryIndicatorPrefix[0]; }
  }

  /** DOITest.throwOnFoo. */
  lemma FooExample(s: string)
    requires s == "foo"
    ensures Create(Some(s)) == Err(Malformed(NoDirectoryIndicator))
  {
    UnprefixedKeptWhole(s);
    assert !StartsWith(s, DirectoryIndicatorPrefix) by { assert s[0] != DirectoryIndicatorPrefix[0]; }
  }

  /** The canonical string is the head "10." + registrant code + "/" followed by the suffix. */
  lemma CanonicalOfParts(d: Doi, head: string)
    requires head == "10." + d.registrantCode + "/"
    ensures ToString(d) == head + d.suffix
  {
  }

  /** A DOI the parser yields, with canonical string s: s parses back to it and its printable form is "doi:" + s. */
  lemma CanonicalExample(d: Doi, s: string)
    requires Valid(d) && '/' !in d.registrantCode && ToString(d) == s
    ensures Create(Some(s)) == Ok(d) && ToPrintableDoi(d) == "doi:" + s
  {
    ParseCanonicalRoundTrip(d);
  }

  /**
   * The same DOI, whose head needs no quoting and whose suffix quotes as
   * `encoded`: toURI() is https://doi.org/ followed by both, and parses back.
   */
  lemma SecureUriExample(d: Doi, head: string, encoded: string, u: string)
    requires Valid(d) && '/' !in d.registrantCode && ToString(d) == head + d.suffix
    requires forall i | 0 <= i < |head| :: KeptInPath(head[i])
    requires EncodePath(d.suffix) == encoded && SecureDefaultResolver + head + encoded == u
    ensures ToUri(d) == u && Create(Some(u)) == Ok(d)
  {
    calc {
      ToUri(d);
    ==
      SecureDefaultResolver + EncodePath(head + d.suffix);
    == { EncodePathAppend(head, d.suffix); EncodePathKeeps(head); }
      SecureDefaultResolver + (head + encoded);
    == { Associate(SecureDefaultResolver, head, encoded); }
      u;
    }
    UriRoundTrip(d);
  }

  /** The same for three pieces. */
  lemma Associate(p: string, q: string, r: string)
    ensures p + (q + r) == p + q + r
  {
  }

  /** DOITest.constructor and DOITest.doiToString. */
  lemma ConstructorExample(d: Doi)
    requires d == Doi("123", "456")
    ensures NewDoi(Some(d.registrantCode), Some(d.suffix)) == Ok(d)
    ensures ToString(d) == "10.123/456"
    ensures Prefix(d) == "10.123"
    ensures ToPrintableDoi(d) == "doi:10.123/456"
    ensures ToUri(d) == "https://doi.org/10.123/456"
  {
    Parseable(d);
    ConstructorForms(d);
    CanonicalOfParts(d, "10.123/");
    ConstructorEncoded("10.123/", d.suffix);
    SecureUriExample(d, "10.123/", d.suffix, "https://doi.org/10.123/456");
  }

  /**
   * DOITest.createWithURI and DOITest.createWithDxURI (hosts doi.org and
   * example.org): create(URI) reads the path whatever the host, and toURI()
   * renders under https://doi.org/.
   */
  lemma CreateWithUriExample(d: Doi, host: string, path: string)
    requires d == Doi("123", "456") && path == "/10.123/456"
    ensures CreateFromUri(Some(Uri(Some("https"), Some(host), Some(path)))) == Ok(d)
    ensures ToUri(d) == "https://doi.org/10.123/456"
  {
    ConstructorForms(d);
    Parseable(d);
    RootedLiteral(ToString(d), path);
    UriPathExample(d, host, path);
    ConstructorExample(d);
  }

  /** create(URI) of a URI whose path is "/" + the canonical string of a DOI the parser yields. */
  lemma UriPathExample(d: Doi, host: string, path: string)
    requires Valid(d) && '/' !in d.registrantCode && path == "/" + ToString(d)
    ensures CreateFromUri(Some(Uri(Some("https"), Some(host), Some(path)))) == Ok(d)
  {
    CreateFromUriRoundTrip(d, Some("https"), Some(host));
  }

  /** DOITest.createWithPrintable and createWithPrintableCaseInsensitive*: the "doi:" tag in any case. */
  lemma PrintableExample(d: Doi, tag: string, s: string)
    requires d == Doi("123", "456") && (tag == "doi:" || tag == "DOI:" || tag == "DoI:") && s == "10.123/456"
    ensures Create(Some(tag + s)) == Ok(d)
    ensures ToPrintableDoi(d) == "doi:10.123/456" && Prefix(d) == "10.123"
  {
    Parseable(d);
    ConstructorForms(d);
    CanonicalExample(d, s);
    LowerTag(tag);
    CanonicalPrefix(d);
    DoiLabelCaseIgnored(tag, s);
  }

  /** DOITest.createFromPlainDOI: "<" and ">" in a plain DOI string are taken as they are. */
  lemma PlainDoiExample(d: Doi, s: string)
    requires d == Doi("1644", "1545-1410(2001)683<0001:sa>2.0.co;2") && s == "10.1644/" + d.suffix
    ensures Create(Some(s)) == Ok(d)
    ensures ToPrintableDoi(d) == "doi:" + s && Prefix(d) == "10.1644"
  {
    Parseable(d);
    CanonicalOfParts(d, "10.1644/");
    CanonicalExample(d, s);
    PlainDoiPrefix(d);
  }

  /** DOITest.throwOnMissingRegistrantAndSuffix: "10" lacks the full stop of the directory indicator. */
  lemma BareDirectoryIndicatorExample(s: string)
    requires s == "10"
    ensures Create(Some(s)) == Err(Malformed(NoDirectoryIndicator))
  {
    UnprefixedKeptWhole(s);
    assert !StartsWith(s, DirectoryIndicatorPrefix) by { assert |s| < |DirectoryIndicatorPrefix|; }
  }

  /** DOITest.throwOnMissingSuffix: an input with "10." but no "/" lacks its registrant code. */
  lemma MissingSlashExample(s: string)
    requires s == "10.1038.issn.1476-4687"
    ensures Create(Some(s)) == Err(Malformed(MissingRegistrantCode))
  {
    assert StartsWith(s, DirectoryIndicatorPrefix) by { assert s[..3] == DirectoryIndicatorPrefix; }
    assert '/' !in s by { assert forall i | 0 <= i < |s| :: s[i] != '/'; }
    NoSlashMissingRegistrant(s);
  }

  /**
   * DOITest.toURIWithHash, toPrintableWithHash and createFromURIWithHash:
   * the "#" is escaped in the URI, kept in the printable form, and decoded
   * again when the URI is parsed. The test's strings are written cut at the
   * escaped character.
   */
  lemma HashExample(d: Doi, a: string, b: string, s: string, u: string)
    requires a == "123" && b == "456" && d == Doi("1000", a + "#" + b)
    requires s == "10.1000/" + d.suffix && u == "https://doi.org/10.1000/" + (a + "%23" + b)
    ensures Create(Some(s)) == Ok(d)
    ensures ToPrintableDoi(d) == "doi:" + s
    ensures ToUri(d) == u
    ensures Create(Some(u)) == Ok(d)
  {
    var head := "10.1000/";
    Parseable(d);
    CanonicalOfParts(d, head);
    CanonicalExample(d, s);
    KeptLiterals(head, a, b, "");
    EncodeAround(a, '#', b);
    Escapes();
    SecureHead(head, "https://doi.org/10.1000/");
    SecureUriExample(d, head, a + "%23" + b, u);
  }

  /**
   * DOITest.toURIWithAngularBrackets, toPrintableWithAngularBrackets and
   * createFromURIWithAngularBrackets: "<" and ">" become "%3C" and "%3E".
   */
  lemma AngleBracketExample(d: Doi, x: string, b: string, c: string, s: string, u: string)
    requires x == "0003-0090(2000)264" && b == "0083:" && c == "2.0.co;2" && d == Doi("1206", x + "<" + b + ">" + c)
    requires s == "10.1206/" + d.suffix && u == "https://doi.org/10.1206/" + (x + "%3C" + b + "%3E" + c)
    ensures Create(Some(s)) == Ok(d)
    ensures ToPrintableDoi(d) == "doi:" + s
    ensures ToUri(d) == u
    ensures Create(Some(u)) == Ok(d)
  {
    var head := "10.1206/";
    Parseable(d);
    CanonicalOfParts(d, head);
    CanonicalExample(d, s);
    KeptLiterals(head, x, b, c);
    EncodeAroundTwo(x, '<', b, '>', c);
    Escapes();
    SecureHead(head, "https://doi.org/10.1206/");
    SecureUriExample(d, head, x + "%3C" + b + "%3E" + c, u);
  }

  /** DOITest.toURIWithResolver and toURIWithNullResolver: the resolver's scheme and host, https://doi.org by default. */
  lemma ResolverExample(d: Doi)
    requires d == Doi("1000", "123456")
    ensures UriForDoi(d, Some(Uri(Some("https"), Some("example.org"), Some("")))) == "https://example.org/10.1000/123456"
    ensures UriForDoi(d, None) == "https://doi.org/10.1000/123456"
  {
    var c := ToString(d);
    ResolverCanonical(d, c);
    ResolverKept(c);
    var example := Uri(Some("https"), Some("example.org"), Some(""));
    UriShape(example, c);
    UriShape(SecureResolverUri, c);
    ResolverBases(ResolverBase(example), ResolverBase(SecureResolverUri));
    ResolverLiterals(c);
  }

  /**
   * DOITest.escaping: the DOI string is kept, and under the legacy resolver
   * http://dx.doi.org/ the URI escapes "<" and ">".
   */
  lemma EscapingExample(d: Doi, x: string, b: string, c: string, s: string, u: string)
    requires x == "1051-1733(2004)085" && b == "0062:dcabso" && c == "2.0.co;2" && d == Doi("1898", x + "<" + b + ">" + c)
    requires s == "10.1898/" + d.suffix && u == "http://dx.doi.org/10.1898/" + (x + "%3C" + b + "%3E" + c)
    ensures Create(Some(s)) == Ok(d) && ToString(d) == s
    ensures UriForDoi(d, Some(Uri(Some("http"), Some("dx.doi.org"), Some("/")))) == u
  {
    var head, e := "10.1898/", x + "%3C" + b + "%3E" + c;
    var legacy := Uri(Some("http"), Some("dx.doi.org"), Some("/"));
    Parseable(d);
    CanonicalOfParts(d, head);
    CanonicalExample(d, s);
    KeptLiterals(head, x, b, c);
    EncodeAroundTwo(x, '<', b, '>', c);
    Escapes();
    EncodePathAppend(head, d.suffix);
    EncodePathKeeps(head);
    UriShape(legacy, s);
    LegacyBase(ResolverBase(legacy), head);
    Associate(ResolverBase(legacy) + "/", head, e);
  }

  /** After a resolver URL, a "<" with no "#" before it is refused by the URI parser: the DOI is malformed. */
  lemma UnescapedAfterResolver(prefix: string, x: string, y: string)
    requires Lower(prefix) == SecureDefaultResolver || Lower(prefix) == UnsecureDefaultResolver
    requires '#' !in x
    ensures Create(Some(prefix + (x + "<" + y))) == Err(Malformed(UnescapedDoiInUri))
  {
    var t := x + "<" + y;
    assert t[|x|] == '<' && t[..|x|] == x;
    IllegalRemainderIsMalformed(prefix, t, |x|);
  }

  /**
   * DOITest.fromURL4 and DOITest.throwOnMalformedURI: the DOIs of the test,
   * cut at their first "<", after http://dx.doi.org/.
   */
  lemma UnescapedUriExample(prefix: string, x: string, y: string)
    requires prefix == "http://dx.doi.org/"
    requires (x == "10.1898/1051-1733(2004)085" && y == "0062:dcabso>2.0.co;2")
          || (x == "10.1577/1548-8659(1993)122" && y == "0378:fotgsi>2.3.co;2")
    ensures Create(Some(prefix + (x + "<" + y))) == Err(Malformed(UnescapedDoiInUri))
  {
    assert Lower(prefix) == UnsecureDefaultResolver;
    assert forall i | 0 <= i < |x| :: x[i] != '#';
    UnescapedAfterResolver(prefix, x, y);
  }

  /** DOITest.whitespace: a space is kept in the suffix and escaped as "%20" in the URI. */
  lemma WhitespaceExample(d: Doi, a: string, b: string, s: string, u: string)
    requires a == "some" && b == "citation" && d == Doi("some", a + " " + b)
    requires s == "10.some/" + d.suffix && u == "https://doi.org/10.some/" + (a + "%20" + b)
    ensures Create(Some(s)) == Ok(d) && d.suffix == "some citation"
    ensures ToUri(d) == u
  {
    var head := "10.some/";
    SpacedSuffix(a, b);
    Parseable(d);
    CanonicalOfParts(d, head);
    CanonicalExample(d, s);
    KeptLiterals(head, a, b, "");
    EncodeAround(a, ' ', b);
    Escapes();
    SecureHead(head, "https://doi.org/10.some/");
    SecureUriExample(d, head, a + "%20" + b, u);
  }

  /** DOITest.commonlyUsedPrefix*. */
  lemma PrefixPredicateExamples()
    ensures IsCommonlyUsedDoiPrefix(Some("doi:"))
    ensures IsCommonlyUsedDoiPrefix(Some("https://doi.org/"))
    ensures IsCommonlyUsedDoiPrefix(Some("http://dx.doi.org/"))
    ensures !IsCommonlyUsedDoiPrefix(Some("http://example.org"))
    ensures !IsCommonlyUsedDoiPrefix(None)
  {
    assert Lower("doi:") == "doi:";
    assert Lower("https://doi.org/") == "https://doi.org/";
    assert Lower("http://dx.doi.org/") == "http://dx.doi.org/";
    assert |Lower("http://example.org")| == 18 && Lower("http://example.org")[7] == 'e';
  }

  /**
   * DOITest.equals and DOITest.hashCaseInsensitive: ABC and AbC are equal
   * and hash alike; AbCD differs from both, in equals() and in hashCode().
   */
  lemma EqualityExample(a: Doi, b: Doi, c: Doi)
    requires a == Doi("1", "ABC") && b == Doi("1", "AbC") && c == Doi("1", "AbCD")
    ensures Equals(a, Some(b)) && HashCode(a) == HashCode(b)
    ensures !Equals(b, Some(c)) && HashCode(b) != HashCode(c)
    ensures !Equals(a, Some(c)) && HashCode(a) != HashCode(c)
  {
    EqualityLowerForms(a, b, c);
    CaseInsensitiveEquality(a, b);
    LowerCanonical(b);
    LowerCanonical(c);
    AbcLiterals(Lower(ToString(b)), Lower(ToString(c)));
    HashesOfAbc(Lower(ToString(b)));
  }

  /** The three DOIs of DOITest.equals are those create() reads from their https://doi.org URIs. */
  lemma EqualityInputsParsed(d: Doi, u: string)
    requires d.registrantCode == "1" && (d.suffix == "ABC" || d.suffix == "AbC" || d.suffix == "AbCD")
    requires u == "https://doi.org/10.1/" + d.suffix
    ensures Create(Some(u)) == Ok(d)
  {
    var head := "10.1/";
    Parseable(d);
    CanonicalOfParts(d, head);
    KeptLiterals(head, "", "", "");
    assert forall i | 0 <= i < |d.suffix| :: KeptInPath(d.suffix[i]);
    EncodePathKeeps(d.suffix);
    SecureHead(head, "https://doi.org/10.1/");
    SecureUriExample(d, head, d.suffix, u);
  }

  /*
   * Literal facts. Each one settles a single computation on the tests'
   * literal strings (a concatenation, a lower-cased tag, a run that needs no
   * quoting, a hash step) in a lemma of its own, with its inputs pinned by
   * its requires. The examples above call them instead of computing on long
   * literals in place: the solver then proves each fact without the rest of
   * an example in view, which keeps every proof well within its budget.
   */

  lemma ConstructorForms(d: Doi)
    requires d == Doi("123", "456")
    ensures ToString(d) == "10.123/456" && Prefix(d) == "10.123" && ToPrintableDoi(d) == "doi:10.123/456"
  {
  }

  lemma ConstructorEncoded(head: string, suffix: string)
    requires head == "10.123/" && suffix == "456"
    ensures forall i | 0 <= i < |head| :: KeptInPath(head[i])
    ensures EncodePath(suffix) == suffix && SecureDefaultResolver + head + suffix == "https://doi.org/10.123/456"
  {
    KeptLiterals(head, suffix, "", "");
    EncodePathKeeps(suffix);
    SecureHead(head, "https://doi.org/10.123/");
    ConstructorUriLiteral("https://doi.org/10.123/", suffix);
  }

  lemma ConstructorUriLiteral(full: string, suffix: string)
    requires full == "https://doi.org/10.123/" && suffix == "456"
    ensures full + suffix == "https://doi.org/10.123/456"
  {
  }

  lemma RootedLiteral(c: string, p: string)
    requires c == "10.123/456" && p == "/10.123/456"
    ensures "/" + c == p
  {
  }

  lemma LowerTag(tag: string)
    requires tag == "doi:" || tag == "DOI:" || tag == "DoI:"
    ensures Lower(tag) == PrintableDoiPrefix
  {
  }

  lemma PlainDoiPrefix(d: Doi)
    requires d == Doi("1644", "1545-1410(2001)683<0001:sa>2.0.co;2")
    ensures Prefix(d) == "10.1644"
  {
  }

  lemma SecureHead(head: string, full: string)
    requires || (head == "10.123/" && full == "https://doi.org/10.123/")
             || (head == "10.1000/" && full == "https://doi.org/10.1000/")
             || (head == "10.1206/" && full == "https://doi.org/10.1206/")
             || (head == "10.some/" && full == "https://doi.org/10.some/")
             || (head == "10.1/" && full == "https://doi.org/10.1/")
    ensures SecureDefaultResolver + head == full
  {
  }

  /** Each of the given strings needs no quoting in a path. */
  lemma KeptLiterals(w: string, x: string, y: string, z: string)
    requires w in {"10.123/", "10.1000/", "10.1206/", "10.1898/", "10.some/", "10.1/", ""}
    requires x in {"123", "456", "0003-0090(2000)264", "1051-1733(2004)085", "some", ""}
    requires y in {"456", "0083:", "0062:dcabso", "citation", ""}
    requires z in {"2.0.co;2", ""}
    ensures forall i | 0 <= i < |w| :: KeptInPath(w[i])
    ensures forall i | 0 <= i < |x| :: KeptInPath(x[i])
    ensures forall i | 0 <= i < |y| :: KeptInPath(y[i])
    ensures forall i | 0 <= i < |z| :: KeptInPath(z[i])
  {
  }

  lemma ResolverCanonical(d: Doi, c: string)
    requires d == Doi("1000", "123456") && c == ToString(d)
    ensures c == "10.1000/123456"
  {
  }

  lemma ResolverKept(c: string)
    requires c == "10.1000/123456"
    ensures EncodePath(c) == c
  {
    assert forall i | 0 <= i < |c| :: KeptInPath(c[i]);
    EncodePathKeeps(c);
  }

  lemma ResolverBases(example: string, secure: string)
    requires example == ResolverBase(Uri(Some("https"), Some("example.org"), Some("")))
    requires secure == ResolverBase(SecureResolverUri)
    ensures example == "https://example.org" && secure == "https://doi.org"
  {
    assert ':' !in "example.org" && ':' !in "doi.org";
    ResolverBaseOf("https", "example.org", Some(""));
    ResolverBaseOf("https", "doi.org", Some("/"));
  }

  lemma ResolverLiterals(c: string)
    requires c == "10.1000/123456"
    ensures "https://example.org" + "/" + c == "https://example.org/10.1000/123456"
    ensures "https://doi.org" + "/" + c == "https://doi.org/10.1000/123456"
  {
  }

  lemma LegacyBase(base: string, head: string)
    requires base == ResolverBase(Uri(Some("http"), Some("dx.doi.org"), Some("/"))) && head == "10.1898/"
    ensures base + "/" + head == "http://dx.doi.org/10.1898/"
  {
    assert ':' !in "dx.doi.org";
    ResolverBaseOf("http", "dx.doi.org", Some("/"));
  }

  lemma SpacedSuffix(a: string, b: string)
    requires a == "some" && b == "citation"
    ensures a + " " + b == "some citation"
  {
  }

  lemma EqualityLowerForms(a: Doi, b: Doi, c: Doi)
    requires a == Doi("1", "ABC") && b == Doi("1", "AbC") && c == Doi("1", "AbCD")
    ensures Lower(a.registrantCode) == Lower(b.registrantCode) == Lower(c.registrantCode) == "1"
    ensures Lower(a.suffix) == Lower(b.suffix) == "abc" && Lower(c.suffix) == "abcd"
  {
  }

  lemma AbcLiterals(l: string, m: string)
    requires l == "10." + "1" + "/" + "abc" && m == "10." + "1" + "/" + "abcd"
    ensures l == "10.1/abc" && m == l + "d"
  {
  }

  /** The hash loop over "10.1/abc" and "10.1/abcd", step by step. */
  lemma HashesOfAbc(s: string)
    requires s == "10.1/abc"
    ensures JavaHash.HashBits(s) == 512554229 && JavaHash.HashBits(s + "d") == 3004279311
  {
    assert JavaHash.HashBits(s[..1]) == 49;
    assert s[..2][..1] == s[..1];
    assert JavaHash.HashBits(s[..2]) == 1567;
    assert s[..3][..2] == s[..2];
    assert JavaHash.HashBits(s[..3]) == 48623;
    assert s[..4][..3] == s[..3];
    assert JavaHash.HashBits(s[..4]) == 1507362;
    assert s[..5][..4] == s[..4];
    assert JavaHash.HashBits(s[..5]) == 46728269;
    assert s[..6][..5] == s[..5];
    assert JavaHash.HashBits(s[..6]) == 1448576436;
    assert s[..7][..6] == s[..6];
    assert JavaHash.HashBits(s[..7]) == 1956196654;
    assert s[..7] == s[..|s| - 1];
    assert (s + "d")[..8] == s;
  }

  /** How java.net.URI quotes the characters the tests escape. */
  lemma Escapes()
    ensures EncodeChar('#') == "%23" && EncodeChar('<') == "%3C" && EncodeChar('>') == "%3E" && EncodeChar(' ') == "%20"
  {
  }
}
