# doi4j: the DOI value type, modelled in Dafny

doi4j parses and presents Digital Object Identifiers (DOIs). A DOI consists of:

- the directory indicator `10`;
- a full stop;
- a registrant code;
- a `/`;
- a suffix.

The library's `DOI` class holds the registrant code and the suffix. Its constructor refuses a null component, and also one that is empty once trimmed. It offers these operations:

- `create(String)` accepts a DOI in one of three forms:
  - the pure form `10.123/456`;
  - the printable form `doi:10.123/456`, where the `doi:` tag may be in any case;
  - a resolver URL `https://doi.org/…` or `http://dx.doi.org/…`. The rest of the URL is percent-decoded as a URI query, and `java.net.URI` may refuse it.
- `create(URI)` reads the decoded path of a URI.
- The value renders as:
  - its canonical string (`toString`);
  - the printable form (`toPrintableDOI`);
  - a URI under a resolver, where the canonical string is quoted as a URI path (`toURI`).
- `isCommonlyUsedDoiPrefix` recognises the three presentation prefixes.
- `equals` and `hashCode` compare DOIs ignoring case. They do so through the hash of the lower-cased canonical string.

The model is pure: the class is immutable, so a DOI is a datatype. Each Java exception is one case of an error datatype:

- `NullInput` stands for `NullPointerException`.
- `InvalidArgument` stands for `IllegalArgumentException`.
- `Malformed(reason)` stands for `MalformedDOIException`. The reason is named after the exception's message.

A Java `null` is `None`. A `java.net.URI` is modelled in two ways:

- as its scheme, host and decoded path, when it is read;
- as the string it prints, when it is built.

The three getters `getRegistrantCode`, `getSuffix` and `getDirectoryIndicator` are the datatype's fields and the constant `DoiValue.DirectoryIndicator`.

Modules:

- `Nullable`: Java references that may be null.
- `JavaText`:
  - `String.trim`;
  - ASCII `toLowerCase`;
  - `indexOf` and `startsWith`;
  - hexadecimal digits.
- `JavaHash`: `String.hashCode`, with 32-bit wrap-around, and `int` subtraction.
- `UriCoding`: the parts of `java.net.URI` that the DOI class relies on (RFC 2396, with the `[` and `]` of RFC 2732 in the reserved set):
  - quoting a path;
  - checking a query and its fragment;
  - percent-decoding.
- `DoiValue`: the DOI type and its operations.
- `DoiProperties`: round trips and other properties that relate several operations.
- `DoiExamples`: concrete cases from the project's unit tests.

One place where the code decides, not the prose description of the library: an empty suffix (`10.123/`) is not reported as a malformed DOI. The parser passes it to the constructor, which throws `IllegalArgumentException`. The model follows the code (`DoiProperties.EmptySuffixIsInvalidArgument`).

## Model

| member | source | states |
|---|---|---|
| JavaText.Trim | src/main/java/org/globalbioticinteractions/doi/DOI.java:55 | `trim()` is empty exactly when every character is at most U+0020; otherwise both ends are above U+0020 |
| JavaText.TrimLeading | src/main/java/org/globalbioticinteractions/doi/DOI.java:55 | the leading loop of `trim()`: the result is a suffix of the input, what it drops is blank, and it starts above U+0020 |
| JavaText.TrimTrailing | src/main/java/org/globalbioticinteractions/doi/DOI.java:55 | the trailing loop of `trim()`: the result is a prefix of the input, what it drops is blank, and it ends above U+0020 |
| JavaText.IndexOf | src/main/java/org/globalbioticinteractions/doi/DOI.java:232 | `indexOf(c)` is -1 exactly when `c` does not occur; otherwise it is the position of the first `c` |
| JavaText.StartsWithSplits | src/main/java/org/globalbioticinteractions/doi/DOI.java:228 | `startsWith` (`JavaText.StartsWith`, also used at lines 77 and 83) holds exactly when the string is the prefix followed by the rest |
| JavaText.Lower | src/main/java/org/globalbioticinteractions/doi/DOI.java:77 | `toLowerCase()` keeps the length of its input |
| JavaText.LowerAppend | src/main/java/org/globalbioticinteractions/doi/DOI.java:77 | lower-casing distributes over concatenation, so a prefix can be compared on its own |
| JavaText.HexDigit | src/main/java/org/globalbioticinteractions/doi/DOI.java:68 | the upper-case hex digit written for a value below 16 reads back as that value |
| JavaHash.StringHash | src/main/java/org/globalbioticinteractions/doi/DOI.java:269 | `String.hashCode` is a Java `int`. Modulo 2^32 it equals the exact polynomial sum of `c * 31^k` over the characters |
| JavaHash.HashBits | src/main/java/org/globalbioticinteractions/doi/DOI.java:269 | the running value of the loop `h = 31*h + c` stays within 32 bits at every step |
| JavaHash.HashBitsIsPolynomial | src/main/java/org/globalbioticinteractions/doi/DOI.java:269 | the wrapping loop `h = 31*h + c` computes the polynomial sum modulo 2^32 |
| JavaHash.PolynomialHashSnoc | src/main/java/org/globalbioticinteractions/doi/DOI.java:269 | appending a character multiplies the polynomial hash by 31 and adds the character |
| JavaHash.SubInt32 | src/main/java/org/globalbioticinteractions/doi/DOI.java:264 | the wrapped `int` difference is 0 exactly when the two ints are equal |
| JavaHash.ToInt32 | src/main/java/org/globalbioticinteractions/doi/DOI.java:264 | reading 32 bits as a signed int gives an int congruent to the bits |
| UriCoding.EncodeChar | src/main/java/org/globalbioticinteractions/doi/DOI.java:68 | a path keeps unreserved characters, `:@&=+$,;/` and non-ASCII. Every other character becomes `%` followed by two upper-case hex digits whose value is its code |
| UriCoding.EncodePathAppend | src/main/java/org/globalbioticinteractions/doi/DOI.java:68 | quoting a path distributes over concatenation |
| UriCoding.EncodePathKeeps | src/main/java/org/globalbioticinteractions/doi/DOI.java:68 | a string made only of path characters is quoted to itself |
| UriCoding.EncodedPathIsLegal | src/main/java/org/globalbioticinteractions/doi/DOI.java:68 | a quoted path holds only path characters and `%` |
| UriCoding.EncodedPathHasNoHash | src/main/java/org/globalbioticinteractions/doi/DOI.java:68 | no `#` survives quoting, so no part of a quoted DOI can be taken for a fragment |
| UriCoding.PathCharsAreQueryChars | src/main/java/org/globalbioticinteractions/doi/DOI.java:86 | every character a path keeps is allowed in a query and is neither `%` nor `#` |
| UriCoding.KeptInPath | src/main/java/org/globalbioticinteractions/doi/DOI.java:68 | the character class a path keeps unquoted (`L_PATH`): unreserved characters (letters, digits, `-_.!~*'()`) and `:`, `;`, `/`, `@`, `=` are kept; every kept character is above U+0020 and none of `%`, `#`, `?`, `[`, `]`, `<`, `>`, `"`, `{`, `}`, `\` |
| UriCoding.AllowedInQuery | src/main/java/org/globalbioticinteractions/doi/DOI.java:86 | the character class a query may hold unescaped (`L_URIC`): `?`, `[`, `]`, `/` and `:` are in it, while space, the controls, `%`, `#`, `<`, `>` and `"` are not |
| UriCoding.EncodePath | src/main/java/org/globalbioticinteractions/doi/DOI.java:68 | quoting a path, one character at a time: the result is never shorter than the input and at most three times as long |
| UriCoding.ValidUric | src/main/java/org/globalbioticinteractions/doi/DOI.java:86 | the parser's check of a query or fragment: a string that passes holds no `#`, and a string made only of query characters passes |
| UriCoding.Decode | src/main/java/org/globalbioticinteractions/doi/DOI.java:87 | decoding never lengthens a query, and a query without `%` decodes to itself |
| UriCoding.DecodeEncodeChar | src/main/java/org/globalbioticinteractions/doi/DOI.java:86-87 | one quoted character passes the query check and decodes back to itself |
| UriCoding.DecodeEncode | src/main/java/org/globalbioticinteractions/doi/DOI.java:86-87 | every quoted path passes the query check, and percent-decoding it gives back the original string |
| UriCoding.QueryOf | src/main/java/org/globalbioticinteractions/doi/DOI.java:86-87 | without a `#`, the query of `some://host/path?` + t is t decoded when t passes the uric check, and the URI is refused otherwise. Whenever a query is returned, the part before the first `#` passed the check and the query is that part decoded |
| UriCoding.QueryOfRefusesFragment | src/main/java/org/globalbioticinteractions/doi/DOI.java:86-91 | a query part or a fragment that fails the check makes `java.net.URI` refuse the whole string |
| UriCoding.QueryOfDropsFragment | src/main/java/org/globalbioticinteractions/doi/DOI.java:86-87 | with a `#`, the query ends there and the valid fragment after it is dropped |
| UriCoding.QueryOfEncoded | src/main/java/org/globalbioticinteractions/doi/DOI.java:86-87 | reading a quoted string back as a query gives the original string |
| UriCoding.IllegalCharRejected | src/main/java/org/globalbioticinteractions/doi/DOI.java:86-91 | an ASCII character that is neither uric nor `%`, anywhere in the query or the fragment, makes `java.net.URI` refuse it. Examples are `<`, `>`, a space, and a second `#` in the fragment |
| UriCoding.BadEscapeRejected | src/main/java/org/globalbioticinteractions/doi/DOI.java:86-91 | a `%` anywhere in the query that is not followed by two hex digits makes `java.net.URI` refuse it |
| DoiValue.Validate | src/main/java/org/globalbioticinteractions/doi/DOI.java:50-58 | a null value is `NullInput`. A value that is empty after trim is `InvalidArgument`. Any other value passes |
| DoiValue.NewDoi | src/main/java/org/globalbioticinteractions/doi/DOI.java:42-48 | the registrant code is checked before the suffix, and each failure case is given. A DOI results exactly when both are non-null and non-blank, and it stores them untrimmed |
| DoiValue.Prefix | src/main/java/org/globalbioticinteractions/doi/DOI.java:135-137 | `getPrefix()` is `10.` followed by the registrant code. With `/` and the suffix after it, it is the canonical string |
| DoiProperties.CanonicalPrefix | src/main/java/org/globalbioticinteractions/doi/DOI.java:244-247 | `toString()` (`DoiValue.ToString`) opens with the directory indicator `10.` |
| DoiProperties.CanonicalFirstSlash | src/main/java/org/globalbioticinteractions/doi/DOI.java:244-247 | when the registrant code holds no `/`, the first `/` of `toString()` is right after it and the suffix follows it, so `getDOI` cuts exactly there |
| DoiValue.ToPrintableDoi | src/main/java/org/globalbioticinteractions/doi/DOI.java:172-174 | the printable form is the `doi:` tag followed by the canonical string |
| DoiValue.GetDoi | src/main/java/org/globalbioticinteractions/doi/DOI.java:227-242 | no `10.` is a malformed DOI, and so are no `/` and a `/` right after `10.`. Any other failure is a malformed DOI or an invalid argument. A DOI read has a valid registrant code without `/` and renders back to the candidate |
| DoiValue.SplitAtSlash | src/main/java/org/globalbioticinteractions/doi/DOI.java:239-240 | cutting at the first `/` yields a registrant code without `/`, and the two parts rebuild the candidate |
| DoiValue.BracketHost | src/main/java/org/globalbioticinteractions/doi/DOI.java:68 | the host the URI constructor writes: a host already opening with `[` or closing with `]` is kept as it is, and so is a host without `:`; any other host is put in brackets |
| DoiValue.ResolverBaseOf | src/main/java/org/globalbioticinteractions/doi/DOI.java:68 | what the URI built from a resolver shows before the path (`DoiValue.ResolverBase`): for a host without `:` it is `scheme://host`, whatever the resolver's path |
| DoiValue.StripResolverPrefix | src/main/java/org/globalbioticinteractions/doi/DOI.java:82-94 | the only failure is an unescaped DOI in a URI. An input is kept when, for each resolver prefix, it is not strictly longer than the prefix or does not start with it ignoring case |
| DoiValue.StripDoiPrefix | src/main/java/org/globalbioticinteractions/doi/DOI.java:75-96 | the `doi:` tag never fails. An input with no recognised prefix is returned unchanged |
| DoiValue.Create | src/main/java/org/globalbioticinteractions/doi/DOI.java:204-207 | a null string is `NullInput`. Every DOI created is valid and its registrant code holds no `/` |
| DoiValue.CreateFromUri | src/main/java/org/globalbioticinteractions/doi/DOI.java:218-225 | a null URI is a path not rooted at `/`, and a null path is `NullInput`. Otherwise the path must start with `/` and the rest is parsed as a pure DOI |
| DoiValue.UriForDoi | src/main/java/org/globalbioticinteractions/doi/DOI.java:64-73 | the URI starts with the resolver's scheme and host; a null resolver means https://doi.org. Its path is exactly `/` plus the canonical string, quoted. That path holds no `#`, passes the URI check and decodes back to `/` plus the canonical string |
| DoiValue.UriShape | src/main/java/org/globalbioticinteractions/doi/DOI.java:68 | the quoted path is `/` followed by the quoted canonical string |
| DoiValue.ToUri | src/main/java/org/globalbioticinteractions/doi/DOI.java:179-181 | `toURI()` is `https://doi.org/` followed by the quoted canonical string |
| DoiValue.IsCommonlyUsedDoiPrefix | src/main/java/org/globalbioticinteractions/doi/DOI.java:256-259 | true exactly when the prefix is non-null and, lower-cased, is one of `doi:`, `https://doi.org/`, `http://dx.doi.org/` |
| DoiValue.HashCode | src/main/java/org/globalbioticinteractions/doi/DOI.java:267-270 | the hash is an int congruent modulo 2^32 to the polynomial hash of the lower-cased canonical string |
| DoiValue.Equals | src/main/java/org/globalbioticinteractions/doi/DOI.java:261-265 | `equals` holds exactly when the other object is a DOI with the same hash code |
| DoiValue.EqualsIgnoreCase | src/main/java/org/globalbioticinteractions/doi/DOI.java:261-265 | case-insensitive equality of the canonical strings implies `equals` |
| DoiProperties.GetDoiOfParts | src/main/java/org/globalbioticinteractions/doi/DOI.java:227-242 | a body `10.` + r + `/` + s, with r non-empty and free of `/`, is handed to the constructor as exactly r and s |
| DoiProperties.PureDoiIsNotStripped | src/main/java/org/globalbioticinteractions/doi/DOI.java:75-96 | a string starting with `10.` carries no recognised prefix, so `create` parses it as it is |
| DoiProperties.NoSlashMissingRegistrant | src/main/java/org/globalbioticinteractions/doi/DOI.java:232-235 | `10.` without any `/` is a missing registrant code |
| DoiProperties.EmptySuffixIsInvalidArgument | src/main/java/org/globalbioticinteractions/doi/DOI.java:236-241 | an empty suffix passes the parser and is refused by the constructor as an invalid argument |
| DoiProperties.ParseCanonicalRoundTrip | src/main/java/org/globalbioticinteractions/doi/DOI.java:227-247 | parsing `toString()` of a valid DOI whose registrant code has no `/` gives the DOI back, both through `getDOI` and through `create` |
| DoiProperties.SlashInRegistrantCodeIsAmbiguous | src/main/java/org/globalbioticinteractions/doi/DOI.java:232-240 | a constructed registrant code holding `/` is not recovered: `10.1/2/3` parses as registrant `1` and suffix `2/3` |
| DoiProperties.DoiLabelStrippedVerbatim | src/main/java/org/globalbioticinteractions/doi/DOI.java:76-79 | a `doi:` tag in any case is cut off without decoding. An input that is only the tag is kept whole |
| DoiProperties.DoiLabelCaseIgnored | src/main/java/org/globalbioticinteractions/doi/DOI.java:76-79 | `doi:`, `DOI:`, `DoI:` in front of a pure DOI give what the pure DOI gives |
| DoiProperties.BareDoiLabelMalformed | src/main/java/org/globalbioticinteractions/doi/DOI.java:78 | the tag on its own is a malformed DOI |
| DoiProperties.ResolverPrefixDecoded | src/main/java/org/globalbioticinteractions/doi/DOI.java:82-94 | after either resolver URL, in any case, the rest is read as a URI query. A refused query is an unescaped DOI in a URI; otherwise the decoded query is parsed |
| DoiProperties.SecureResolverStripped | src/main/java/org/globalbioticinteractions/doi/DOI.java:82-94 | an input longer than `https://doi.org/` and starting with it in any case has that prefix cut, and the rest is read as a URI query: refused is an unescaped DOI in a URI, accepted gives the decoded query |
| DoiProperties.LegacyResolverStripped | src/main/java/org/globalbioticinteractions/doi/DOI.java:82-94 | the same for `http://dx.doi.org/`, which is reached after the first resolver fails to match |
| DoiProperties.IllegalRemainderIsMalformed | src/main/java/org/globalbioticinteractions/doi/DOI.java:82-94 | after a resolver URL, a character ahead of any `#` that is neither uric nor `%` makes the DOI malformed: an unescaped DOI in a URI |
| DoiProperties.BadEscapeInRemainderIsMalformed | src/main/java/org/globalbioticinteractions/doi/DOI.java:82-94 | after a resolver URL, a `%` ahead of any `#` that is not followed by two hex digits makes the DOI malformed |
| DoiProperties.BareResolverMalformed | src/main/java/org/globalbioticinteractions/doi/DOI.java:83 | a resolver URL with nothing after it is not stripped and is a malformed DOI |
| DoiProperties.EncodedCanonicalNonEmpty | src/main/java/org/globalbioticinteractions/doi/DOI.java:68 | the quoted canonical string is never empty, so a resolver URL followed by it is always stripped |
| DoiProperties.UriRoundTrip | src/main/java/org/globalbioticinteractions/doi/DOI.java:179-207 | `create(toURI())` gives the DOI back, with `#`, `%`, `<` and spaces included |
| DoiProperties.LegacyUriRoundTrip | src/main/java/org/globalbioticinteractions/doi/DOI.java:188-207 | the same holds for the URI under `http://dx.doi.org/` |
| DoiProperties.CreateFromUriRoundTrip | src/main/java/org/globalbioticinteractions/doi/DOI.java:218-225 | a URI whose decoded path is `/` + `toString()` gives the DOI back, whatever its scheme and host |
| DoiProperties.PrintableRoundTrip | src/main/java/org/globalbioticinteractions/doi/DOI.java:172-207 | `create(toPrintableDOI())` gives the DOI back |
| DoiProperties.CommonlyUsedPrefixStripped | src/main/java/org/globalbioticinteractions/doi/DOI.java:256-259 | every prefix `isCommonlyUsedDoiPrefix` accepts is one `create` strips. The tag goes before the canonical string, and a resolver before the quoted canonical string |
| DoiProperties.EqualsIsEquivalence | src/main/java/org/globalbioticinteractions/doi/DOI.java:261-265 | `equals` is reflexive, symmetric and transitive, and it is false for null |
| DoiProperties.CaseInsensitiveEquality | src/main/java/org/globalbioticinteractions/doi/DOI.java:261-270 | DOIs whose components differ only in ASCII case hash alike and are equal |
| DoiProperties.LowerCanonical | src/main/java/org/globalbioticinteractions/doi/DOI.java:269 | the lower-cased canonical string is `10.` + lower-cased registrant code + `/` + lower-cased suffix |
| DoiProperties.Int32Congruent | src/main/java/org/globalbioticinteractions/doi/DOI.java:264 | two ints congruent modulo 2^32 are the same int |
| DoiProperties.HashCollisionCountsAsEqual | src/main/java/org/globalbioticinteractions/doi/DOI.java:261-265 | `10.1/bz` and `10.1/c[` are different even ignoring case, yet `equals` holds between them |
| DoiProperties.CollidingLowerForms | src/main/java/org/globalbioticinteractions/doi/DOI.java:269 | the lower-cased canonical strings of those two DOIs differ and have the same polynomial hash |
| DoiProperties.EqualsIgnoreCaseIsEquivalence | src/main/java/org/globalbioticinteractions/doi/DOI.java:261-270 | the corrected equality is an equivalence, and equal DOIs hash alike |
| DoiExamples.UnprefixedKeptWhole | src/main/java/org/globalbioticinteractions/doi/DOI.java:75-96 | a string whose first letter is neither `d` nor `h`, in either case, is parsed as it is |
| DoiExamples.NullAndEmptyArguments | src/test/java/org/globalbioticinteractions/doi/DOITest.java:29-47 | the constructor's null and empty cases give the exceptions the tests expect |
| DoiExamples.InvalidDirectoryIndicatorExample | src/test/java/org/globalbioticinteractions/doi/DOITest.java:105-108 | `9.1000/123456` is a malformed DOI: it lacks the directory indicator |
| DoiExamples.FooExample | src/test/java/org/globalbioticinteractions/doi/DOITest.java:120-123 | `foo` is a malformed DOI |
| DoiExamples.EncodeAround | src/main/java/org/globalbioticinteractions/doi/DOI.java:68 | quoting a string that holds one character outside the path set escapes that character alone and keeps the rest |
| DoiExamples.EncodeAroundTwo | src/main/java/org/globalbioticinteractions/doi/DOI.java:68 | the same with two such characters |
| DoiExamples.CanonicalExample | src/main/java/org/globalbioticinteractions/doi/DOI.java:172-207 | a DOI the parser yields parses back from its canonical string, and its printable form is `doi:` followed by that string |
| DoiExamples.SecureUriExample | src/main/java/org/globalbioticinteractions/doi/DOI.java:179-207 | for such a DOI whose suffix quotes as a given string, `toURI()` is `https://doi.org/`, the canonical head and that string, and `create` reads the DOI back from it |
| DoiExamples.UriPathExample | src/main/java/org/globalbioticinteractions/doi/DOI.java:218-225 | `create(URI)` of an https URI whose path is `/` + the canonical string gives the DOI, whatever the host |
| DoiExamples.ConstructorExample | src/test/java/org/globalbioticinteractions/doi/DOITest.java:17-27 | `new DOI("123", "456")` succeeds; it renders as `10.123/456`, its prefix is `10.123`, its printable form `doi:10.123/456` and its URI `https://doi.org/10.123/456` |
| DoiExamples.CreateWithUriExample | src/test/java/org/globalbioticinteractions/doi/DOITest.java:49-63 | the URI with path `/10.123/456`, under doi.org or example.org, gives DOI 123/456, whose `toURI()` is `https://doi.org/10.123/456` |
| DoiExamples.PrintableExample | src/test/java/org/globalbioticinteractions/doi/DOITest.java:65-84 | `doi:10.123/456`, `DOI:10.123/456` and `DoI:10.123/456` all give DOI 123/456, printed as `doi:10.123/456`, prefix `10.123` |
| DoiExamples.PlainDoiExample | src/test/java/org/globalbioticinteractions/doi/DOITest.java:86-92 | `10.1644/1545-1410(2001)683<0001:sa>2.0.co;2` parses with its angle brackets kept, prints with `doi:` in front and has prefix `10.1644` |
| DoiExamples.UnescapedAfterResolver | src/main/java/org/globalbioticinteractions/doi/DOI.java:82-94 | after a resolver URL, a `<` with no `#` before it makes the DOI malformed |
| DoiExamples.UnescapedUriExample | src/test/java/org/globalbioticinteractions/doi/DOITest.java:94-97 | the two legacy-resolver URLs of the tests, with their `<` unescaped, are malformed DOIs (also lines 195-199) |
| DoiExamples.BareDirectoryIndicatorExample | src/test/java/org/globalbioticinteractions/doi/DOITest.java:115-118 | `10` is a malformed DOI: the full stop is missing |
| DoiExamples.MissingSlashExample | src/test/java/org/globalbioticinteractions/doi/DOITest.java:110-113 | `10.1038.issn.1476-4687`, which has no `/`, is a missing registrant code |
| DoiExamples.HashExample | src/test/java/org/globalbioticinteractions/doi/DOITest.java:125-129 | DOI `10.1000/123#456` parses, prints with `doi:` in front, renders as `https://doi.org/10.1000/123%23456` and is read back from that URI (also lines 154, 159-161, 185-188) |
| DoiExamples.AngleBracketExample | src/test/java/org/globalbioticinteractions/doi/DOITest.java:131-135 | DOI `10.1206/0003-0090(2000)264<0083:>2.0.co;2` parses, prints with `doi:` in front, renders with `%3C` and `%3E` and is read back from that URI (also lines 155, 163-166, 190-193) |
| DoiExamples.ResolverExample | src/test/java/org/globalbioticinteractions/doi/DOITest.java:137-148 | DOI `10.1000/123456` renders as `https://example.org/10.1000/123456` under that resolver, and as `https://doi.org/10.1000/123456` under a null one |
| DoiExamples.EscapingExample | src/test/java/org/globalbioticinteractions/doi/DOITest.java:201-209 | the DOI `10.1898/1051-1733(2004)085<0062:dcabso>2.0.co;2` is kept by `toString()` and renders under `http://dx.doi.org/` with `%3C` and `%3E` |
| DoiExamples.WhitespaceExample | src/test/java/org/globalbioticinteractions/doi/DOITest.java:211-216 | `10.some/some citation` keeps its space in the suffix and renders as `https://doi.org/10.some/some%20citation` |
| DoiExamples.PrefixPredicateExamples | src/test/java/org/globalbioticinteractions/doi/DOITest.java:251-269 | the three known prefixes are recognised, while `http://example.org` and null are not |
| DoiExamples.EqualityInputsParsed | src/test/java/org/globalbioticinteractions/doi/DOITest.java:218-222 | `https://doi.org/10.1/ABC`, `…/AbC` and `…/AbCD` give DOIs with registrant code `1` and those suffixes |
| DoiExamples.EqualityExample | src/test/java/org/globalbioticinteractions/doi/DOITest.java:218-238 | `10.1/ABC` and `10.1/AbC` are equal and hash alike; `10.1/AbCD` is equal to neither and its hash differs from both |

## Left out

- Case mapping beyond ASCII: `toLowerCase` is modelled for `A`-`Z` only. Java's locale-sensitive and Unicode mappings (for example U+0130, which lower-cases to two characters) are not modelled.
- JavaHash.StringHash: a character above U+FFFF is one Dafny `char` but two UTF-16 units in a Java string, and Java's loop runs over both. For a DOI holding such a character, `DoiValue.HashCode` and `DoiValue.Equals` therefore differ from Java's.
- UriCoding.AllowedInQuery: every non-ASCII character is accepted in a query. Java's parser refuses the non-ASCII space and ISO control characters (U+0080-U+009F, U+00A0 and the other Unicode spaces) there, and `create` then reports an unescaped DOI in a URI. The model does not.
- Characters outside ASCII in URIs: they pass through quoting, the query check and decoding unchanged. Java quotes non-ASCII space and control characters as UTF-8 escapes, and decodes `%XX` escapes of 0x80 and above as UTF-8. The model decodes each escape to the character with that code, which agrees only for ASCII.
- UriCoding.QueryOf: models the query decoding of JDK 9 and later. JDK 8 leaves a `%` escape inside `[...]` of a query undecoded, and that is not modelled.
- DoiValue.UriForDoi: a resolver is its scheme and host only. Its port, user information and path are dropped, as `new URI(scheme, host, path, fragment)` drops them. Java's `URISyntaxException` cannot arise from the components of an already parsed URI with the rooted path built here, so the `null` that would follow it is not modelled.
- DoiValue.CreateFromUri: the parsing of a URI string into scheme, host and decoded path is not modelled. The function receives those parts.
- DoiValue.Create: its own contract states the null case and the validity of what it returns. What it does with each presentation is stated by the `DoiProperties` lemmas that name it.
- The `Serializable` interface and `toURL` are not part of this model: the first is not behaviour, and the second is absent from the class modelled. `compareTo` is also absent from it.
- Messages of the exceptions: only their kind and the reason they name are kept, not the text or the offending input.
- DoiExamples: the test strings longer than a few characters are written cut at the characters that are escaped (`#`, `<`, `>`, a space). Each piece is a literal, and the lemma's requires joins them. `compareTo` (DOITest.java lines 240-249) is absent from the class modelled, and `easyDOIEncodingMistakeToMakeWithURIClass` (lines 168-183) tests `java.net.URI` alone.

## Findings

| source | as written | input that shows it | evidently intended | confidence | as-written member | corrected member |
|---|---|---|---|---|---|---|
| src/main/java/org/globalbioticinteractions/doi/DOI.java:261-265 | `equals` holds whenever the two hash codes are equal | `10.1/bz` and `10.1/c[` both hash to 1956196709, since 31·'b'+'z' = 31·'c'+'[' | DOIs equal exactly when their canonical strings agree ignoring case | medium, not executed | DoiProperties.HashCollisionCountsAsEqual | DoiValue.EqualsIgnoreCase |

The corrected equality is proved to be an equivalence consistent with `hashCode` by `DoiProperties.EqualsIgnoreCaseIsEquivalence`.
