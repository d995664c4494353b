/**
 * The DOI value type: a registrant code and a suffix under the directory
 * indicator "10" (DOI Handbook sections 2.2.2 and 2.2.3), its validating
 * constructor, the parsers that accept the pure, printable ("doi:") and
 * resolver-URL presentations, the formatters, and case-insensitive equality
 * built on the hash code.
 */
module DoiValue {
  import opened Nullable
  import opened JavaText
  import opened UriCoding
  import JavaHash

  const DirectoryIndicator: string := "10"
  const DirectoryIndicatorPrefix: string := DirectoryIndicator + "."
  /** The print label of DOI Handbook section 2.6.1. */
  const PrintableDoiPrefix: string := "doi:"
  const SecureDefaultResolver: string := "https://doi.org/"
  const UnsecureDefaultResolver: string := "http://dx.doi.org/"
  /** The resolver URLs recognised when parsing, in the order they are tried. */
  const DoiUrls: seq<string> := [SecureDefaultResolver, UnsecureDefaultResolver]

  /** The argument an error is about. */
  datatype Argument = RegistrantCodeArg | SuffixArg | DoiStringArg | UriPathArg

  /** The cases the parser reports as a malformed DOI, named after its messages. */
  datatype MalformedReason =
    | NoDirectoryIndicator
    | MissingRegistrantCode
    | MissingSuffix
    | PathNotRooted
    | UnescapedDoiInUri

  /** NullPointerException, IllegalArgumentException and MalformedDOIException. */
  datatype DoiError =
    | NullInput(argument: Argument)
    | InvalidArgument(argument: Argument)
    | Malformed(reason: MalformedReason)

  datatype Result<T> = Ok(value: T) | Err(error: DoiError)

  /** A DOI; the raw, untrimmed strings given to the constructor are stored. */
  datatype Doi = Doi(registrantCode: string, suffix: string)

  /** What the constructor guarantees: neither component is empty after trim. */
  predicate Valid(d: Doi) {
    !IsBlank(d.registrantCode) && !IsBlank(d.suffix)
  }

  /**
   * The parts of a java.net.URI the DOI type reads: getScheme(), getHost()
   * and the decoded getPath(), each None where Java returns null.
   */
  datatype Uri = Uri(scheme: Option<string>, host: Option<string>, path: Option<string>)

  /** URI.create("https://doi.org/"). */
  const SecureResolverUri: Uri := Uri(Some("https"), Some("doi.org"), Some("/"))

  /** The check the constructor applies to each argument. */
  function Validate(value: Option<string>, argument: Argument): (e: Option<DoiError>)
    ensures e.None? <==> value.Some? && !IsBlank(value.value)
    ensures value.None? ==> e == Some(NullInput(argument))
    ensures value.Some? && IsBlank(value.value) ==> e == Some(InvalidArgument(argument))
  {
    if value.None? then Some(NullInput(argument))
    else if |Trim(value.value)| < 1 then Some(InvalidArgument(argument))
    else None
  }

  /** The constructor DOI(registrantCode, suffix): the registrant code is checked before the suffix. */
  function NewDoi(registrantCode: Option<string>, suffix: Option<string>): (r: Result<Doi>)
    ensures registrantCode.None? ==> r == Err(NullInput(RegistrantCodeArg))
    ensures registrantCode.Some? && IsBlank(registrantCode.value) ==> r == Err(InvalidArgument(RegistrantCodeArg))
    ensures registrantCode.Some? && !IsBlank(registrantCode.value) && suffix.None? ==> r == Err(NullInput(SuffixArg))
    ensures (registrantCode.Some? && !IsBlank(registrantCode.value) && suffix.Some? && IsBlank(suffix.value))
              ==> r == Err(InvalidArgument(SuffixArg))
    ensures r.Ok? <==> registrantCode.Some? && suffix.Some? && !IsBlank(registrantCode.value) && !IsBlank(suffix.value)
    ensures r.Ok? ==> Valid(r.value) && r.value.registrantCode == registrantCode.value && r.value.suffix == suffix.value
  {
    match Validate(registrantCode, RegistrantCodeArg)
    case Some(e) => Err(e)
    case None =>
      match Validate(suffix, SuffixArg)
      case Some(e) => Err(e)
      case None => Ok(Doi(registrantCode.value, suffix.value))
  }

  /** toString(): the canonical form "10." + registrant code + "/" + suffix, neither decoded nor escaped. */
  function ToString(d: Doi): string {
    DirectoryIndicator + "." + d.registrantCode + "/" + d.suffix
  }

  /** toPrintableDOI(): the canonical form behind the "doi:" label. */
  function ToPrintableDoi(d: Doi): (s: string)
    ensures StartsWith(s, PrintableDoiPrefix) && s[|PrintableDoiPrefix|..] == ToString(d)
  {
    "doi:" + ToString(d)
  }

  /** getPrefix(): directory indicator, full stop and registrant code, the part of toString() before the suffix. */
  function Prefix(d: Doi): (p: string)
    ensures StartsWith(p, DirectoryIndicator + ".") && p[|DirectoryIndicator| + 1..] == d.registrantCode
    ensures p + "/" + d.suffix == ToString(d)
  {
    DirectoryIndicatorPrefix + d.registrantCode
  }

  /**
   * getDOI: a pure DOI body "10." + registrant code + "/" + suffix, split at
   * the first "/"; the constructor then rejects blank components.
   */
  function GetDoi(candidate: string): (r: Result<Doi>)
    ensures !StartsWith(candidate, DirectoryIndicatorPrefix) ==> r == Err(Malformed(NoDirectoryIndicator))
    ensures StartsWith(candidate, DirectoryIndicatorPrefix) && '/' !in candidate ==> r == Err(Malformed(MissingRegistrantCode))
    ensures (StartsWith(candidate, DirectoryIndicatorPrefix) && |candidate| > 3 && candidate[3] == '/')
              ==> r == Err(Malformed(MissingSuffix))
    ensures r.Err? ==> r.error.Malformed? || r.error.InvalidArgument?
    ensures r.Ok? ==> Valid(r.value) && '/' !in r.value.registrantCode && ToString(r.value) == candidate
  {
    if !StartsWith(candidate, DirectoryIndicatorPrefix) then Err(Malformed(NoDirectoryIndicator))
    else
      var s := IndexOf(candidate, '/');
      if s < |DirectoryIndicatorPrefix| then Err(Malformed(MissingRegistrantCode))
      else if s < |DirectoryIndicatorPrefix| + 1 then Err(Malformed(MissingSuffix))
      else
        SplitAtSlash(candidate, s);
        NewDoi(Some(candidate[|DirectoryIndicatorPrefix|..s]), Some(candidate[s + 1..]))
  }

  /** Cutting a body at its first "/" gives back the body when joined again. */
  lemma SplitAtSlash(candidate: string, s: int)
    requires StartsWith(candidate, DirectoryIndicatorPrefix) && 3 < s < |candidate|
    requires candidate[s] == '/' && '/' !in candidate[..s]
    ensures '/' !in candidate[3..s]
    ensures ToString(Doi(candidate[3..s], candidate[s + 1..])) == candidate
  {
    assert candidate[3..s] == candidate[..s][3..];
    assert candidate == candidate[..3] + candidate[3..s] + [candidate[s]] + candidate[s + 1..];
  }

  /**
   * The loop over the resolver URLs: the first one the input is strictly
   * longer than and starts with (ignoring case) is cut off, and the rest is
   * read as the query of a URI and percent-decoded; java.net.URI refusing it
   * becomes a malformed DOI.
   */
  function StripResolverPrefix(doi: string, prefixes: seq<string>): (r: Result<string>)
    ensures r.Err? ==> r.error == Malformed(UnescapedDoiInUri)
    ensures (forall i | 0 <= i < |prefixes| :: !(|doi| > |prefixes[i]| && StartsWith(Lower(doi), prefixes[i])))
              ==> r == Ok(doi)
  {
    if prefixes == [] then Ok(doi)
    else
      var prefix := prefixes[0];
      if |doi| > |prefix| && StartsWith(Lower(doi), prefix) then
        match QueryOf(doi[|prefix|..])
        case Some(q) => Ok(q)
        case None => Err(Malformed(UnescapedDoiInUri))
      else
        var r := StripResolverPrefix(doi, prefixes[1..]);
        assert forall i | 0 <= i < |prefixes| - 1 :: prefixes[1..][i] == prefixes[i + 1];
        r
  }

  /**
   * stripDOIPrefix: a "doi:" label in any case is cut off verbatim (an input
   * that is only the label is kept whole); otherwise the resolver URLs are tried.
   */
  function StripDoiPrefix(doi: string): (r: Result<string>)
    ensures r.Err? ==> r.error == Malformed(UnescapedDoiInUri) && !StartsWith(Lower(doi), PrintableDoiPrefix)
    ensures (&& !StartsWith(Lower(doi), PrintableDoiPrefix)
             && !(|doi| > |SecureDefaultResolver| && StartsWith(Lower(doi), SecureDefaultResolver))
             && !(|doi| > |UnsecureDefaultResolver| && StartsWith(Lower(doi), UnsecureDefaultResolver)))
              ==> r == Ok(doi)
  {
    if StartsWith(Lower(doi), PrintableDoiPrefix) then
      Ok(if |doi| > |PrintableDoiPrefix| then doi[|PrintableDoiPrefix|..] else doi)
    else
      StripResolverPrefix(doi, DoiUrls)
  }

  /** create(String): strip a known presentation prefix, then parse the DOI body. */
  function Create(doiString: Option<string>): (r: Result<Doi>)
    ensures doiString.None? ==> r == Err(NullInput(DoiStringArg))
    ensures r.Ok? ==> Valid(r.value) && '/' !in r.value.registrantCode
  {
    match doiString
    case None => Err(NullInput(DoiStringArg))
    case Some(s) =>
      match StripDoiPrefix(s)
      case Err(e) => Err(e)
      case Ok(candidate) => GetDoi(candidate)
  }

  /**
   * create(URI): the decoded path must start with "/"; the rest is parsed as
   * a pure DOI body, without prefix stripping or decoding. A null URI counts
   * as the empty path; a URI without a path (an opaque one) fails on null.
   */
  function CreateFromUri(doiUri: Option<Uri>): (r: Result<Doi>)
    ensures doiUri.None? ==> r == Err(Malformed(PathNotRooted))
    ensures doiUri.Some? && doiUri.value.path.None? ==> r == Err(NullInput(UriPathArg))
    ensures doiUri.Some? && doiUri.value.path.Some? ==>
              var p := doiUri.value.path.value;
              r == if p != [] && p[0] == '/' then GetDoi(p[1..]) else Err(Malformed(PathNotRooted))
  {
    var path := if doiUri.None? then Some("") else doiUri.value.path;
    match path
    case None => Err(NullInput(UriPathArg))
    case Some(p) =>
      if IndexOf(p, '/') != 0 then Err(Malformed(PathNotRooted)) else GetDoi(p[1..])
  }

  /** java.net.URI puts an IPv6 host that lacks them in brackets. */
  function BracketHost(host: string): (r: string)
    ensures r == host || r == "[" + host + "]"
    ensures ':' !in host ==> r == host
    ensures ':' in host ==> StartsWith(r, "[") || (r != [] && r[|r| - 1] == ']')
    ensures StartsWith(host, "[") || (host != [] && host[|host| - 1] == ']') ==> r == host
  {
    if ':' in host && !StartsWith(host, "[") && !(host != [] && host[|host| - 1] == ']') then "[" + host + "]" else host
  }

  /** What the URI built from the resolver's scheme and host shows before the path: its port and path are dropped. */
  function ResolverBase(resolver: Uri): string {
    (match resolver.scheme case Some(scheme) => scheme + ":" case None => "")
    + (match resolver.host case Some(host) => "//" + BracketHost(host) case None => "")
  }

  /** A resolver with a scheme and a host that is not an IPv6 literal shows "scheme://host", whatever its path. */
  lemma ResolverBaseOf(scheme: string, host: string, path: Option<string>)
    requires ':' !in host
    ensures ResolverBase(Uri(Some(scheme), Some(host), path)) == scheme + "://" + host
  {
  }

  /**
   * URIForDoi(doi, resolver) and toURI(resolver): the URI built from the
   * resolver's scheme and host and the path "/" + toString(), quoted as a
   * path; a null resolver means https://doi.org/. The string is the
   * resolver's base followed by an encoded path that holds no "#" and that
   * percent-decodes back to "/" + toString().
   */
  function UriForDoi(d: Doi, resolverUri: Option<Uri>): (r: string)
    ensures var base := ResolverBase(if resolverUri.None? then SecureResolverUri else resolverUri.value);
            && StartsWith(r, base)
            && '#' !in r[|base|..]
            && ValidUric(r[|base|..])
            && Decode(r[|base|..]) == "/" + ToString(d)
            && r == base + EncodePath("/" + ToString(d))
  {
    var resolver := if resolverUri.None? then SecureResolverUri else resolverUri.value;
    var path := EncodePath("/" + ToString(d));
    DecodeEncode("/" + ToString(d));
    EncodedPathHasNoHash("/" + ToString(d));
    assert (ResolverBase(resolver) + path)[|ResolverBase(resolver)|..] == path;
    ResolverBase(resolver) + path
  }

  /** The encoded path of a URI is "/" followed by the encoded canonical string. */
  lemma UriShape(resolver: Uri, canonical: string)
    ensures ResolverBase(resolver) + EncodePath("/" + canonical) == ResolverBase(resolver) + "/" + EncodePath(canonical)
  {
    EncodePathAppend("/", canonical);
    assert EncodePath("/") == EncodeChar('/') + EncodePath([]);
  }

  /** toURI(): the URI under https://doi.org/, whose path is the encoded toString(). */
  function ToUri(d: Doi): (r: string)
    ensures r == SecureDefaultResolver + EncodePath(ToString(d))
  {
    UriShape(SecureResolverUri, ToString(d));
    assert ResolverBase(SecureResolverUri) + "/" == SecureDefaultResolver;
    UriForDoi(d, Some(SecureResolverUri))
  }

  /** isCommonlyUsedDoiPrefix: the lower-cased prefix is exactly one of the known ones; null is treated as "". */
  function IsCommonlyUsedDoiPrefix(idPrefix: Option<string>): (b: bool)
    ensures b <==> idPrefix.Some? && (Lower(idPrefix.value) == "doi:"
                                      || Lower(idPrefix.value) == "https://doi.org/"
                                      || Lower(idPrefix.value) == "http://dx.doi.org/")
  {
    var prefixLower := if idPrefix.None? then "" else Lower(idPrefix.value);
    prefixLower in [PrintableDoiPrefix] || prefixLower in DoiUrls
  }

  /** hashCode(): the String hash of the lower-cased canonical form. */
  function HashCode(d: Doi): (h: int)
    ensures JavaHash.IsInt32(h)
    ensures h % JavaHash.TwoTo32 == JavaHash.PolynomialHash(Lower(ToString(d))) % JavaHash.TwoTo32
  {
    JavaHash.StringHash(Lower(ToString(d)))
  }

  /**
   * equals(other): `other` is a DOI (None stands for null or any other
   * object) and the difference of the two hash codes, in int arithmetic, is 0.
   */
  function Equals(d: Doi, other: Option<Doi>): (r: bool)
    ensures r <==> other.Some? && HashCode(d) == HashCode(other.value)
  {
    other.Some? && JavaHash.SubInt32(HashCode(d), HashCode(other.value)) == 0
  }

  /** Equality as the canonical string ignoring case, which equals() is meant to decide. */
  function EqualsIgnoreCase(d: Doi, other: Option<Doi>): (r: bool)
    ensures r ==> Equals(d, other)
  {
    other.Some? && Lower(ToString(d)) == Lower(ToString(other.value))
  }
}
