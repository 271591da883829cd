/** The bearer-token challenge a registry sends in its `www-authenticate`
    header, and the token-endpoint URL `get_jwt` builds from it. */
module Challenge {
  import opened Wrappers
  import opened Strings

  const RealmPrefix: string := "Bearer realm=\""
  const ServiceSeparator: string := "\",service=\""
  const ScopeSeparator: string := "\",scope=\""
  const Quote: string := "\""

  /** A captured component: one or more characters other than a line break
      (what `.+` matches), here also free of quotes. */
  predicate Component(s: string) {
    |s| > 0 && '"' !in s && '\n' !in s
  }

  /** The header `Bearer realm="<realm>",service="<service>",scope="<scope>"`. */
  function FormatChallenge(realm: string, service: string, scope: string): string {
    RealmPrefix + realm + ServiceSeparator + service + ScopeSeparator + scope + Quote
  }

  /** The text up to the first quote, and what follows `separator` there. */
  function TakeField(s: string, separator: string): Option<(string, string)> {
    var i := IndexOf(s, '"');
    match StripPrefix(separator, s[i..])
    case None => None
    case Some(rest) => Some((s[..i], rest))
  }

  /** The three captures of the challenge pattern, for quote-free components. */
  function ParseChallenge(header: string): Option<(string, string, string)> {
    match StripPrefix(RealmPrefix, header)
    case None => None
    case Some(afterRealm) =>
      match TakeField(afterRealm, ServiceSeparator)
      case None => None
      case Some((realm, afterService)) =>
        match TakeField(afterService, ScopeSeparator)
        case None => None
        case Some((service, afterScope)) =>
          match TakeField(afterScope, Quote)
          case None => None
          case Some((scope, trailer)) =>
            if trailer == [] && Component(realm) && Component(service) && Component(scope)
            then Some((realm, service, scope))
            else None
  }

  /** The token endpoint: `<realm>?service=<service>&scope=<scope>`. */
  function AuthUrl(realm: string, service: string, scope: string): string {
    realm + "?service=" + service + "&scope=" + scope
  }

  lemma TakeFieldConcat(field: string, separator: string, rest: string)
    requires '"' !in field && separator != [] && separator[0] == '"'
    ensures TakeField(field + separator + rest, separator) == Some((field, rest))
  {
    var s := field + (separator + rest);
    assert field + separator + rest == s;
    IndexOfConcat(field, separator + rest, '"');
    SplitAt(s, |field|);
    assert s[..|field|] == field && s[|field|..] == separator + rest;
    StripPrefixConcat(separator, rest);
  }

  lemma TakeFieldSound(s: string, separator: string)
    requires TakeField(s, separator).Some?
    ensures var r := TakeField(s, separator).value;
      s == r.0 + separator + r.1 && '"' !in r.0
  {
    var i := IndexOf(s, '"');
    StripPrefixSound(separator, s[i..]);
    SplitAt(s, i);
    Reassemble(s, s[..i], s[i..], separator, StripPrefix(separator, s[i..]).value);
    forall k | 0 <= k < i ensures s[..i][k] != '"' {
      assert s[..i][k] == s[k];
    }
  }

  lemma ReassembleChallenge(header: string, afterRealm: string, afterService: string, afterScope: string,
                            realm: string, service: string, scope: string)
    requires header == RealmPrefix + afterRealm
    requires afterRealm == realm + ServiceSeparator + afterService
    requires afterService == service + ScopeSeparator + afterScope
    requires afterScope == scope + Quote + []
    ensures header == FormatChallenge(realm, service, scope)
  {
  }

  /** Every well-formed challenge parses to the components it was built from. */
  lemma ParseFormatChallenge(realm: string, service: string, scope: string)
    requires Component(realm) && Component(service) && Component(scope)
    ensures ParseChallenge(FormatChallenge(realm, service, scope)) == Some((realm, service, scope))
  {
    var afterScope := scope + Quote + [];
    var afterService := service + ScopeSeparator + afterScope;
    var afterRealm := realm + ServiceSeparator + afterService;
    ReassembleChallenge(FormatChallenge(realm, service, scope), afterRealm, afterService, afterScope,
                        realm, service, scope);
    StripPrefixConcat(RealmPrefix, afterRealm);
    TakeFieldConcat(realm, ServiceSeparator, afterService);
    TakeFieldConcat(service, ScopeSeparator, afterScope);
    TakeFieldConcat(scope, Quote, []);
  }

  /** Every header that parses is exactly a challenge built from its
      captures, each a well-formed component. */
  lemma ParseChallengeSound(header: string)
    requires ParseChallenge(header).Some?
    ensures var c := ParseChallenge(header).value;
      && header == FormatChallenge(c.0, c.1, c.2)
      && Component(c.0) && Component(c.1) && Component(c.2)
  {
    StripPrefixSound(RealmPrefix, header);
    var afterRealm := StripPrefix(RealmPrefix, header).value;
    TakeFieldSound(afterRealm, ServiceSeparator);
    var (realm, afterService) := TakeField(afterRealm, ServiceSeparator).value;
    TakeFieldSound(afterService, ScopeSeparator);
    var (service, afterScope) := TakeField(afterService, ScopeSeparator).value;
    TakeFieldSound(afterScope, Quote);
    var (scope, trailer) := TakeField(afterScope, Quote).value;
    ReassembleChallenge(header, afterRealm, afterService, afterScope, realm, service, scope);
  }
}
