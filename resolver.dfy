/** `validate_manifest` and the calls it makes: credential lookup, the token
    handshake and the manifest fetch, with the network, the configuration
    and the image-reference parser given as an `Environment`. */
module Resolver {
  import opened Wrappers
  import opened JsonValue
  import opened ImageUrl
  import opened Challenge
  import opened Schema

  datatype Credential = Credential(user: string, secret: string)

  /** Everything outside the resolver, as functions of what it asks. */
  datatype Environment = Environment(
    /** The image-reference parser; `None` when the string does not parse. */
    parse: string -> Option<Reference>,
    /** The `registry_credential_path` setting. */
    credentialDir: Option<string>,
    /** A credential file with `user` and `secret` keys, or `None` when the
        file is absent, does not load, or lacks a key. */
    credentialFile: string -> Option<Credential>,
    /** The unauthenticated GET of a URL: `None` when the request fails,
        otherwise the `www-authenticate` header if there is one. */
    probe: string -> Option<Option<string>>,
    /** The token request with basic auth: its JSON body, or `None` when the
        request fails or the body is not JSON. */
    tokenBody: (string, Credential) -> Option<Json>,
    /** The manifest GET with a bearer token: the body decoded as JSON, or
        `None` when the request, the body read or the decoding fails. */
    manifestBody: (string, string) -> Option<Json>)

  /** `get_credentials_for_registry`. */
  function GetCredentials(env: Environment, registry: string): (c: Option<Credential>)
    ensures env.credentialDir.None? ==> c.None?
    ensures env.credentialDir.Some? ==> c == env.credentialFile(CredentialPath(env.credentialDir.value, registry))
  {
    match env.credentialDir
    case None => None
    case Some(dir) => env.credentialFile(CredentialPath(dir, registry))
  }

  /** The `token` member of the token endpoint's body. */
  function TokenOf(body: Option<Json>): (r: Run<Option<string>>)
    ensures r.Panicked? <==> body.Some? && Get(body.value, "token").Some? && !Get(body.value, "token").value.JString?
    ensures r.Returned? && r.value.Some? ==> body.Some? && Get(body.value, "token") == Some(JString(r.value.value))
    ensures r == Returned(None) <==> body.None? || Get(body.value, "token").None?
  {
    match body
    case None => Returned(None)
    case Some(json) =>
      match Get(json, "token")
      case None => Returned(None)
      case Some(JString(t)) => Returned(Some(t))
      case Some(_) => Panicked("token is not a string")
  }

  /** `get_jwt`: probe the URL, read the challenge, ask its realm for a token. */
  function GetJwt(env: Environment, url: string, credential: Option<Credential>): (r: Run<Option<string>>)
    ensures env.probe(url).None? || env.probe(url).value.None? ==> r == Returned(None)
    ensures r.Returned? && r.value.Some? ==>
      credential.Some? && env.probe(url).Some? && env.probe(url).value.Some? && ParseChallenge(env.probe(url).value.value).Some?
    ensures credential.None? && env.probe(url).Some? && env.probe(url).value.Some? ==> r.Panicked?
    ensures env.probe(url).Some? && env.probe(url).value.Some? && ParseChallenge(env.probe(url).value.value).None? ==>
      r.Panicked?
  {
    match env.probe(url)
    case None => Returned(None)
    case Some(None) => Returned(None)
    case Some(Some(header)) =>
      match ParseChallenge(header)
      case None => Panicked("challenge does not match")
      case Some((realm, service, scope)) =>
        match credential
        case None => Panicked("no credentials")
        case Some(c) => TokenOf(env.tokenBody(AuthUrl(realm, service, scope), c))
  }

  /** A well-formed challenge with credentials asks the token endpoint
      `<realm>?service=<service>&scope=<scope>` with those credentials. */
  lemma ChallengeAsksRealm(env: Environment, url: string, c: Credential, realm: string, service: string, scope: string)
    requires Component(realm) && Component(service) && Component(scope)
    requires env.probe(url) == Some(Some(FormatChallenge(realm, service, scope)))
    ensures GetJwt(env, url, Some(c)) == TokenOf(env.tokenBody(realm + "?service=" + service + "&scope=" + scope, c))
  {
    ParseFormatChallenge(realm, service, scope);
  }

  /** A token is only ever obtained by answering a well-formed challenge:
      the header was `Bearer realm="..",service="..",scope=".."` with three
      quote-free fields, and the token came from the realm's endpoint asked
      for that service and scope with the caller's credentials. */
  lemma TokenCameFromChallenge(env: Environment, url: string, credential: Option<Credential>, token: string)
    requires GetJwt(env, url, credential) == Returned(Some(token))
    ensures env.probe(url).Some? && env.probe(url).value.Some? && credential.Some?
    ensures var header := env.probe(url).value.value;
      exists realm, service, scope ::
        && Component(realm) && Component(service) && Component(scope)
        && header == FormatChallenge(realm, service, scope)
        && TokenOf(env.tokenBody(AuthUrl(realm, service, scope), credential.value)) == Returned(Some(token))
  {
    var header := env.probe(url).value.value;
    ParseChallengeSound(header);
    var c := ParseChallenge(header).value;
    assert TokenOf(env.tokenBody(AuthUrl(c.0, c.1, c.2), credential.value)) == Returned(Some(token));
  }


  /** The token `validate_manifest` obtains for a parsed reference. */
  function TokenFor(env: Environment, ref: Reference): Run<Option<string>> {
    GetJwt(env, ManifestUrl(ref), GetCredentials(env, LogicalRegistry(ref)))
  }

  /** The whole of `validate_manifest` for an image not yet cached. A list
      only ever comes from the manifest fetched at the reference's manifest
      URL, with the token obtained or, when there is none, the empty token. */
  function Resolve(env: Environment, image: string): (r: Lookup)
    ensures env.parse(image).None? ==> r == Returned(None)
    ensures r.Panicked? ==> env.parse(image).Some?
    ensures env.parse(image).Some? && TokenFor(env, env.parse(image).value).Panicked? ==> r.Panicked?
    ensures r.Returned? && r.value.Some? ==>
      && env.parse(image).Some?
      && var ref := env.parse(image).value;
         exists token ::
           && (TokenFor(env, ref) == Returned(Some(token)) || (TokenFor(env, ref) == Returned(None) && token == ""))
           && env.manifestBody(ManifestUrl(ref), token).Some?
           && ManifestArches(env.manifestBody(ManifestUrl(ref), token).value) == r
    ensures env.parse(image).Some? && TokenFor(env, env.parse(image).value).Returned? ==>
      var token := TokenFor(env, env.parse(image).value).value.GetOr("");
      var body := env.manifestBody(ManifestUrl(env.parse(image).value), token);
      && (body.None? ==> r == Returned(None))
      && (body.Some? ==> r == ManifestArches(body.value))
  {
    match env.parse(image)
    case None => Returned(None)
    case Some(ref) =>
      match TokenFor(env, ref)
      case Panicked(why) => Panicked(why)
      case Returned(token) =>
        match env.manifestBody(ManifestUrl(ref), token.GetOr(""))
        case None => Returned(None)
        case Some(json) => ManifestArches(json)
  }

  /** The first half of `validate_manifest`: the credentials and the
      manifest URL for a parsed reference, assigned as the source does. */
  method ManifestRequest(env: Environment, ref: Reference) returns (url: string, credential: Option<Credential>)
    ensures url == ManifestUrl(ref)
    ensures credential == GetCredentials(env, LogicalRegistry(ref))
  {
    var registryPort := "";
    var registry := DefaultRegistry;
    var tag := "";
    if ref.registry.Some? {
      registry := ref.registry.value;
    }
    credential := GetCredentials(env, registry);
    if registry == DefaultRegistry {
      registry := ActualDockerRegistry;
    }
    assert registry == WireRegistry(LogicalRegistry(ref));
    if ref.port.Some? {
      registryPort := registry + ref.port.value;
    } else {
      registryPort := registry;
    }
    assert registryPort == HostPort(ref);
    if ref.tag.Some? {
      tag := ref.tag.value;
    } else {
      tag := DefaultTag;
    }
    var imageName: string;
    if '/' !in ref.name {
      imageName := LegacyNamespace + ref.name;
    } else {
      imageName := ref.name;
    }
    assert imageName == RepositoryPath(ref.name);
    url := FormatManifestUrl(registryPort, imageName, tag);
  }

  /** The second half of `validate_manifest`: dispatch on `schemaVersion`. */
  method ManifestArchitectures(json: Json) returns (r: Lookup)
    ensures r == ManifestArches(json)
  {
    var version := Get(json, "schemaVersion");
    if version.None? {
      return Returned(None);
    }
    var schemaVersion := AsU64(version.value);
    if schemaVersion.None? {
      return Panicked("schemaVersion is not a u64");
    }
    if schemaVersion.value == 1 {
      r := Version1Arches(json);
    } else if schemaVersion.value == 2 {
      r := GetVersion2Arches(json);
    } else {
      r := Returned(None);
    }
  }

  /** `validate_manifest`'s body for an image not in the cache. */
  method ResolveUncached(env: Environment, image: string) returns (r: Lookup)
    ensures r == Resolve(env, image)
  {
    var parsed := env.parse(image);
    if parsed.None? {
      return Returned(None);
    }
    var url, credential := ManifestRequest(env, parsed.value);
    var jwt := GetJwt(env, url, credential);
    if jwt.Panicked? {
      return Panicked(jwt.reason);
    }
    var token := jwt.value.GetOr("");
    var body := env.manifestBody(url, token);
    if body.None? {
      return Returned(None);
    }
    r := ManifestArchitectures(body.value);
  }

  /** The process-wide memo table of `#[cached]`, keyed by the raw image
      string. Every value returned is stored, `None` included; a call that
      panics stores nothing. Entries never expire. */
  class ManifestCache {
    var memo: map<string, Option<seq<string>>>

    constructor ()
      ensures memo == map[]
    {
      memo := map[];
    }

    /** `validate_manifest` through the cache: a stored result is returned
        as it is, without consulting the environment again. */
    method ValidateManifest(env: Environment, image: string) returns (r: Lookup)
      modifies this
      ensures image in old(memo) ==> r == Returned(old(memo)[image]) && memo == old(memo)
      ensures image !in old(memo) ==> r == Resolve(env, image)
      ensures image !in old(memo) && r.Returned? ==> memo == old(memo)[image := r.value]
      ensures image !in old(memo) && r.Panicked? ==> memo == old(memo)
    {
      if image in memo {
        return Returned(memo[image]);
      }
      r := ResolveUncached(env, image);
      if r.Returned? {
        memo := memo[image := r.value];
      }
    }
  }

  /** Two resolutions of one image string agree once the first has
      returned, even if the registry answers differently in between. */
  method ResolveTwice(cache: ManifestCache, first: Environment, second: Environment, image: string)
    returns (a: Lookup, b: Lookup)
    modifies cache
    ensures a.Returned? ==> b == a
    ensures image !in old(cache.memo) ==> a == Resolve(first, image)
  {
    a := cache.ValidateManifest(first, image);
    b := cache.ValidateManifest(second, image);
  }
}
