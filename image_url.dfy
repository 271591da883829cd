/** The pure part of `validate_manifest` and `get_credentials_for_registry`:
    from an already-parsed image reference to the manifest URL and the
    credential file name. */
module ImageUrl {
  import opened Wrappers
  import opened Strings

  /** An image reference as the reference parser returns it. */
  datatype Reference = Reference(
    registry: Option<string>,
    port: Option<string>,
    name: string,
    tag: Option<string>)

  const DefaultRegistry: string := "docker.io"
  /** The DNS name that actually serves the default registry. */
  const ActualDockerRegistry: string := "registry-1.docker.io"
  const DefaultTag: string := "latest"
  const LegacyNamespace: string := "library/"

  /** The user-facing registry name: the credential files are keyed by it. */
  function LogicalRegistry(ref: Reference): (registry: string)
    ensures ref.registry.None? ==> registry == DefaultRegistry
    ensures ref.registry.Some? ==> registry == ref.registry.value
  {
    ref.registry.GetOr(DefaultRegistry)
  }

  /** The registry host contacted on the wire. */
  function WireRegistry(registry: string): (host: string)
    ensures host != DefaultRegistry
    ensures registry == DefaultRegistry ==> host == ActualDockerRegistry
    ensures registry != DefaultRegistry ==> host == registry
  {
    if registry == DefaultRegistry then ActualDockerRegistry else registry
  }

  /** Host and port, concatenated with no separator added. */
  function HostPort(ref: Reference): string {
    WireRegistry(LogicalRegistry(ref)) + ref.port.GetOr("")
  }

  function Tag(ref: Reference): (tag: string)
    ensures ref.tag.None? ==> tag == DefaultTag
    ensures ref.tag.Some? ==> tag == ref.tag.value
  {
    ref.tag.GetOr(DefaultTag)
  }

  /** Legacy names without a namespace live under `library/`. */
  function RepositoryPath(name: string): (path: string)
    ensures '/' in path
    ensures |name| <= |path| && path[|path| - |name|..] == name
    ensures path == name <==> '/' in name
    ensures path != name ==> path == LegacyNamespace + name
  {
    if '/' !in name then LegacyNamespace + name else name
  }

  /** Normalising twice changes nothing more. */
  lemma RepositoryPathIdempotent(name: string)
    ensures RepositoryPath(RepositoryPath(name)) == RepositoryPath(name)
  {
  }

  function FormatManifestUrl(hostPort: string, path: string, tag: string): string {
    Scheme + hostPort + ApiPrefix + path + ManifestsSegment + tag
  }

  /** The manifest URL the resolver requests for a parsed reference. */
  function ManifestUrl(ref: Reference): string {
    FormatManifestUrl(HostPort(ref), RepositoryPath(ref.name), Tag(ref))
  }

  /** The credential file consulted for a registry name. */
  function CredentialPath(dir: string, registry: string): string {
    dir + "/" + registry + ".toml"
  }

  const Scheme: string := "https://"
  const ApiPrefix: string := "/v2/"
  const ManifestsSegment: string := "/manifests/"

  /** Reads a manifest URL back into host-and-port, repository path and tag:
      the host ends at the first `/`, the tag starts after the last one. */
  function SplitManifestUrl(url: string): Option<(string, string, string)> {
    SplitUrl(url, Scheme, ApiPrefix, ManifestsSegment)
  }

  /** `scheme + host + api + path + segment + tag` read back, the host ending
      at the first `/` and the tag starting after the last one. */
  function SplitUrl(url: string, scheme: string, api: string, segment: string): Option<(string, string, string)> {
    match StripPrefix(scheme, url)
    case None => None
    case Some(rest) =>
      var h := IndexOf(rest, '/');
      match SplitPathTag(rest[h..], api, segment)
      case None => None
      case Some((path, tag)) => Some((rest[..h], path, tag))
  }

  /** `api + path + segment + tag` read back, the tag starting after the last `/`. */
  function SplitPathTag(afterHost: string, api: string, segment: string): Option<(string, string)> {
    match StripPrefix(api, afterHost)
    case None => None
    case Some(tail) =>
      var t := LastIndexOf(tail, '/');
      match StripSuffix(segment, tail[..t + 1])
      case None => None
      case Some(path) => Some((path, tail[t + 1..]))
  }

  lemma ReassembleUrl(url: string, rest: string, afterHost: string,
                      scheme: string, host: string, api: string, path: string, segment: string, tag: string)
    requires url == scheme + rest && rest == host + afterHost && afterHost == api + path + segment + tag
    ensures url == scheme + host + api + path + segment + tag
  {
  }

  lemma SplitPathTagFormat(api: string, segment: string, path: string, tag: string)
    requires '/' !in tag && segment != [] && segment[|segment| - 1] == '/'
    ensures SplitPathTag(api + (path + segment + tag), api, segment) == Some((path, tag))
  {
    var front := path + segment;
    var tail := front + tag;
    StripPrefixConcat(api, tail);
    LastIndexOfConcat(front, tag, '/');
    assert tail[..|front|] == front && tail[|front|..] == tag;
    StripSuffixConcat(segment, path);
  }

  /** The tail after the API prefix is the path, the segment and a tag
      free of `/`. */
  lemma SplitTailSound(tail: string, segment: string)
    requires StripSuffix(segment, tail[..LastIndexOf(tail, '/') + 1]).Some?
    ensures var t := LastIndexOf(tail, '/');
      && tail == StripSuffix(segment, tail[..t + 1]).value + segment + tail[t + 1..]
      && '/' !in tail[t + 1..]
  {
    var t := LastIndexOf(tail, '/');
    var front, tag := tail[..t + 1], tail[t + 1..];
    StripSuffixSound(segment, front);
    SplitAt(tail, t + 1);
    forall k | 0 <= k < |tag| ensures tag[k] != '/' {
      assert tag[k] == tail[t + 1 + k];
    }
  }

  lemma SplitPathTagSound(afterHost: string, api: string, segment: string)
    requires SplitPathTag(afterHost, api, segment).Some?
    ensures var r := SplitPathTag(afterHost, api, segment).value;
      afterHost == api + r.0 + segment + r.1 && '/' !in r.1
  {
    StripPrefixSound(api, afterHost);
    var tail := StripPrefix(api, afterHost).value;
    SplitTailSound(tail, segment);
    var t := LastIndexOf(tail, '/');
    var path := StripSuffix(segment, tail[..t + 1]).value;
    Reassemble(afterHost, api, tail, path + segment, tail[t + 1..]);
  }

  lemma SplitUrlFormat(scheme: string, api: string, segment: string,
                       hostPort: string, path: string, tag: string)
    requires '/' !in hostPort && '/' !in tag
    requires api != [] && api[0] == '/' && segment != [] && segment[|segment| - 1] == '/'
    ensures SplitUrl(scheme + hostPort + api + path + segment + tag, scheme, api, segment)
            == Some((hostPort, path, tag))
  {
    var afterHost := api + (path + segment + tag);
    var rest := hostPort + afterHost;
    assert scheme + hostPort + api + path + segment + tag == scheme + rest;
    StripPrefixConcat(scheme, rest);
    IndexOfConcat(hostPort, afterHost, '/');
    assert rest[..|hostPort|] == hostPort && rest[|hostPort|..] == afterHost;
    SplitPathTagFormat(api, segment, path, tag);
  }

  lemma SplitUrlSound(url: string, scheme: string, api: string, segment: string)
    requires SplitUrl(url, scheme, api, segment).Some?
    ensures var r := SplitUrl(url, scheme, api, segment).value;
      url == scheme + r.0 + api + r.1 + segment + r.2 && '/' !in r.0 && '/' !in r.2
  {
    StripPrefixSound(scheme, url);
    var rest := StripPrefix(scheme, url).value;
    var h := IndexOf(rest, '/');
    var host := rest[..h];
    SplitPathTagSound(rest[h..], api, segment);
    var r := SplitPathTag(rest[h..], api, segment).value;
    SplitAt(rest, h);
    ReassembleUrl(url, rest, rest[h..], scheme, host, api, r.0, segment, r.1);
    forall k | 0 <= k < |host| ensures host[k] != '/' {
      assert host[k] == rest[k];
    }
  }

  /** The URL determines its parts: reading back a formatted URL gives the
      host-and-port, the repository path and the tag it was built from,
      provided host-and-port and tag hold no `/`. */
  lemma SplitFormatManifestUrl(hostPort: string, path: string, tag: string)
    requires '/' !in hostPort && '/' !in tag
    ensures SplitManifestUrl(FormatManifestUrl(hostPort, path, tag)) == Some((hostPort, path, tag))
  {
    SplitUrlFormat(Scheme, ApiPrefix, ManifestsSegment, hostPort, path, tag);
  }

  /** Conversely, every URL that reads back was formatted from its parts. */
  lemma SplitManifestUrlSound(url: string)
    requires SplitManifestUrl(url).Some?
    ensures var r := SplitManifestUrl(url).value;
      url == FormatManifestUrl(r.0, r.1, r.2) && '/' !in r.0 && '/' !in r.2
  {
    SplitUrlSound(url, Scheme, ApiPrefix, ManifestsSegment);
  }

  /** The manifest URL determines the wire host, the normalised repository
      path and the tag. */
  lemma ManifestUrlParts(ref: Reference)
    requires '/' !in HostPort(ref) && '/' !in Tag(ref)
    ensures SplitManifestUrl(ManifestUrl(ref)) == Some((HostPort(ref), RepositoryPath(ref.name), Tag(ref)))
  {
    SplitFormatManifestUrl(HostPort(ref), RepositoryPath(ref.name), Tag(ref));
  }

  /** A reference with no registry is fetched from `registry-1.docker.io`
      while its credentials are looked up under `docker.io`; a bare name
      gains the `library/` namespace and a missing tag becomes `latest`. */
  lemma DefaultRegistryReference(name: string, dir: string)
    requires '/' !in name
    ensures var ref := Reference(None, None, name, None);
      && CredentialPath(dir, LogicalRegistry(ref)) == CredentialPath(dir, DefaultRegistry)
      && ManifestUrl(ref) == FormatManifestUrl(ActualDockerRegistry, LegacyNamespace + name, DefaultTag)
  {
  }

  /** Different registries never share a credential file. */
  lemma CredentialPathInjective(dir: string, r1: string, r2: string)
    requires CredentialPath(dir, r1) == CredentialPath(dir, r2)
    ensures r1 == r2
  {
    var p1, p2 := CredentialPath(dir, r1), CredentialPath(dir, r2);
    assert |r1| == |r2|;
    assert r1 == p1[|dir| + 1..|dir| + 1 + |r1|];
    assert r2 == p2[|dir| + 1..|dir| + 1 + |r2|];
  }
}
