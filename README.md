# tolerable, modelled in Dafny

tolerable is a Kubernetes mutating admission webhook. For every Pod it is
asked about, it looks up which CPU architectures each container image is
published for. It does this by asking the image's registry for the manifest
(schema 1) or manifest list (schema 2). When the images qualify for one of
the configured target architectures, it answers with a JSON Patch that adds
a scheduling toleration for that architecture.

This project models three parts of it:

- the registry side of `src/manifest.rs`:
  - manifest URL and credential-file naming;
  - the `www-authenticate` bearer challenge and the token endpoint it names;
  - architecture extraction for both schema versions;
  - the per-image memo table;
- `mutate_handler` and `generate_error_response` of `src/mutation.rs`;
- the admission wire types of `src/models.rs`, with their defaults and their serialised field names.

## Modules

- **Wrappers** (`wrappers.dfy`): `Option` and `Run`. `Run` is the outcome of a Rust call that may panic: `Returned(value)` or `Panicked(reason)`. Every `unwrap` of the core that can fail on the values the model takes is modelled as an explicit `Panicked` outcome. The one inside the handler's `info!` line happens only when the `info` level is enabled. The two `unwrap`s the model does not take inputs for (a header's `to_str`, the settings lock) are listed under Left out.
- **JsonValue** (`json.dfy`): the untyped JSON value, and serde_json's `get` and `as_u64`.
- **Models** (`models.dfy`): the wire types and their `Default`s, plus the key lists serde writes for them.
- **Strings** (`strings.dfy`): index, prefix and suffix helpers.
- **ImageUrl** (`image_url.dfy`): from a parsed image reference to the manifest URL and the credential file. Also the inverse reading of a manifest URL.
- **Challenge** (`challenge.dfy`): the `Bearer realm=..,service=..,scope=..` header and the token URL.
- **Schema** (`schema.dfy`): `get_version_1_arches`, `get_version_2_arches` (as a loop, proved against its specification) and the `schemaVersion` dispatch.
- **Resolver** (`resolver.dfy`):
  - `get_credentials_for_registry`, `get_jwt` and `validate_manifest`, with everything outside the program passed in as an `Environment` of functions (parser, configuration, credential files, HTTP answers);
  - `ManifestCache`, the `#[cached]` table, as a class with a map field.
- **JsonPatch** (`json_patch.dfy`): patch operations, their JSON form, and the `add` operation of section 4.1 of RFC 6902. This is what gives the handler's patches a meaning.
- **Mutation** (`mutation.dfy`):
  - the handler as an imperative method with the source's nested loops and sticky flag;
  - the specification functions it is proved against;
  - the lemmas about them;
  - the corrected definitions listed under Findings.

### Where the code and its description differ

The model follows the code:

- **Missing `spec` or `containers`.** The handler answers with `allowed = false` and status code 400, through `generate_error_response` (src/mutation.rs:22). It does not let the pod through.
- **Bad registry answers panic.** A `www-authenticate` header that does not match the challenge pattern panics (src/manifest.rs:192). So does one that matches while no credentials are configured (src/manifest.rs:198). Neither degrades to "architecture unknown".
- **Tolerations are decided per pair, with one shared flag.** A toleration is queued for every (architecture, container) pair visited while `match_found` still holds. The flag is shared by all architectures. Architectures are therefore not matched independently, and a toleration can be queued before the remaining containers are checked (see Findings).
- **The prerequisite targets `/spec`.** The operation added before the first append is `add` at `/spec`, not at `/spec/tolerations`.
- **No patch type.** `patchType` is never set on the response.
- **A pod without `name` or `generateName`.** The handler reads `generateName` with `unwrap` only as an argument of its `info!` line (src/mutation.rs:50). The `log` macros evaluate their arguments only when the level is enabled, so such a pod panics only with `info` logging on. With the default logging, it is handled like any other pod. `Mutation.Settings.infoLogging` carries that level, which the optional `log_level` setting selects (src/main.rs:57-62).

## Model

| member | source | states |
|---|---|---|
| Models.DefaultOperation | src/models.rs:104-108 | the default operation is `UPDATE` |
| Models.PatchTypeName | src/models.rs:110-119 | the only patch type is the default one and is written as `"JSONPatch"`; the handler never sets `patchType`, so this name never reaches the wire |
| Models.OperationName | src/models.rs:96-108 | the variant written is `"UPDATE"` exactly for the default operation |
| Models.DefaultResponse | src/models.rs:55-76 | the default response has an empty uid, is not allowed, and has every optional field absent |
| Models.DefaultRequest | src/models.rs:14-54 | the default request has an empty uid and kind, the default operation, an empty user info, and every optional field absent |
| Models.AbsentOptionalsWireForm | src/models.rs:14-54 | a request with every optional field absent, such as the default one, is written as exactly `uid`, `kind`, `resource`, `operation`, `userInfo` |
| Models.DefaultReview | src/models.rs:5-13 | the default review has neither request nor response |
| Models.SelectWritesPresent | src/models.rs:8-12 | with distinct field names, a field is written exactly when its `skip_serializing_if` does not hold |
| Models.SelectDistinct | src/models.rs:5-13 | no key is written twice |
| Models.SelectLeading | src/models.rs:55-76 | when exactly the leading fields are present, exactly their names are written, in declaration order |
| Models.ReviewKeysOmitNone | src/models.rs:8-12 | a review writes `request` and `response` exactly when present, each once |
| Models.RequestKeysAlwaysWritten | src/models.rs:38-41 | a request always writes `operation` and `userInfo`; its keys are distinct |
| Models.RequestKeyWritten | src/models.rs:14-54 | each field name of the request is written exactly when that field's skip condition does not hold |
| Models.RequestKeysOmitNone | src/models.rs:22-53 | each of the nine optional fields (`subResource`, `requestKind`, `requestSubResource`, `name`, `namespace`, `object`, `oldObject`, `dryRun`, `options`) is written under its name exactly when present |
| Models.ResponseKeysOmitNone | src/models.rs:55-76 | a response always writes `uid` and `allowed`; `status`, `patch`, `patchType`, `auditAnnotations`, `warnings` exactly when present; no key twice |
| Models.DefaultResponseWireForm | src/models.rs:55-76 | a default response with a uid is written as exactly `uid`, `allowed` |
| Models.ResponseOnlyReviewWireForm | src/models.rs:5-13 | a review holding only a response is written with the single key `response` |
| JsonValue.AsU64 | src/manifest.rs:113 | a number is read as a u64 exactly when it is a non-negative integer below 2^64 |
| ImageUrl.LogicalRegistry | src/manifest.rs:33-37 | the registry is the reference's own, or `docker.io` when it names none |
| ImageUrl.WireRegistry | src/manifest.rs:39-42 | `docker.io` is replaced by `registry-1.docker.io`; every other registry is kept; the result is never `docker.io` |
| ImageUrl.Tag | src/manifest.rs:48-52 | the tag is the reference's own, or `latest` |
| ImageUrl.RepositoryPath | src/manifest.rs:56-61 | the path contains a `/` and ends with the name; it equals the name exactly when the name has a `/`, and is `library/` + name otherwise |
| ImageUrl.RepositoryPathIdempotent | src/manifest.rs:56-61 | normalising a normalised path changes nothing |
| ImageUrl.SplitFormatManifestUrl | src/manifest.rs:63 | a manifest URL built from a host-and-port and a tag without `/` reads back into exactly its three parts |
| ImageUrl.SplitManifestUrlSound | src/manifest.rs:63 | whatever URL reads back into parts is exactly the URL those parts build |
| ImageUrl.ManifestUrlParts | src/manifest.rs:31-63 | the manifest URL of a reference reads back into exactly its host (rewritten, the port appended without separator), its normalised path and its tag |
| ImageUrl.DefaultRegistryReference | src/manifest.rs:33-63 | a bare name is looked up at `https://registry-1.docker.io/v2/library/<name>/manifests/latest`, with credentials from `<dir>/docker.io.toml` |
| ImageUrl.CredentialPathInjective | src/manifest.rs:234 | different registries use different credential files |
| Challenge.ParseFormatChallenge | src/consts.rs:3 | every challenge built from three quote-free, non-empty fields is parsed back into exactly those fields |
| Challenge.ParseChallengeSound | src/consts.rs:3 | every parsed header is exactly the challenge its three quote-free fields build |
| Schema.Version1Arches | src/manifest.rs:129-139 | a schema-1 manifest yields the one-element list of its `architecture` string, `None` without one, and a panic when it is not a string |
| Schema.Dedup | src/manifest.rs:165-167 | the kept architectures are exactly the architectures seen |
| Schema.DedupNoDuplicates | src/manifest.rs:165-167 | each architecture is kept once |
| Schema.DedupFirstSeenOrder | src/manifest.rs:165-167 | the kept architectures are in the order of their first occurrence |
| Schema.FirstUnnamed | src/manifest.rs:150-164 | the loop stops at the first entry without an architecture string |
| Schema.ArchNames | src/manifest.rs:150-164 | the architecture of every entry, in entry order |
| Schema.GetVersion2Arches | src/manifest.rs:141-171 | the loop yields the schema-2 result: missing `manifests` gives `None`, a non-array panics, otherwise the entries decide |
| Schema.StopsAt | src/manifest.rs:151-164 | the first entry in order without a `platform` or `architecture` gives `None`, and one whose architecture is not a string panics |
| Schema.EntriesArchesAllOrNothing | src/manifest.rs:150-164 | a list is returned exactly when every entry names an architecture; `None` exactly when the first unnamed entry lacks the field |
| Schema.EntriesArchesDistinctInOrder | src/manifest.rs:149-170 | on success the list holds exactly the entries' architectures, without duplicates, in first-seen order |
| Schema.EmptyManifestList | src/manifest.rs:149-170 | an empty `manifests` array yields an empty list |
| Schema.ManifestArches | src/manifest.rs:111-126 | a missing `schemaVersion` gives `None`; 1 dispatches to schema 1 and 2 to schema 2; a list comes back only for those two; any other integer gives `None`; a `schemaVersion` that is not an unsigned integer panics |
| Resolver.GetCredentials | src/manifest.rs:226-234 | with no credential directory there are none; otherwise the file `<dir>/<registry>.toml` decides |
| Resolver.TokenOf | src/manifest.rs:210-223 | a token is returned exactly when the body has a string `token`; a non-string `token` panics; no body or no `token` gives `None` |
| Resolver.GetJwt | src/manifest.rs:174-224 | a failed probe or a missing header gives no token; a token needs credentials and a header that parses; a header without credentials panics; a header that does not match the challenge pattern panics |
| Resolver.ChallengeAsksRealm | src/manifest.rs:185-198 | a well-formed challenge sends the token request to `<realm>?service=<service>&scope=<scope>` with the caller's credentials |
| Resolver.TokenCameFromChallenge | src/manifest.rs:185-223 | every token obtained answers a well-formed challenge, from that challenge's endpoint |
| Resolver.Resolve | src/manifest.rs:21-126 | an image that does not parse resolves to `None`; a panic happens only after parsing, and a panic while obtaining the token aborts; a list comes only from the manifest fetched at the image's manifest URL with the token obtained, or with an empty token when there is none; whenever the token step returns, the result is no list when that fetch fails and the architectures of the fetched manifest otherwise |
| Resolver.ManifestRequest | src/manifest.rs:31-63 | the step-by-step assignments produce the manifest URL of the reference and the credentials of its registry before rewriting |
| Resolver.ManifestArchitectures | src/manifest.rs:111-126 | the dispatch, run with the schema-2 loop, agrees with its specification |
| Resolver.ResolveUncached | src/manifest.rs:21-126 | `validate_manifest`'s body yields the resolution of the image |
| Resolver.ManifestCache.constructor | src/manifest.rs:20 | the table starts empty |
| Resolver.ManifestCache.ValidateManifest | src/manifest.rs:20-21 | a stored image returns its stored answer, `None` included, without recomputing; a new image is resolved and its answer stored; a panic stores nothing |
| Resolver.ResolveTwice | src/manifest.rs:20-21 | once an image has resolved, a second call returns the identical answer even if the registry changed |
| JsonPatch.PatchDocument | src/mutation.rs:154 | the patch is a JSON array of the operations, in order |
| JsonPatch.AddAt | src/mutation.rs:127-131 | `add` replaces or creates an object member, and `-` appends to an array |
| JsonPatch.AppendTolerations | src/mutation.rs:127-131 | appends at `/spec/tolerations/-` extend an existing array by their values, in order, and change nothing else |
| Mutation.GenerateErrorResponse | src/mutation.rs:11-27 | the error review denies, copies the uid, and carries one status with code 400 and the message as status, message and reason, without details |
| Mutation.ErrorResponseWireForm | src/mutation.rs:11-27 | the error response is written with `uid`, `allowed`, `status` only |
| Mutation.ErrorStatusWireForm | src/mutation.rs:12-18 | its status entry is written with `status`, `message`, `reason`, `code`, without `details` |
| Mutation.AllowedReview | src/mutation.rs:41-43 | the pass-through review allows, copies the uid, and has no status and no patch type |
| Mutation.Toleration | src/mutation.rs:122-124 | the toleration is the template with `value` set to the architecture, inserted or overwritten, and every other key unchanged |
| Mutation.TolerationPath | src/mutation.rs:129 | appends are written with path `/spec/tolerations/-` |
| Mutation.PrerequisitePath | src/mutation.rs:141-148 | the prerequisite is written with path `/spec` and is never an append |
| Mutation.TolerationPatchInjective | src/mutation.rs:122-131 | different architectures give different appends |
| Mutation.Tolerations | src/mutation.rs:127-131 | one append per pair, carrying the pair's architecture |
| Mutation.ContainerImage | src/mutation.rs:102-103 | a container yields its image exactly when it is an object with a string `image`; otherwise the handler panics |
| Mutation.Row | src/mutation.rs:101 | one architecture visits every container in order |
| Mutation.Pairs | src/mutation.rs:100-101 | every visited pair is a configured architecture with one of the containers |
| Mutation.LeadingHits | src/mutation.rs:104-118 | the number of leading pairs whose image resolved and lists the architecture |
| Mutation.ScanFromNoPanic | src/mutation.rs:100-133 | from any state, the loops queue one append per pair before the first miss and none after it; the flag ends set exactly when nothing missed |
| Mutation.ScanFromPanics | src/mutation.rs:102-111 | the loops panic exactly when some container is malformed or some resolution panics |
| Mutation.QueuedTolerations | src/mutation.rs:71-133 | from the start the queue is the appends of the pairs before the first miss, one per pair |
| Mutation.EveryImageCovers | src/mutation.rs:100-133 | when every image lists every architecture, one append is queued per pair, so each architecture once per container |
| Mutation.MissStopsQueueing | src/mutation.rs:71-121 | after the first pair that misses, the flag stays cleared and no later pair, of any architecture, queues anything |
| Mutation.VisitPair | src/mutation.rs:102-132 | one pass of the inner loop body performs exactly one step of the specified scan: the image read, its resolution, the flag update and the append |
| Mutation.QueueTolerations | src/mutation.rs:100-134 | the nested loops, with `match_found` and the pushes, produce the specified flag and queue, or the first panic |
| Mutation.WithPrerequisite | src/mutation.rs:136-150 | the prerequisite goes first exactly when something was queued and the spec has no `tolerations`; otherwise the queue is unchanged |
| Mutation.PodDecision | src/mutation.rs:46-150 | a pod without `metadata` panics, and so does one without `name` or `generateName` when `info` logging is on; otherwise a pod without a spec, or whose spec has no containers, is denied with the matching message, `containers` that is not an array panics, and a pod with an array of containers passes with no patches when either setting is missing; a patch is produced only with a spec and both settings; a pod with a spec is rejected only for missing containers |
| Mutation.PanickingPairPanics | src/mutation.rs:99-133 | with an array of containers and both settings, the pod panics exactly when one of its (architecture, container) pairs does: an unreadable image or a panicking resolution |
| Mutation.Decide | src/mutation.rs:34-51 | a non-pod passes unpatched; only pods are rejected; any decision needs the request and its object |
| Mutation.PatchedWhenQueued | src/mutation.rs:46-150 | conversely, a pod past the logging line with an array of containers, both settings and no panicking pair passes with the queued appends behind the prerequisite when one is needed |
| Mutation.PassedPod | src/mutation.rs:46-150 | a review passed with patches is a pod with a spec, an array of containers and both settings, none of whose pairs panics, and the patches are the queued appends behind the prerequisite when one is needed |
| Mutation.PatchShape | src/mutation.rs:121-150 | a sent patch is the prerequisite, exactly when the spec has no tolerations, followed by appends that each carry a configured architecture |
| Mutation.MutateHandler | src/mutation.rs:30-161 | the handler answers as decided: a non-pod is allowed with its uid and no patch; the patch is present exactly when the list is non-empty; `patchType` is never set |
| Mutation.NginxOnArm | src/mutation.rs:100-150 | whatever the logging level, a named pod whose only image is published for amd64 and arm64, with arm64 as the target, gets the prerequisite and one arm64 append |
| Mutation.IntendedTolerationsExact | src/mutation.rs:125 | corrected: an append for an architecture is queued exactly when it is configured and every container's image supports it |
| Mutation.PrematureToleration | src/mutation.rs:113-132 | as written: a pod whose second image lacks arm64 still gets an arm64 append; the corrected definition gives none |
| Mutation.StickyAcrossArchitectures | src/mutation.rs:71 | as written: a miss on the first architecture suppresses the second one's append; the corrected definition gives it |
| Mutation.PrerequisiteReplacesSpec | src/mutation.rs:141-148 | as written: the prerequisite replaces the whole spec with just the new tolerations |
| Mutation.IntendedPrerequisiteKeepsSpec | src/mutation.rs:136-148 | corrected: a prerequisite at `/spec/tolerations` keeps the rest of the spec and leaves the appended tolerations in order |
| Mutation.PatchDropsContainers | src/mutation.rs:136-157 | as written: every patch sent for a pod without tolerations, once applied, leaves a spec without `containers` |

## Left out

- **Image-reference parsing** (src/manifest.rs:23). The `docker_image_reference` parser is not part of this model; the resolver takes it as a function from the image string to an optional reference. `DOCKER_IMAGE_REGEXP` (src/consts.rs:2) is never used by the code.
- **HTTP.** The HTTP client, the `Accept` header and the actix routing are not modelled. Each request the resolver makes is a function of its URL (and token or credentials) in `Resolver.Environment`.
- **Header decoding.** The header is modelled as a string, so the panic of `to_str().unwrap()` on a non-visible-ASCII header value (src/manifest.rs:186) is not modelled.
- Challenge.ParseChallenge: fields that contain `"` or a line break are treated as not matching, so `get_jwt` panics on such headers. The regular expression (src/consts.rs:3) would still match a quote-containing header, splitting it greedily. Registry challenges do not carry quotes inside their fields. A challenge with a parameter after `scope`, such as `Bearer realm="...",service="...",scope="repository:x:pull",error="insufficient_scope"`, is also not matched by the model (the model returns no challenge and `get_jwt` panics), whereas the greedy `scope` group of the expression absorbs the trailing parameter and the source builds a token URL from it.
- **Credential files.** Whether the file exists, whether it loads as TOML, and whether it has `user` and `secret` (src/manifest.rs:235-262) are not modelled; `credentialFile` in the environment answers with the credential or `None`.
- **Configuration.** The settings store, its lock and its environment overrides are not modelled; `Mutation.Settings` gives the two values the handler reads, or `None` for each one that is absent or unreadable. The `unwrap` of the settings lock (src/mutation.rs:72-75 and src/mutation.rs:84-87) panics only when another thread panicked while holding the lock, and is not modelled.
- Mutation.MutateHandler: `encode` is a parameter that stands for printing the JSON patch and base64-encoding it (src/mutation.rs:154); serde's parsing and printing are not modelled.
- Mutation.MutateHandler: resolution is a function of the image string for the whole request. This matches the cache: a returned answer is stored, and a panic ends the request before any second call.
- **Concurrency.** Concurrent requests racing on the memo table are not modelled; the table is exercised one call at a time.
- **JSON numbers** are integers; non-integral numbers are not modelled.
- **JSON Patch.** JsonPatch.AddAt covers `add` on object members and `-` on arrays only. Numeric array indices and the other operations of RFC 6902 are not used by the handler.
- **Not modelled at all:** the log output (only whether `info` is enabled is modelled), the metrics of `src/metrics.rs`, and the server start-up and TLS set-up of `src/main.rs`.

## Findings

In every row below, the handler model (`Mutation.MutateHandler`, `Mutation.QueueTolerations`) keeps the behaviour as written. The corrected definitions sit beside it and are proved on their own.

| source | as written | input that shows it | evidently intended | confidence | as-written member | corrected member |
|---|---|---|---|---|---|---|
| src/mutation.rs:121-132 | an append is pushed after each container while `match_found` holds, before later containers are checked | target `arm64`; containers `multi` (amd64, arm64) then `amd64-only` (amd64): one arm64 append is sent | a toleration only when all containers match (comment at line 125) | not executed; high | Mutation.PrematureToleration | Mutation.IntendedTolerationsExact |
| src/mutation.rs:71 | `match_found` is set once for all architectures and never reset | targets `arm64`, `amd64`; one `amd64-only` container: nothing is sent | architectures matched independently, giving an amd64 toleration | not executed; high | Mutation.StickyAcrossArchitectures | Mutation.IntendedTolerationsExact |
| src/mutation.rs:141-148 | the prerequisite is `add` at `/spec` with value `{"tolerations": []}`, which replaces the whole spec | any patched pod without `tolerations`: the patched spec has no `containers` | create an empty array at `/spec/tolerations` | not executed; high | Mutation.PatchDropsContainers | Mutation.IntendedPrerequisiteKeepsSpec |
