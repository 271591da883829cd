/** The admission webhook: `generate_error_response` and `mutate_handler`.
    The handler is modelled as the code is written; the definitions the
    code's own comments describe are stated beside it, at the end. */
module Mutation {
  import opened Wrappers
  import opened JsonValue
  import opened Models
  import opened JsonPatch

  /** The two settings the handler reads: `supported_architectures` and the
      `tolerations` template; `None` when absent or of the wrong type.
      `infoLogging` says whether the `info` level is enabled (through the
      optional `log_level` setting, which becomes `RUST_LOG`): the
      arguments of an `info!` line are evaluated only then. */
  datatype Settings = Settings(
    supportedArchitectures: Option<seq<string>>,
    tolerations: Option<map<string, string>>,
    infoLogging: bool)

  /** `validate_manifest` as the handler sees it while it answers one
      request: a stored answer, a fresh one, or a panic. */
  type Resolution = string -> Run<Option<seq<string>>>

  /** One iteration of the nested loops: a target architecture and one
      entry of `spec.containers`. */
  type Pair = (string, Json)

  const NoSpecMessage: string := "Pod has no spec?"
  const NoContainersMessage: string := "PodSpec has no containers?"
  const ErrorCode: StatusCode := 400

  const TolerationsAppendPath: seq<string> := ["spec", "tolerations", "-"]

  // ------------------------------------------------------------ responses

  /** `generate_error_response`: a review whose response denies the request
      and carries one status entry with code 400 and the message as its
      status, message and reason. */
  function GenerateErrorResponse(uid: string, msg: string): (review: AdmissionReview)
    ensures review.request.None? && review.response.Some?
    ensures var r := review.response.value;
      && r.uid == uid && !r.allowed && r.patch.None? && r.patchType.None?
      && r.status.Some? && |r.status.value| == 1
    ensures var s := review.response.value.status.value[0];
      && s.code == Some(ErrorCode) && s.details.None?
      && s.status == Some(msg) && s.message == Some(msg) && s.reason == Some(msg)
  {
    var message := StatusResult(Some(msg), Some(msg), Some(msg), None, Some(ErrorCode));
    var response := DefaultResponse().(uid := uid, allowed := false, status := Some([message]));
    DefaultReview().(response := Some(response))
  }

  /** An error response is written with `uid`, `allowed` and `status`
      only: `patch` and `patchType` are left out. */
  lemma ErrorResponseWireForm(uid: string, msg: string)
    ensures ResponseKeys(GenerateErrorResponse(uid, msg).response.value) == ["uid", "allowed", "status"]
  {
    var r := GenerateErrorResponse(uid, msg).response.value;
    SelectLeading(ResponseWireNames, [true, true, r.status.Some?, r.patch.Some?, r.patchType.Some?,
                                      r.auditAnnotations.Some?, r.warnings.Some?], 3);
  }


  /** Its one status entry is written with `status`, `message`, `reason`
      and `code`: `details` is left out. */
  lemma ErrorStatusWireForm(uid: string, msg: string)
    ensures StatusKeys(GenerateErrorResponse(uid, msg).response.value.status.value[0])
         == ["status", "message", "reason", "code"]
  {
    var s := GenerateErrorResponse(uid, msg).response.value.status.value[0];
    var present := [true, true, true, false, true];
    assert present == [s.status.Some?, s.message.Some?, s.reason.Some?, s.details.Some?, s.code.Some?];
    var fields := StatusWireNames;
    assert Select(fields[3..], present[3..]) == [fields[4]];
    assert Select(fields[2..], present[2..]) == [fields[2], fields[4]];
    assert Select(fields[1..], present[1..]) == [fields[1], fields[2], fields[4]];
    assert Select(fields, present) == [fields[0]] + Select(fields[1..], present[1..]);
  }


  /** The review the handler sends when it lets the request through. */
  function AllowedReview(uid: string, patch: Option<string>): (review: AdmissionReview)
    ensures review.request.None? && review.response.Some?
    ensures var r := review.response.value;
      r.uid == uid && r.allowed && r.patch == patch && r.status.None? && r.patchType.None?
  {
    DefaultReview().(response := Some(DefaultResponse().(uid := uid, allowed := true, patch := patch)))
  }

  // ---------------------------------------------------------- tolerations

  /** The toleration for one architecture: the configured template with its
      `value` entry set to the architecture, added if missing. */
  function Toleration(template: map<string, string>, arch: string): (t: Json)
    ensures t.JObject? && "value" in t.fields && t.fields["value"] == JString(arch)
    ensures forall k :: k in t.fields <==> k in template || k == "value"
    ensures forall k :: k in template && k != "value" ==> t.fields[k] == JString(template[k])
  {
    JObject((map k | k in template :: JString(template[k]))["value" := JString(arch)])
  }

  /** `{"op": "add", "path": "/spec/tolerations/-", "value": <toleration>}`. */
  function TolerationPatch(template: map<string, string>, arch: string): PatchOp {
    PatchOp("add", TolerationsAppendPath, Toleration(template, arch))
  }

  /** The operation the handler puts first when the pod has no
      tolerations: `{"op": "add", "path": "/spec", "value": {"tolerations": []}}`. */
  function PrerequisitePatch(): PatchOp {
    PatchOp("add", ["spec"], JObject(map["tolerations" := JArray([])]))
  }

  /** The appends are written with the path the handler spells out. */
  lemma TolerationPath(template: map<string, string>, arch: string)
    ensures Pointer(TolerationPatch(template, arch).path) == "/spec/tolerations/-"
  {
  }


  /** The prerequisite is written with path `/spec`, and is never taken for
      an append. */
  lemma PrerequisitePath(template: map<string, string>, arch: string)
    ensures Pointer(PrerequisitePatch().path) == "/spec"
    ensures TolerationPatch(template, arch) != PrerequisitePatch()
  {
    assert Pointer(["spec"]) == "/spec" + Pointer([]);
    assert |TolerationPatch(template, arch).path| != |PrerequisitePatch().path|;
  }


  /** Different architectures give different toleration patches. */
  lemma TolerationPatchInjective(template: map<string, string>, a: string, b: string)
    requires TolerationPatch(template, a) == TolerationPatch(template, b)
    ensures a == b
  {
    assert Toleration(template, a).fields["value"] == JString(a);
  }

  function Tolerations(template: map<string, string>, ps: seq<Pair>): (ts: seq<PatchOp>)
    ensures |ts| == |ps| && forall i :: 0 <= i < |ps| ==> ts[i] == TolerationPatch(template, ps[i].0)
  {
    seq(|ps|, i requires 0 <= i < |ps| => TolerationPatch(template, ps[i].0))
  }

  // ----------------------------------------------------- the nested loops

  /** The image of one container: the entry must be an object whose
      `image` member is a string, or the handler panics. */
  function ContainerImage(container: Json): (r: Run<string>)
    ensures r.Returned? <==> container.JObject? && "image" in container.fields && container.fields["image"].JString?
    ensures r.Returned? ==> container.fields["image"] == JString(r.value)
  {
    if !container.JObject? then Panicked("container is not a map")
    else if "image" !in container.fields then Panicked("container has no image")
    else if !container.fields["image"].JString? then Panicked("image is not a string")
    else Returned(container.fields["image"].str)
  }

  /** Whether the container's image was found to support the architecture. */
  function Covers(pair: Pair, resolve: Resolution): Run<bool> {
    match ContainerImage(pair.1)
    case Panicked(why) => Panicked(why)
    case Returned(image) =>
      match resolve(image)
      case Panicked(why) => Panicked(why)
      case Returned(arches) => Returned(arches.Some? && pair.0 in arches.value)
  }

  /** The loop state: the `match_found` flag and the patches queued. */
  datatype Scan = Scan(matchFound: bool, patches: seq<PatchOp>)

  /** One pass of the inner loop body. The flag is cleared by an image that
      cannot be resolved or lacks the architecture, and is never set again;
      while it holds, every pair queues a toleration. */
  function Step(s: Scan, pair: Pair, template: map<string, string>, resolve: Resolution): Run<Scan> {
    match Covers(pair, resolve)
    case Panicked(why) => Panicked(why)
    case Returned(hit) =>
      var found := s.matchFound && hit;
      Returned(Scan(found, if found then s.patches + [TolerationPatch(template, pair.0)] else s.patches))
  }

  /** The pairs one architecture visits, in container order. */
  function Row(arch: string, containers: seq<Json>): (ps: seq<Pair>)
    ensures |ps| == |containers| && forall i :: 0 <= i < |ps| ==> ps[i] == (arch, containers[i])
  {
    seq(|containers|, i requires 0 <= i < |containers| => (arch, containers[i]))
  }

  /** All pairs in the order the loops visit them: architecture by
      architecture, each over every container. */
  function Pairs(archs: seq<string>, containers: seq<Json>): (ps: seq<Pair>)
    ensures forall i :: 0 <= i < |ps| ==> ps[i].0 in archs && ps[i].1 in containers
  {
    if archs == [] then [] else Row(archs[0], containers) + Pairs(archs[1..], containers)
  }

  /** The loops run from state `st` over `ps`; a panic ends them. */
  function ScanFrom(st: Run<Scan>, ps: seq<Pair>, template: map<string, string>, resolve: Resolution): Run<Scan>
    decreases |ps|
  {
    if st.Panicked? || ps == [] then st
    else ScanFrom(Step(st.value, ps[0], template, resolve), ps[1..], template, resolve)
  }

  function ScanPairs(ps: seq<Pair>, template: map<string, string>, resolve: Resolution): Run<Scan> {
    ScanFrom(Returned(Scan(true, [])), ps, template, resolve)
  }

  predicate NoPanic(ps: seq<Pair>, resolve: Resolution) {
    forall i :: 0 <= i < |ps| ==> Covers(ps[i], resolve).Returned?
  }

  /** The number of leading pairs whose image supports the architecture. */
  function LeadingHits(ps: seq<Pair>, resolve: Resolution): (k: nat)
    ensures k <= |ps|
    ensures forall i :: 0 <= i < k ==> Covers(ps[i], resolve) == Returned(true)
    ensures k < |ps| ==> Covers(ps[k], resolve) != Returned(true)
  {
    if ps == [] || Covers(ps[0], resolve) != Returned(true) then 0
    else 1 + LeadingHits(ps[1..], resolve)
  }

  lemma RowCons(arch: string, containers: seq<Json>, c: nat)
    requires c < |containers|
    ensures Row(arch, containers[c..]) == [(arch, containers[c])] + Row(arch, containers[c + 1..])
  {
  }

  lemma ScanFromCons(s: Scan, pair: Pair, rest: seq<Pair>, later: seq<Pair>, template: map<string, string>, resolve: Resolution)
    ensures ScanFrom(Returned(s), ([pair] + rest) + later, template, resolve)
         == ScanFrom(Step(s, pair, template, resolve), rest + later, template, resolve)
  {
    assert (([pair] + rest) + later)[1..] == rest + later;
  }

  /** Without panics, the loops queue one toleration for each pair before
      the first pair that misses, and none after it; the flag ends set
      exactly when no pair missed. */
  lemma {:induction false} ScanFromNoPanic(found: bool, pre: seq<PatchOp>, ps: seq<Pair>, template: map<string, string>, resolve: Resolution)
    requires NoPanic(ps, resolve)
    ensures var k := LeadingHits(ps, resolve);
      ScanFrom(Returned(Scan(found, pre)), ps, template, resolve)
        == Returned(Scan(found && k == |ps|, if found then pre + Tolerations(template, ps[..k]) else pre))
    decreases |ps|
  {
    if ps == [] {
      assert pre + Tolerations(template, ps[..0]) == pre;
    } else {
      var rest := ps[1..];
      NoPanicTail(ps, resolve);
      var hit := Covers(ps[0], resolve).value;
      var next := Step(Scan(found, pre), ps[0], template, resolve);
      assert ScanFrom(Returned(Scan(found, pre)), ps, template, resolve) == ScanFrom(next, rest, template, resolve);
      if hit && found {
        var t := TolerationPatch(template, ps[0].0);
        assert next == Returned(Scan(true, pre + [t]));
        ScanFromNoPanic(true, pre + [t], rest, template, resolve);
        var k := LeadingHits(rest, resolve);
        assert LeadingHits(ps, resolve) == k + 1;
        TolerationsCons(template, ps, k);
        Associate(pre, t, Tolerations(template, rest[..k]));
        assert (pre + [t]) + Tolerations(template, rest[..k]) == pre + Tolerations(template, ps[..k + 1]);
      } else {
        assert next == Returned(Scan(false, pre));
        ScanFromNoPanic(false, pre, rest, template, resolve);
        assert ScanFrom(next, rest, template, resolve) == Returned(Scan(false, pre));
        if !hit {
          assert LeadingHits(ps, resolve) == 0;
          assert pre + Tolerations(template, ps[..0]) == pre;
        }
      }
    }
  }

  lemma NoPanicTail(ps: seq<Pair>, resolve: Resolution)
    requires ps != [] && NoPanic(ps, resolve)
    ensures Covers(ps[0], resolve).Returned? && NoPanic(ps[1..], resolve)
  {
    forall i | 0 <= i < |ps| - 1 ensures Covers(ps[1..][i], resolve).Returned? {
      assert ps[1..][i] == ps[i + 1];
    }
  }

  lemma TolerationsCons(template: map<string, string>, ps: seq<Pair>, k: nat)
    requires k < |ps|
    ensures Tolerations(template, ps[..k + 1]) == [TolerationPatch(template, ps[0].0)] + Tolerations(template, ps[1..][..k])
  {
    var lhs := Tolerations(template, ps[..k + 1]);
    var rhs := [TolerationPatch(template, ps[0].0)] + Tolerations(template, ps[1..][..k]);
    assert |lhs| == |rhs|;
    forall i | 0 <= i < |lhs| ensures lhs[i] == rhs[i] {
      if i > 0 {
        assert ps[1..][..k][i - 1] == ps[..k + 1][i];
      }
    }
  }

  lemma Associate<T>(a: seq<T>, x: T, b: seq<T>)
    ensures (a + [x]) + b == a + ([x] + b)
  {
  }

  /** The loops panic exactly when some pair's container or resolution
      panics. */
  lemma {:induction false} ScanFromPanics(s: Scan, ps: seq<Pair>, template: map<string, string>, resolve: Resolution)
    ensures ScanFrom(Returned(s), ps, template, resolve).Panicked? <==> !NoPanic(ps, resolve)
    decreases |ps|
  {
    if ps != [] {
      var rest := ps[1..];
      match Step(s, ps[0], template, resolve)
      case Panicked(_) =>
      case Returned(s') =>
        ScanFromPanics(s', rest, template, resolve);
        if !NoPanic(rest, resolve) {
          var i :| 0 <= i < |rest| && !Covers(rest[i], resolve).Returned?;
          assert rest[i] == ps[i + 1];
        }
        if !NoPanic(ps, resolve) {
          var i :| 0 <= i < |ps| && !Covers(ps[i], resolve).Returned?;
          assert i > 0 && ps[i] == rest[i - 1];
        }
    }
  }

  /** What the loops leave behind, from the initial state: the tolerations
      of the pairs before the first miss, and the flag. */
  lemma QueuedTolerations(ps: seq<Pair>, template: map<string, string>, resolve: Resolution)
    requires NoPanic(ps, resolve)
    ensures var k := LeadingHits(ps, resolve);
      ScanPairs(ps, template, resolve) == Returned(Scan(k == |ps|, Tolerations(template, ps[..k])))
  {
    ScanFromNoPanic(true, [], ps, template, resolve);
    assert [] + Tolerations(template, ps[..LeadingHits(ps, resolve)]) == Tolerations(template, ps[..LeadingHits(ps, resolve)]);
  }

  /** When every image supports every architecture, one toleration is
      queued per pair: each architecture once for every container. */
  lemma EveryImageCovers(archs: seq<string>, containers: seq<Json>, template: map<string, string>, resolve: Resolution)
    requires forall i :: 0 <= i < |Pairs(archs, containers)| ==> Covers(Pairs(archs, containers)[i], resolve) == Returned(true)
    ensures var ps := Pairs(archs, containers);
      ScanPairs(ps, template, resolve) == Returned(Scan(true, Tolerations(template, ps)))
  {
    var ps := Pairs(archs, containers);
    QueuedTolerations(ps, template, resolve);
    assert ps[..LeadingHits(ps, resolve)] == ps;
  }

  /** A pair that misses ends the queueing for good: no later pair, of any
      architecture, queues anything. */
  lemma MissStopsQueueing(ps: seq<Pair>, i: nat, template: map<string, string>, resolve: Resolution)
    requires NoPanic(ps, resolve) && i < |ps| && Covers(ps[i], resolve) == Returned(false)
    ensures ScanPairs(ps, template, resolve).Returned?
    ensures var s := ScanPairs(ps, template, resolve).value;
      !s.matchFound && |s.patches| <= i
  {
    QueuedTolerations(ps, template, resolve);
  }

  // ------------------------------------------------------------- decision

  /** What the handler decides: let the request through with these
      patches, or answer with an error review. */
  datatype Decision = Pass(patches: seq<PatchOp>) | Reject(message: string)

  /** The prerequisite operation goes first when there is something to
      append and the pod spec has no `tolerations` member. */
  function WithPrerequisite(spec: Json, queued: seq<PatchOp>): (ps: seq<PatchOp>)
    ensures queued == [] ==> ps == []
    ensures Get(spec, "tolerations").Some? ==> ps == queued
    ensures Get(spec, "tolerations").None? && queued != [] ==>
      |ps| == |queued| + 1 && ps[0] == PrerequisitePatch() && ps[1..] == queued
  {
    if Get(spec, "tolerations").None? && queued != [] then [PrerequisitePatch()] + queued else queued
  }

  /** Whether a pod object gets past the logging line at the head of the pod
      branch: it has `metadata`, and, when that line's arguments are
      evaluated, the metadata has a `name` or a `generateName`. */
  predicate Considered(obj: map<string, Json>, settings: Settings) {
    && "metadata" in obj
    && (!settings.infoLogging || Get(obj["metadata"], "name").Some? || Get(obj["metadata"], "generateName").Some?)
  }

  /** The handler's decision for a pod object. */
  function PodDecision(obj: map<string, Json>, settings: Settings, resolve: Resolution): (r: Run<Decision>)
    ensures r.Returned? ==> "metadata" in obj
    ensures r.Returned? && r.value.Pass? && r.value.patches != [] ==>
      "spec" in obj && settings.supportedArchitectures.Some? && settings.tolerations.Some?
    ensures r.Returned? && r.value.Reject? ==>
      "spec" in obj ==> r.value.message == NoContainersMessage && Get(obj["spec"], "containers").None?
    ensures !Considered(obj, settings) ==> r.Panicked?
    ensures Considered(obj, settings) ==>
      && ("spec" !in obj ==> r == Returned(Reject(NoSpecMessage)))
      && ("spec" in obj && Get(obj["spec"], "containers").None? ==> r == Returned(Reject(NoContainersMessage)))
      && ("spec" in obj && Get(obj["spec"], "containers").Some? && !Get(obj["spec"], "containers").value.JArray? ==>
            r.Panicked?)
    ensures (&& Considered(obj, settings)
             && "spec" in obj && Get(obj["spec"], "containers").Some? && Get(obj["spec"], "containers").value.JArray?
             && (settings.supportedArchitectures.None? || settings.tolerations.None?))
            ==> r == Returned(Pass([]))
  {
    if "metadata" !in obj then Panicked("metadata is missing")
    else if settings.infoLogging && Get(obj["metadata"], "name").None? && Get(obj["metadata"], "generateName").None? then
      Panicked("generateName is missing")
    else if "spec" !in obj then Returned(Reject(NoSpecMessage))
    else
      var spec := obj["spec"];
      match Get(spec, "containers")
      case None => Returned(Reject(NoContainersMessage))
      case Some(c) =>
        if !c.JArray? then Panicked("containers is not an array")
        else if settings.supportedArchitectures.None? || settings.tolerations.None? then Returned(Pass([]))
        else
          match ScanPairs(Pairs(settings.supportedArchitectures.value, c.items), settings.tolerations.value, resolve)
          case Panicked(why) => Panicked(why)
          case Returned(s) => Returned(Pass(WithPrerequisite(spec, s.patches)))
  }

  /** The converse of `PassedPod`: a pod past the logging line with an array of containers,
      both settings and no panicking pair is passed with the appends the
      loops queue, behind the prerequisite when it is needed. */
  lemma PatchedWhenQueued(obj: map<string, Json>, settings: Settings, resolve: Resolution)
    requires Considered(obj, settings)
    requires "spec" in obj && Get(obj["spec"], "containers").Some? && Get(obj["spec"], "containers").value.JArray?
    requires settings.supportedArchitectures.Some? && settings.tolerations.Some?
    requires NoPanic(Pairs(settings.supportedArchitectures.value, Get(obj["spec"], "containers").value.items), resolve)
    ensures var pairs := Pairs(settings.supportedArchitectures.value, Get(obj["spec"], "containers").value.items);
      PodDecision(obj, settings, resolve)
        == Returned(Pass(WithPrerequisite(obj["spec"], Tolerations(settings.tolerations.value, pairs[..LeadingHits(pairs, resolve)]))))
  {
    var pairs := Pairs(settings.supportedArchitectures.value, Get(obj["spec"], "containers").value.items);
    QueuedTolerations(pairs, settings.tolerations.value, resolve);
  }

  /** A pod with an array of containers and both settings panics exactly
      when one of its pairs does: an image that cannot be read or whose
      resolution panics aborts the request. */
  lemma PanickingPairPanics(obj: map<string, Json>, settings: Settings, resolve: Resolution)
    requires Considered(obj, settings)
    requires "spec" in obj && Get(obj["spec"], "containers").Some? && Get(obj["spec"], "containers").value.JArray?
    requires settings.supportedArchitectures.Some? && settings.tolerations.Some?
    ensures PodDecision(obj, settings, resolve).Panicked?
        <==> !NoPanic(Pairs(settings.supportedArchitectures.value, Get(obj["spec"], "containers").value.items), resolve)
  {
    var pairs := Pairs(settings.supportedArchitectures.value, Get(obj["spec"], "containers").value.items);
    ScanFromPanics(Scan(true, []), pairs, settings.tolerations.value, resolve);
  }

  /** The handler's decision for an incoming review. Only pods are looked
      at; the request and its object must be present for every kind. */
  function Decide(review: AdmissionReview, settings: Settings, resolve: Resolution): (r: Run<Decision>)
    ensures r.Returned? ==> review.request.Some? && review.request.value.obj.Some?
    ensures review.request.Some? && review.request.value.obj.Some? && review.request.value.kind.kind != "Pod" ==>
      r == Returned(Pass([]))
    ensures r.Returned? && r.value.Reject? ==> review.request.value.kind.kind == "Pod"
  {
    if review.request.None? then Panicked("request is missing")
    else if review.request.value.obj.None? then Panicked("object is missing")
    else if review.request.value.kind.kind != "Pod" then Returned(Pass([]))
    else PodDecision(review.request.value.obj.value, settings, resolve)
  }

  /** A patch the handler sends is a prerequisite followed by appends at
      `/spec/tolerations/-`, the prerequisite present exactly when the pod
      spec has no `tolerations`; every append carries a configured
      architecture. */
  lemma PatchShape(review: AdmissionReview, settings: Settings, resolve: Resolution, ps: seq<PatchOp>)
    requires Decide(review, settings, resolve) == Returned(Pass(ps)) && ps != []
    ensures review.request.value.kind.kind == "Pod" && "spec" in review.request.value.obj.value
    ensures settings.supportedArchitectures.Some? && settings.tolerations.Some?
    ensures var spec := review.request.value.obj.value["spec"];
      ps[0] == PrerequisitePatch() <==> Get(spec, "tolerations").None?
    ensures forall i :: 0 <= i < |ps| && (0 < i || ps[0] != PrerequisitePatch()) ==>
      exists arch :: arch in settings.supportedArchitectures.value && ps[i] == TolerationPatch(settings.tolerations.value, arch)
  {
    PassedPod(review, settings, resolve, ps);
    var spec := review.request.value.obj.value["spec"];
    var archs := settings.supportedArchitectures.value;
    var template := settings.tolerations.value;
    var pairs := Pairs(archs, Get(spec, "containers").value.items);
    var queued := Tolerations(template, pairs[..LeadingHits(pairs, resolve)]);
    forall i | 0 <= i < |queued|
      ensures pairs[i].0 in archs && queued[i] == TolerationPatch(template, pairs[i].0) && queued[i] != PrerequisitePatch()
    {
      PrerequisitePath(template, pairs[i].0);
    }
    forall i | 0 <= i < |ps| && (0 < i || ps[0] != PrerequisitePatch())
      ensures exists arch :: arch in archs && ps[i] == TolerationPatch(template, arch)
    {
      var j := if ps == queued then i else i - 1;
      assert ps[i] == queued[j];
    }
  }

  /** A review the handler passes with patches is a pod with a spec, an
      array of containers and both settings, and the patches are those the
      loops queue, behind the prerequisite when it is needed. */
  lemma PassedPod(review: AdmissionReview, settings: Settings, resolve: Resolution, ps: seq<PatchOp>)
    requires Decide(review, settings, resolve) == Returned(Pass(ps)) && ps != []
    ensures review.request.value.kind.kind == "Pod" && "spec" in review.request.value.obj.value
    ensures settings.supportedArchitectures.Some? && settings.tolerations.Some?
    ensures var spec := review.request.value.obj.value["spec"];
      && Get(spec, "containers").Some? && Get(spec, "containers").value.JArray?
      && var pairs := Pairs(settings.supportedArchitectures.value, Get(spec, "containers").value.items);
         && NoPanic(pairs, resolve)
         && ps == WithPrerequisite(spec, Tolerations(settings.tolerations.value, pairs[..LeadingHits(pairs, resolve)]))
  {
    var obj := review.request.value.obj.value;
    assert Decide(review, settings, resolve) == PodDecision(obj, settings, resolve);
    var spec := obj["spec"];
    var pairs := Pairs(settings.supportedArchitectures.value, Get(spec, "containers").value.items);
    ScanFromPanics(Scan(true, []), pairs, settings.tolerations.value, resolve);
    QueuedTolerations(pairs, settings.tolerations.value, resolve);
  }

  /** The body of the inner loop for one architecture and one container:
      read the image, resolve it, clear the flag on a miss, and queue the
      toleration while the flag holds. */
  method VisitPair(architecture: string, container: Json, matchFound: bool, patches: seq<PatchOp>,
                   tolerationConfig: map<string, string>, resolve: Resolution)
    returns (r: Run<Scan>)
    ensures r == Step(Scan(matchFound, patches), (architecture, container), tolerationConfig, resolve)
  {
    var image := ContainerImage(container);
    if image.Panicked? {
      return Panicked(image.reason);
    }
    var resolved := resolve(image.value);
    if resolved.Panicked? {
      return Panicked(resolved.reason);
    }
    var arches: seq<string>;
    var found := matchFound;
    if resolved.value.None? {
      found := false;
      arches := [];
    } else {
      arches := resolved.value.value;
    }
    if architecture !in arches {
      found := false;
    }
    var queued := patches;
    if found {
      queued := queued + [TolerationPatch(tolerationConfig, architecture)];
    }
    return Returned(Scan(found, queued));
  }

  /** The nested loops of `mutate_handler`, over the configured
      architectures and, for each, over the containers. */
  method QueueTolerations(supportedArchitectures: seq<string>, containers: seq<Json>,
                          tolerationConfig: map<string, string>, resolve: Resolution)
    returns (r: Run<Scan>)
    ensures r == ScanPairs(Pairs(supportedArchitectures, containers), tolerationConfig, resolve)
  {
    var matchFound := true;
    var patches: seq<PatchOp> := [];
    ghost var expected := ScanPairs(Pairs(supportedArchitectures, containers), tolerationConfig, resolve);
    var a := 0;
    while a < |supportedArchitectures|
      invariant 0 <= a <= |supportedArchitectures|
      invariant ScanFrom(Returned(Scan(matchFound, patches)), Pairs(supportedArchitectures[a..], containers),
                         tolerationConfig, resolve) == expected
    {
      var architecture := supportedArchitectures[a];
      assert supportedArchitectures[a..][1..] == supportedArchitectures[a + 1..];
      ghost var later := Pairs(supportedArchitectures[a + 1..], containers);
      assert Pairs(supportedArchitectures[a..], containers) == Row(architecture, containers[0..]) + later;
      var c := 0;
      while c < |containers|
        invariant 0 <= c <= |containers|
        invariant ScanFrom(Returned(Scan(matchFound, patches)), Row(architecture, containers[c..]) + later,
                           tolerationConfig, resolve) == expected
      {
        ghost var before := Scan(matchFound, patches);
        ghost var pair := (architecture, containers[c]);
        RowCons(architecture, containers, c);
        ScanFromCons(before, pair, Row(architecture, containers[c + 1..]), later, tolerationConfig, resolve);
        var next := VisitPair(architecture, containers[c], matchFound, patches, tolerationConfig, resolve);
        if next.Panicked? {
          return next;
        }
        matchFound, patches := next.value.matchFound, next.value.patches;
        c := c + 1;
      }
      assert Row(architecture, containers[c..]) + later == later;
      a := a + 1;
    }
    assert Pairs(supportedArchitectures[a..], containers) == [];
    return Returned(Scan(matchFound, patches));
  }

  // -------------------------------------------------------------- handler

  /** `mutate_handler`. `encode` stands for writing the patch as JSON text
      and encoding it in standard base64; `patches` is the list it was
      given. */
  method MutateHandler(incoming: AdmissionReview, settings: Settings, resolve: Resolution, encode: Json -> string)
    returns (out: Run<AdmissionReview>, patches: seq<PatchOp>)
    ensures match Decide(incoming, settings, resolve)
      case Panicked(why) => out == Panicked(why) && patches == []
      case Returned(Reject(msg)) =>
        out == Returned(GenerateErrorResponse(incoming.request.value.uid, msg)) && patches == []
      case Returned(Pass(ps)) =>
        && patches == ps
        && out == Returned(AllowedReview(incoming.request.value.uid,
                                         if ps == [] then None else Some(encode(PatchDocument(ps)))))
    ensures incoming.request.Some? && incoming.request.value.obj.Some? && incoming.request.value.kind.kind != "Pod" ==>
      out == Returned(AllowedReview(incoming.request.value.uid, None)) && patches == []
    ensures out.Returned? ==> out.value.response.Some? && out.value.response.value.patchType.None?
    ensures out.Returned? && out.value.response.value.allowed ==>
      (out.value.response.value.patch.Some? <==> patches != [])
  {
    patches := [];
    if incoming.request.None? {
      return Panicked("request is missing"), [];
    }
    var req := incoming.request.value;
    if req.obj.None? {
      return Panicked("object is missing"), [];
    }
    var podObject := req.obj.value;
    var kind := req.kind;
    var response := DefaultResponse().(uid := req.uid, allowed := true);
    if kind.kind == "Pod" {
      if "metadata" !in podObject {
        return Panicked("metadata is missing"), [];
      }
      var metadata := podObject["metadata"];
      if settings.infoLogging && Get(metadata, "name").None? && Get(metadata, "generateName").None? {
        return Panicked("generateName is missing"), [];
      }
      if "spec" !in podObject {
        return Returned(GenerateErrorResponse(req.uid, NoSpecMessage)), [];
      }
      var spec := podObject["spec"];
      var member := Get(spec, "containers");
      if member.None? {
        return Returned(GenerateErrorResponse(req.uid, NoContainersMessage)), [];
      }
      if !member.value.JArray? {
        return Panicked("containers is not an array"), [];
      }
      var containers := member.value.items;
      if settings.supportedArchitectures.None? {
        return Returned(DefaultReview().(response := Some(response))), [];
      }
      var supportedArchitectures := settings.supportedArchitectures.value;
      if settings.tolerations.None? {
        return Returned(DefaultReview().(response := Some(response))), [];
      }
      var tolerationConfig := settings.tolerations.value;
      var queued := QueueTolerations(supportedArchitectures, containers, tolerationConfig, resolve);
      if queued.Panicked? {
        return Panicked(queued.reason), [];
      }
      patches := queued.value.patches;
      var tolerations := Get(spec, "tolerations");
      if tolerations.None? {
        if |patches| > 0 {
          patches := [PrerequisitePatch()] + patches;
        }
      }
    }
    if |patches| > 0 {
      response := response.(patch := Some(encode(PatchDocument(patches))));
    }
    var review := DefaultReview().(response := Some(response));
    out := Returned(review);
  }

  // ------------------------------------------------------------- examples

  /** A container entry running `image`. */
  function ContainerWith(image: string): Json {
    JObject(map["image" := JString(image)])
  }

  /** A pod named `web` with one `nginx:latest` container and no
      tolerations. */
  function NginxPod(): map<string, Json> {
    map["metadata" := JObject(map["name" := JString("web")]),
        "spec" := JObject(map["containers" := JArray([ContainerWith("nginx:latest")])])]
  }

  /** With `nginx:latest` published for amd64 and arm64 and arm64 as the only
      target, the pod gets the prerequisite and exactly one toleration,
      whose `value` is `arm64`. */
  lemma NginxOnArm(review: AdmissionReview, template: map<string, string>, infoLogging: bool, resolve: Resolution)
    requires review.request.Some? && review.request.value.kind.kind == "Pod"
    requires review.request.value.obj == Some(NginxPod())
    requires resolve("nginx:latest") == Returned(Some(["amd64", "arm64"]))
    ensures Decide(review, Settings(Some(["arm64"]), Some(template), infoLogging), resolve)
         == Returned(Pass([PrerequisitePatch(), TolerationPatch(template, "arm64")]))
  {
    var c := ContainerWith("nginx:latest");
    assert ["arm64"][1..] == [];
    assert Row("arm64", [c]) == [("arm64", c)];
    var pairs := Pairs(["arm64"], [c]);
    assert pairs == [("arm64", c)];
    assert ContainerImage(c) == Returned("nginx:latest");
    assert Covers(("arm64", c), resolve) == Returned(true);
    var done := Scan(true, [TolerationPatch(template, "arm64")]);
    assert [] + [TolerationPatch(template, "arm64")] == done.patches;
    assert Step(Scan(true, []), pairs[0], template, resolve) == Returned(done);
    assert ScanPairs(pairs, template, resolve) == ScanFrom(Returned(done), [], template, resolve);
    var pod := NginxPod();
    assert Get(pod["metadata"], "name").Some?;
    var spec := pod["spec"];
    assert Get(spec, "containers") == Some(JArray([c])) && Get(spec, "tolerations").None?;
    assert WithPrerequisite(spec, done.patches) == [PrerequisitePatch(), TolerationPatch(template, "arm64")];
  }

  // ------------------------------------------------------------- findings

  /** Whether every container's image supports `arch`. */
  predicate AllCover(arch: string, containers: seq<Json>, resolve: Resolution) {
    forall i :: 0 <= i < |containers| ==> Covers((arch, containers[i]), resolve) == Returned(true)
  }

  /** The tolerations the handler's comment describes ("all of the
      containers of this pod match"): one per configured architecture that
      every container's image supports, in configuration order, each
      architecture judged on its own. */
  function IntendedTolerations(template: map<string, string>, archs: seq<string>, containers: seq<Json>, resolve: Resolution): (ts: seq<PatchOp>)
    ensures |ts| <= |archs|
  {
    if archs == [] then []
    else
      (if AllCover(archs[0], containers, resolve) then [TolerationPatch(template, archs[0])] else [])
      + IntendedTolerations(template, archs[1..], containers, resolve)
  }

  /** A toleration for `arch` is queued exactly when `arch` is configured and
      every container's image supports it. */
  lemma {:induction false} IntendedTolerationsExact(template: map<string, string>, archs: seq<string>, containers: seq<Json>,
                                                    resolve: Resolution, arch: string)
    ensures TolerationPatch(template, arch) in IntendedTolerations(template, archs, containers, resolve)
        <==> arch in archs && AllCover(arch, containers, resolve)
    decreases |archs|
  {
    if archs != [] {
      IntendedTolerationsExact(template, archs[1..], containers, resolve, arch);
      if TolerationPatch(template, arch) == TolerationPatch(template, archs[0]) {
        TolerationPatchInjective(template, arch, archs[0]);
      }
      assert arch in archs <==> arch == archs[0] || arch in archs[1..];
    }
  }

  /** As written, the first container's match queues a toleration before the
      second container is looked at: with arm64 as the target, a pod whose
      second image is amd64-only still receives an arm64 toleration. */
  lemma PrematureToleration(template: map<string, string>, resolve: Resolution)
    requires resolve("multi") == Returned(Some(["amd64", "arm64"]))
    requires resolve("amd64-only") == Returned(Some(["amd64"]))
    ensures var containers := [ContainerWith("multi"), ContainerWith("amd64-only")];
      && ScanPairs(Pairs(["arm64"], containers), template, resolve)
         == Returned(Scan(false, [TolerationPatch(template, "arm64")]))
      && IntendedTolerations(template, ["arm64"], containers, resolve) == []
  {
    var a := ContainerWith("multi");
    var b := ContainerWith("amd64-only");
    assert ContainerImage(a) == Returned("multi") && ContainerImage(b) == Returned("amd64-only");
    assert Covers(("arm64", a), resolve) == Returned(true);
    assert Covers(("arm64", b), resolve) == Returned(false);
    assert ["arm64"][1..] == [];
    assert Row("arm64", [a, b]) == [("arm64", a), ("arm64", b)];
    assert Pairs(["arm64"][1..], [a, b]) == [];
    var pairs := Pairs(["arm64"], [a, b]);
    assert pairs == Row("arm64", [a, b]) + [];
    assert pairs == [("arm64", a), ("arm64", b)];
    var first := Scan(true, [TolerationPatch(template, "arm64")]);
    assert [] + [TolerationPatch(template, "arm64")] == first.patches;
    assert Step(Scan(true, []), pairs[0], template, resolve) == Returned(first);
    assert ScanPairs(pairs, template, resolve) == ScanFrom(Returned(first), pairs[1..], template, resolve);
    assert pairs[1..] == [("arm64", b)];
    assert Step(first, ("arm64", b), template, resolve) == Returned(Scan(false, first.patches));
    assert ScanFrom(Returned(first), pairs[1..], template, resolve) == ScanFrom(Returned(Scan(false, first.patches)), [], template, resolve);
    assert !AllCover("arm64", [a, b], resolve);
  }

  /** As written, `match_found` is never reset between architectures: with
      arm64 then amd64 as targets and an amd64-only image, the miss on arm64
      suppresses the amd64 toleration the image qualifies for. */
  lemma StickyAcrossArchitectures(template: map<string, string>, resolve: Resolution)
    requires resolve("amd64-only") == Returned(Some(["amd64"]))
    ensures var containers := [ContainerWith("amd64-only")];
      && ScanPairs(Pairs(["arm64", "amd64"], containers), template, resolve) == Returned(Scan(false, []))
      && IntendedTolerations(template, ["arm64", "amd64"], containers, resolve) == [TolerationPatch(template, "amd64")]
  {
    var b := ContainerWith("amd64-only");
    assert ContainerImage(b) == Returned("amd64-only");
    assert Covers(("arm64", b), resolve) == Returned(false);
    assert Covers(("amd64", b), resolve) == Returned(true);
    assert ["arm64", "amd64"][1..] == ["amd64"] && ["amd64"][1..] == [];
    assert Row("arm64", [b]) == [("arm64", b)] && Row("amd64", [b]) == [("amd64", b)];
    assert Pairs(["amd64"], [b]) == [("amd64", b)];
    var pairs := Pairs(["arm64", "amd64"], [b]);
    assert pairs == [("arm64", b), ("amd64", b)];
    var missed := Scan(false, []);
    assert Step(Scan(true, []), pairs[0], template, resolve) == Returned(missed);
    assert ScanPairs(pairs, template, resolve) == ScanFrom(Returned(missed), pairs[1..], template, resolve);
    assert pairs[1..] == [("amd64", b)];
    assert Step(missed, ("amd64", b), template, resolve) == Returned(missed);
    assert ScanFrom(Returned(missed), pairs[1..], template, resolve) == ScanFrom(Returned(missed), [], template, resolve);
    assert !AllCover("arm64", [b], resolve) && AllCover("amd64", [b], resolve);
    assert IntendedTolerations(template, ["amd64"], [b], resolve) == [TolerationPatch(template, "amd64")] + [];
  }

  /** The prerequisite the handler's comment describes: an empty array
      created at `/spec/tolerations`. */
  function IntendedPrerequisite(): PatchOp {
    PatchOp("add", ["spec", "tolerations"], JArray([]))
  }

  /** As written, the prerequisite `add` at `/spec` replaces the whole pod
      spec (section 4.1 of RFC 6902: an existing member is replaced): after
      the patch the spec holds nothing but the new tolerations, so its
      containers are gone. */
  lemma PrerequisiteReplacesSpec(pod: map<string, Json>, spec: map<string, Json>, queued: seq<PatchOp>)
    requires "spec" in pod && pod["spec"] == JObject(spec) && "tolerations" !in spec
    requires forall i :: 0 <= i < |queued| ==> queued[i].op == "add" && queued[i].path == TolerationsAppendPath
    ensures Apply(JObject(pod), [PrerequisitePatch()] + queued)
         == Some(JObject(pod["spec" := JObject(map["tolerations" := JArray(Values(queued))])]))
  {
    var empty := map["tolerations" := JArray([])];
    var pod' := pod["spec" := JObject(empty)];
    var ops := [PrerequisitePatch()] + queued;
    assert AddAt(JObject(pod), ["spec"], JObject(empty)) == Some(JObject(pod'));
    ApplyStep(JObject(pod), ops, JObject(pod'));
    assert ops[1..] == queued;
    AppendTolerations(pod', empty, [], queued);
    assert [] + Values(queued) == Values(queued);
    UpdateTwice(map[], "tolerations", JArray([]), JArray(Values(queued)));
    UpdateTwice(pod, "spec", JObject(empty), JObject(map["tolerations" := JArray(Values(queued))]));
  }

  /** With the intended prerequisite, every other member of the spec is
      kept and `tolerations` holds the queued tolerations in order. */
  lemma IntendedPrerequisiteKeepsSpec(pod: map<string, Json>, spec: map<string, Json>, queued: seq<PatchOp>)
    requires "spec" in pod && pod["spec"] == JObject(spec) && "tolerations" !in spec
    requires forall i :: 0 <= i < |queued| ==> queued[i].op == "add" && queued[i].path == TolerationsAppendPath
    ensures Apply(JObject(pod), [IntendedPrerequisite()] + queued)
         == Some(JObject(pod["spec" := JObject(spec["tolerations" := JArray(Values(queued))])]))
  {
    var spec' := spec["tolerations" := JArray([])];
    var pod' := pod["spec" := JObject(spec')];
    var ops := [IntendedPrerequisite()] + queued;
    AddNested(pod, "spec", spec, "tolerations", JArray([]));
    ApplyStep(JObject(pod), ops, JObject(pod'));
    assert ops[1..] == queued;
    AppendTolerations(pod', spec', [], queued);
    assert [] + Values(queued) == Values(queued);
    UpdateTwice(spec, "tolerations", JArray([]), JArray(Values(queued)));
    UpdateTwice(pod, "spec", JObject(spec'), JObject(spec["tolerations" := JArray(Values(queued))]));
  }

  /** For the handler itself: whenever it patches a pod whose spec has no
      tolerations, applying its patch leaves a spec with no `containers`. */
  lemma PatchDropsContainers(review: AdmissionReview, settings: Settings, resolve: Resolution, ps: seq<PatchOp>)
    requires Decide(review, settings, resolve) == Returned(Pass(ps)) && ps != []
    requires "spec" in review.request.value.obj.value
    requires Get(review.request.value.obj.value["spec"], "tolerations").None?
    ensures var pod := review.request.value.obj.value;
      && Apply(JObject(pod), ps) == Some(JObject(pod["spec" := JObject(map["tolerations" := JArray(Values(ps[1..]))])]))
      && pod["spec"].JObject? && "containers" in pod["spec"].fields
  {
    PatchShape(review, settings, resolve, ps);
    var pod := review.request.value.obj.value;
    var queued := ps[1..];
    forall i | 0 <= i < |queued| ensures queued[i].op == "add" && queued[i].path == TolerationsAppendPath {
      assert queued[i] == ps[i + 1];
      var arch :| arch in settings.supportedArchitectures.value && ps[i + 1] == TolerationPatch(settings.tolerations.value, arch);
    }
    assert ps == [PrerequisitePatch()] + queued;
    PrerequisiteReplacesSpec(pod, pod["spec"].fields, queued);
  }
}
