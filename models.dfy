/** The Kubernetes admission wire types: their fields, their `Default`
    values and the member names serde writes for them. */
module Models {
  import opened Wrappers
  import opened JsonValue

  /** An HTTP status code, a Rust `u16`. */
  type StatusCode = c: int | 0 <= c < 0x1_0000

  datatype GroupVersionKind = GroupVersionKind(group: string, version: string, kind: string)

  datatype GroupVersionResource = GroupVersionResource(group: string, version: string, resource: string)

  datatype Operation = CREATE | UPDATE | DELETE | CONNECT

  datatype PatchType = JSONPatch

  datatype StatusResult = StatusResult(
    status: Option<string>,
    message: Option<string>,
    reason: Option<string>,
    details: Option<string>,
    code: Option<StatusCode>)

  datatype AdmissionRequest = AdmissionRequest(
    uid: string,
    kind: GroupVersionKind,
    resource: GroupVersionResource,
    subResource: Option<string>,
    requestKind: Option<GroupVersionKind>,
    requestSubResource: Option<string>,
    name: Option<string>,
    namespace: Option<string>,
    operation: Operation,
    userInfo: map<string, Json>,
    obj: Option<map<string, Json>>,  // `object` on the wire
    oldObject: Option<map<string, Json>>,
    dryRun: Option<bool>,
    options: Option<map<string, Json>>)

  datatype AdmissionResponse = AdmissionResponse(
    uid: string,
    allowed: bool,
    status: Option<seq<StatusResult>>,
    patch: Option<string>,
    patchType: Option<PatchType>,
    auditAnnotations: Option<map<string, Json>>,
    warnings: Option<seq<string>>)

  datatype AdmissionReview = AdmissionReview(
    request: Option<AdmissionRequest>,
    response: Option<AdmissionResponse>)

  // ---------------------------------------------------------------- defaults

  /** The explicit `Default` of `Operation`. */
  function DefaultOperation(): (op: Operation)
    ensures op == UPDATE
  {
    UPDATE
  }

  /** The explicit `Default` of `PatchType`: its only variant. */
  function DefaultPatchType(): PatchType {
    JSONPatch
  }

  /** The derived `Default` of `AdmissionResponse`. */
  function DefaultResponse(): (r: AdmissionResponse)
    ensures r.uid == "" && !r.allowed
    ensures r.status.None? && r.patch.None? && r.patchType.None?
    ensures r.auditAnnotations.None? && r.warnings.None?
  {
    AdmissionResponse("", false, None, None, None, None, None)
  }

  /** The derived `Default` of `AdmissionRequest`. */
  function DefaultRequest(): (r: AdmissionRequest)
    ensures r.uid == "" && r.kind.kind == "" && r.operation == DefaultOperation()
    ensures r.userInfo == map[] && r.obj.None? && r.oldObject.None? && r.dryRun.None?
    ensures r.subResource.None? && r.requestKind.None? && r.requestSubResource.None?
    ensures r.name.None? && r.namespace.None? && r.options.None?
  {
    AdmissionRequest("", GroupVersionKind("", "", ""), GroupVersionResource("", "", ""),
                     None, None, None, None, None, DefaultOperation(), map[], None, None, None, None)
  }

  /** The derived `Default` of `AdmissionReview`: neither half present. */
  function DefaultReview(): (r: AdmissionReview)
    ensures r.request.None? && r.response.None?
  {
    AdmissionReview(None, None)
  }

  // ------------------------------------------------------ serialised names

  /** The names in `names` whose flag in `present` is set, in order: how serde
      writes the fields of a struct, skipping those whose
      `skip_serializing_if` holds. */
  function Select(names: seq<string>, present: seq<bool>): (keys: seq<string>)
    requires |names| == |present|
    ensures |keys| <= |names|
    ensures forall k :: k in keys ==> k in names
  {
    if names == [] then []
    else (if present[0] then [names[0]] else []) + Select(names[1..], present[1..])
  }

  predicate Distinct(names: seq<string>) {
    forall i, j :: 0 <= i < j < |names| ==> names[i] != names[j]
  }

  /** With distinct names, the first name does not occur again. */
  lemma HeadNotInTail(names: seq<string>)
    requires names != [] && Distinct(names)
    ensures names[0] !in names[1..]
  {
    forall k | 0 <= k < |names| - 1 ensures names[1..][k] != names[0] {
      assert names[1..][k] == names[k + 1];
    }
  }

  /** With distinct names, a name is written exactly when its flag is set. */
  lemma {:induction false} SelectWritesPresent(names: seq<string>, present: seq<bool>, i: nat)
    requires |names| == |present| && Distinct(names) && i < |names|
    ensures names[i] in Select(names, present) <==> present[i]
  {
    HeadNotInTail(names);
    if i > 0 {
      SelectWritesPresent(names[1..], present[1..], i - 1);
      assert names[1..][i - 1] == names[i];
    }
  }

  /** Selected names are written once each. */
  lemma {:induction false} SelectDistinct(names: seq<string>, present: seq<bool>)
    requires |names| == |present| && Distinct(names)
    ensures Distinct(Select(names, present))
  {
    if names != [] {
      HeadNotInTail(names);
      SelectDistinct(names[1..], present[1..]);
    }
  }

  /** Nothing is written when no flag is set. */
  lemma {:induction false} SelectNone(names: seq<string>, present: seq<bool>)
    requires |names| == |present| && forall i :: 0 <= i < |present| ==> !present[i]
    ensures Select(names, present) == []
  {
    if names != [] {
      SelectNone(names[1..], present[1..]);
    }
  }

  /** When exactly the first `n` flags are set, the first `n` names are
      written. */
  lemma {:induction false} SelectLeading(names: seq<string>, present: seq<bool>, n: nat)
    requires |names| == |present| && n <= |names|
    requires forall i :: 0 <= i < |present| ==> (present[i] <==> i < n)
    ensures Select(names, present) == names[..n]
  {
    if n == 0 {
      SelectNone(names, present);
    } else {
      SelectLeading(names[1..], present[1..], n - 1);
      assert names[..n] == [names[0]] + names[1..][..n - 1];
    }
  }

  /** Selecting from a list split in two selects from each part. */
  lemma {:induction false} SelectSplit(names: seq<string>, present: seq<bool>, k: nat)
    requires |names| == |present| && k <= |names|
    ensures Select(names, present) == Select(names[..k], present[..k]) + Select(names[k..], present[k..])
  {
    if k == 0 {
      assert names[..0] == [] && present[..0] == [];
      assert names[0..] == names && present[0..] == present;
    } else {
      SelectSplit(names[1..], present[1..], k - 1);
      assert names[1..][..k - 1] == names[..k][1..] && present[1..][..k - 1] == present[..k][1..];
      assert names[1..][k - 1..] == names[k..] && present[1..][k - 1..] == present[k..];
    }
  }

  const ReviewWireNames: seq<string> := ["request", "response"]

  const RequestWireNames: seq<string> :=
    ["uid", "kind", "resource", "subResource", "requestKind", "requestSubResource", "name",
     "namespace", "operation", "userInfo", "object", "oldObject", "dryRun", "options"]

  const ResponseWireNames: seq<string> :=
    ["uid", "allowed", "status", "patch", "patchType", "auditAnnotations", "warnings"]

  const StatusWireNames: seq<string> := ["status", "message", "reason", "details", "code"]

  lemma WireNamesDistinct()
    ensures Distinct(ReviewWireNames) && Distinct(ResponseWireNames) && Distinct(StatusWireNames)
  {
  }

  lemma RequestWireNamesDistinct()
    ensures Distinct(RequestWireNames)
  {
  }

  function ReviewKeys(r: AdmissionReview): seq<string> {
    Select(ReviewWireNames, [r.request.Some?, r.response.Some?])
  }

  function RequestKeys(r: AdmissionRequest): seq<string> {
    Select(RequestWireNames, RequestFlags(r))
  }

  function ResponseKeys(r: AdmissionResponse): seq<string> {
    Select(ResponseWireNames,
           [true, true, r.status.Some?, r.patch.Some?, r.patchType.Some?,
            r.auditAnnotations.Some?, r.warnings.Some?])
  }

  function StatusKeys(s: StatusResult): seq<string> {
    Select(StatusWireNames,
           [s.status.Some?, s.message.Some?, s.reason.Some?, s.details.Some?, s.code.Some?])
  }

  /** The serialised name of an `Operation` (the variant name). */
  function OperationName(op: Operation): (name: string)
    ensures op == DefaultOperation() <==> name == "UPDATE"
  {
    match op
    case CREATE => "CREATE"
    case UPDATE => "UPDATE"
    case DELETE => "DELETE"
    case CONNECT => "CONNECT"
  }

  /** The serialised name of a `PatchType`, fixed by its `rename`. */
  function PatchTypeName(p: PatchType): (name: string)
    ensures p == DefaultPatchType() && name == "JSONPatch"
  {
    "JSONPatch"
  }

  /** A review is written with `request` and/or `response` exactly when present. */
  lemma ReviewKeysOmitNone(r: AdmissionReview)
    ensures "request" in ReviewKeys(r) <==> r.request.Some?
    ensures "response" in ReviewKeys(r) <==> r.response.Some?
    ensures Distinct(ReviewKeys(r))
  {
    WireNamesDistinct();
    var flags := [r.request.Some?, r.response.Some?];
    SelectWritesPresent(ReviewWireNames, flags, 0);
    SelectWritesPresent(ReviewWireNames, flags, 1);
    SelectDistinct(ReviewWireNames, flags);
  }

  /** The response always writes `uid` and `allowed`, and writes each optional
      field, under its renamed wire name, exactly when it is `Some`. */
  lemma ResponseKeysOmitNone(r: AdmissionResponse)
    ensures "uid" in ResponseKeys(r) && "allowed" in ResponseKeys(r)
    ensures "status" in ResponseKeys(r) <==> r.status.Some?
    ensures "patch" in ResponseKeys(r) <==> r.patch.Some?
    ensures "patchType" in ResponseKeys(r) <==> r.patchType.Some?
    ensures "auditAnnotations" in ResponseKeys(r) <==> r.auditAnnotations.Some?
    ensures "warnings" in ResponseKeys(r) <==> r.warnings.Some?
    ensures Distinct(ResponseKeys(r))
  {
    WireNamesDistinct();
    var flags := [true, true, r.status.Some?, r.patch.Some?, r.patchType.Some?,
                  r.auditAnnotations.Some?, r.warnings.Some?];
    SelectWritesPresent(ResponseWireNames, flags, 0);
    SelectWritesPresent(ResponseWireNames, flags, 1);
    SelectWritesPresent(ResponseWireNames, flags, 2);
    SelectWritesPresent(ResponseWireNames, flags, 3);
    SelectWritesPresent(ResponseWireNames, flags, 4);
    SelectWritesPresent(ResponseWireNames, flags, 5);
    SelectWritesPresent(ResponseWireNames, flags, 6);
    SelectDistinct(ResponseWireNames, flags);
  }

  function RequestFlags(r: AdmissionRequest): seq<bool> {
    [true, true, true, r.subResource.Some?, r.requestKind.Some?, r.requestSubResource.Some?,
     r.name.Some?, r.namespace.Some?, true, true, r.obj.Some?, r.oldObject.Some?,
     r.dryRun.Some?, r.options.Some?]
  }

  /** The request always writes `operation` and `userInfo`, each key once. */
  lemma RequestKeysAlwaysWritten(r: AdmissionRequest)
    ensures "operation" in RequestKeys(r) && "userInfo" in RequestKeys(r)
    ensures Distinct(RequestKeys(r))
  {
    RequestWireNamesDistinct();
    SelectWritesPresent(RequestWireNames, RequestFlags(r), 8);
    SelectWritesPresent(RequestWireNames, RequestFlags(r), 9);
    SelectDistinct(RequestWireNames, RequestFlags(r));
  }

  /** The request writes its `i`-th field name exactly when that field's
      flag is set. */
  lemma RequestKeyWritten(r: AdmissionRequest, i: nat)
    requires i < |RequestWireNames|
    ensures RequestWireNames[i] in RequestKeys(r) <==> RequestFlags(r)[i]
  {
    RequestWireNamesDistinct();
    SelectWritesPresent(RequestWireNames, RequestFlags(r), i);
  }

  /** The request writes each of its optional fields exactly when present. */
  lemma RequestKeysOmitNone(r: AdmissionRequest)
    ensures "subResource" in RequestKeys(r) <==> r.subResource.Some?
    ensures "requestKind" in RequestKeys(r) <==> r.requestKind.Some?
    ensures "requestSubResource" in RequestKeys(r) <==> r.requestSubResource.Some?
    ensures "object" in RequestKeys(r) <==> r.obj.Some?
    ensures "oldObject" in RequestKeys(r) <==> r.oldObject.Some?
    ensures "dryRun" in RequestKeys(r) <==> r.dryRun.Some?
    ensures "name" in RequestKeys(r) <==> r.name.Some?
    ensures "namespace" in RequestKeys(r) <==> r.namespace.Some?
    ensures "options" in RequestKeys(r) <==> r.options.Some?
  {
    RequestKeyWritten(r, 3);
    RequestKeyWritten(r, 4);
    RequestKeyWritten(r, 5);
    RequestKeyWritten(r, 6);
    RequestKeyWritten(r, 7);
    RequestKeyWritten(r, 10);
    RequestKeyWritten(r, 11);
    RequestKeyWritten(r, 12);
    RequestKeyWritten(r, 13);
  }


  /** A default response with a uid is written as exactly `uid` then
      `allowed`. */
  lemma DefaultResponseWireForm(uid: string)
    ensures ResponseKeys(DefaultResponse().(uid := uid)) == ["uid", "allowed"]
  {
    var r := DefaultResponse().(uid := uid);
    SelectLeading(ResponseWireNames, [true, true, r.status.Some?, r.patch.Some?, r.patchType.Some?,
                                      r.auditAnnotations.Some?, r.warnings.Some?], 2);
  }


  /** A request whose optional fields are all absent, such as the default
      one, is written with its five fields that are never skipped, and
      nothing else. */
  lemma AbsentOptionalsWireForm(r: AdmissionRequest)
    requires r.subResource.None? && r.requestKind.None? && r.requestSubResource.None?
    requires r.name.None? && r.namespace.None? && r.obj.None? && r.oldObject.None?
    requires r.dryRun.None? && r.options.None?
    ensures RequestKeys(r) == ["uid", "kind", "resource", "operation", "userInfo"]
  {
    var names, flags := RequestWireNames, RequestFlags(r);
    AbsentOptionalsSelect(names, flags);
    assert names[..3] == ["uid", "kind", "resource"];
    assert names[8..10] == ["operation", "userInfo"];
  }

  /** The flags of a request with every optional field absent select the
      first three names and the ninth and tenth. */
  lemma AbsentOptionalsSelect(names: seq<string>, flags: seq<bool>)
    requires |names| == |flags| == 14
    requires forall i :: 0 <= i < 14 ==> (flags[i] <==> i < 3 || i == 8 || i == 9)
    ensures Select(names, flags) == names[..3] + names[8..10]
  {
    SelectSplit(names, flags, 3);
    SelectLeading(names[..3], flags[..3], 3);
    var names1, flags1 := names[3..], flags[3..];
    SelectSplit(names1, flags1, 5);
    SelectNone(names1[..5], flags1[..5]);
    var names2, flags2 := names1[5..], flags1[5..];
    SelectSplit(names2, flags2, 2);
    SelectLeading(names2[..2], flags2[..2], 2);
    SelectNone(names2[2..], flags2[2..]);
    assert names2[..2] == names[8..10];
  }

  /** A review holding only a response is written as `{"response": ...}`. */
  lemma ResponseOnlyReviewWireForm(response: AdmissionResponse)
    ensures ReviewKeys(DefaultReview().(response := Some(response))) == ["response"]
  {
    var review := DefaultReview().(response := Some(response));
    var present := [review.request.Some?, review.response.Some?];
    assert present == [false, true];
    assert Select(ReviewWireNames[1..], present[1..]) == [ReviewWireNames[1]] + Select([], []);
  }

}
