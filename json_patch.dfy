/** The JSON Patch documents the admission response carries, and the
    part of their meaning this project needs: the `add` operation of
    section 4.1 of RFC 6902 on object members and on the end of an array. */
module JsonPatch {
  import opened Wrappers
  import opened JsonValue

  /** One patch operation; `path` holds the reference tokens of its JSON
      Pointer (section 3 of RFC 6901). */
  datatype PatchOp = PatchOp(op: string, path: seq<string>, value: Json)

  /** The string form of a JSON Pointer: each token preceded by `/`. Tokens
      holding `/` or `~` would need escaping; the patches built here have
      none. */
  function Pointer(tokens: seq<string>): (p: string)
    ensures tokens == [] <==> p == []
    ensures tokens != [] ==> p[0] == '/'
  {
    if tokens == [] then [] else "/" + tokens[0] + Pointer(tokens[1..])
  }

  /** An operation as the handler writes it: `{"op", "path", "value"}`. */
  function OpJson(p: PatchOp): Json {
    JObject(map["op" := JString(p.op), "path" := JString(Pointer(p.path)), "value" := p.value])
  }

  /** The whole patch: a JSON array of the operations, in order. */
  function PatchDocument(ops: seq<PatchOp>): (doc: Json)
    ensures doc.JArray? && |doc.items| == |ops|
    ensures forall i :: 0 <= i < |ops| ==> doc.items[i] == OpJson(ops[i])
  {
    JArray(seq(|ops|, i requires 0 <= i < |ops| => OpJson(ops[i])))
  }

  /** `add` of `value` at `path` in `doc`: at the last token an object
      member is created or replaced and `-` appends to an array; every
      earlier token must name an existing object member. `None` is the
      error the standard prescribes. Numeric array indices are not used by
      the handler and are not modelled. */
  function AddAt(doc: Json, path: seq<string>, value: Json): (r: Option<Json>)
    decreases |path|
    ensures path == [] ==> r == Some(value)
    ensures |path| == 1 && doc.JObject? ==> r == Some(JObject(doc.fields[path[0] := value]))
    ensures |path| == 1 && doc.JArray? && path[0] == "-" ==> r == Some(JArray(doc.items + [value]))
    ensures |path| > 1 && !(doc.JObject? && path[0] in doc.fields) ==> r.None?
  {
    if path == [] then Some(value)
    else if |path| == 1 then
      if doc.JObject? then Some(JObject(doc.fields[path[0] := value]))
      else if doc.JArray? && path[0] == "-" then Some(JArray(doc.items + [value]))
      else None
    else if doc.JObject? && path[0] in doc.fields then
      match AddAt(doc.fields[path[0]], path[1..], value)
      case None => None
      case Some(child) => Some(JObject(doc.fields[path[0] := child]))
    else None
  }

  /** A patch applied operation by operation; any operation other than
      `add`, or any failing one, makes the whole patch fail. */
  function Apply(doc: Json, ops: seq<PatchOp>): Option<Json>
    decreases |ops|
  {
    if ops == [] then Some(doc)
    else if ops[0].op != "add" then None
    else
      match AddAt(doc, ops[0].path, ops[0].value)
      case None => None
      case Some(next) => Apply(next, ops[1..])
  }

  /** The values the operations carry, in order. */
  function Values(ops: seq<PatchOp>): (vs: seq<Json>)
    ensures |vs| == |ops| && forall i :: 0 <= i < |ops| ==> vs[i] == ops[i].value
  {
    seq(|ops|, i requires 0 <= i < |ops| => ops[i].value)
  }

  /** One append at `/spec/tolerations/-` extends `spec.tolerations` by its
      value. */
  lemma AppendOne(pod: map<string, Json>, spec: map<string, Json>, existing: seq<Json>, v: Json)
    requires "spec" in pod && pod["spec"] == JObject(spec)
    requires "tolerations" in spec && spec["tolerations"] == JArray(existing)
    ensures AddAt(JObject(pod), ["spec", "tolerations", "-"], v) ==
      Some(JObject(pod["spec" := JObject(spec["tolerations" := JArray(existing + [v])])]))
  {
    var path := ["spec", "tolerations", "-"];
    assert path[1..] == ["tolerations", "-"] && path[1..][1..] == ["-"];
    assert AddAt(JArray(existing), ["-"], v) == Some(JArray(existing + [v]));
  }

  /** A patch whose first operation is a successful `add` continues from
      the document that operation produced. */
  lemma ApplyStep(doc: Json, ops: seq<PatchOp>, next: Json)
    requires ops != [] && ops[0].op == "add" && AddAt(doc, ops[0].path, ops[0].value) == Some(next)
    ensures Apply(doc, ops) == Apply(next, ops[1..])
  {
  }

  /** The values of a non-empty list: the first one, then the rest's. */
  lemma ValuesCons(existing: seq<Json>, ops: seq<PatchOp>)
    requires ops != []
    ensures (existing + [ops[0].value]) + Values(ops[1..]) == existing + Values(ops)
  {
    assert Values(ops) == [ops[0].value] + Values(ops[1..]);
  }

  /** `add` two levels down creates or replaces a member of an existing
      object member. */
  lemma AddNested(outer: map<string, Json>, key: string, inner: map<string, Json>, member: string, v: Json)
    requires key in outer && outer[key] == JObject(inner)
    ensures AddAt(JObject(outer), [key, member], v) == Some(JObject(outer[key := JObject(inner[member := v])]))
  {
    assert [key, member][1..] == [member];
  }

  /** A second update of the same key overrides the first. */
  lemma UpdateTwice<K, V>(m: map<K, V>, k: K, a: V, b: V)
    ensures m[k := a][k := b] == m[k := b]
  {
  }

  /** Appending operations at `/spec/tolerations/-` of a document whose
      `spec.tolerations` is an array extends that array by their values,
      in order, and changes nothing else. */
  lemma {:induction false} AppendTolerations(pod: map<string, Json>, spec: map<string, Json>, existing: seq<Json>, ops: seq<PatchOp>)
    requires "spec" in pod && pod["spec"] == JObject(spec)
    requires "tolerations" in spec && spec["tolerations"] == JArray(existing)
    requires forall i :: 0 <= i < |ops| ==> ops[i].op == "add" && ops[i].path == ["spec", "tolerations", "-"]
    ensures Apply(JObject(pod), ops) ==
      Some(JObject(pod["spec" := JObject(spec["tolerations" := JArray(existing + Values(ops))])]))
    decreases |ops|
  {
    if ops == [] {
      assert existing + Values(ops) == existing;
      assert spec["tolerations" := JArray(existing)] == spec;
      assert pod["spec" := JObject(spec)] == pod;
    } else {
      var v := ops[0].value;
      var spec' := spec["tolerations" := JArray(existing + [v])];
      var pod' := pod["spec" := JObject(spec')];
      assert ops[0].op == "add" && ops[0].path == ["spec", "tolerations", "-"];
      AppendOne(pod, spec, existing, v);
      ApplyStep(JObject(pod), ops, JObject(pod'));
      var rest := ops[1..];
      forall i | 0 <= i < |rest| ensures rest[i].op == "add" && rest[i].path == ["spec", "tolerations", "-"] {
        assert rest[i] == ops[i + 1];
      }
      AppendTolerations(pod', spec', existing + [v], rest);
      var all := existing + Values(ops);
      ValuesCons(existing, ops);
      UpdateTwice(spec, "tolerations", JArray(existing + [v]), JArray(all));
      UpdateTwice(pod, "spec", JObject(spec'), JObject(spec["tolerations" := JArray(all)]));
    }
  }
}
