/** Reading the architectures out of a registry's manifest JSON, for the two
    schema versions. */
module Schema {
  import opened Wrappers
  import opened JsonValue

  /** What a manifest lookup yields: the architectures, `None` for a
      manifest that lacks a required field, or a panic. */
  type Lookup = Run<Option<seq<string>>>

  // ---------------------------------------------------------------- schema 1

  /** `get_version_1_arches`: a schema-1 manifest names exactly one
      architecture. */
  function Version1Arches(manifest: Json): (r: Lookup)
    ensures r == Returned(None) <==> Get(manifest, "architecture").None?
    ensures r.Returned? && r.value.Some? ==>
              |r.value.value| == 1 && Get(manifest, "architecture") == Some(JString(r.value.value[0]))
    ensures r.Panicked? <==> Get(manifest, "architecture").Some? && !Get(manifest, "architecture").value.JString?
  {
    match Get(manifest, "architecture")
    case None => Returned(None)
    case Some(JString(a)) => Returned(Some([a]))
    case Some(_) => Panicked("architecture is not a string")
  }

  // ---------------------------------------------------- distinct, in order

  /** The elements of `xs` without repeats, each where it first occurs. */
  function Dedup(xs: seq<string>): (d: seq<string>)
    ensures forall x :: x in d <==> x in xs
  {
    if xs == [] then []
    else
      var d := Dedup(xs[..|xs| - 1]);
      if xs[|xs| - 1] in d then d else d + [xs[|xs| - 1]]
  }

  /** One more element is kept exactly when it is new. */
  lemma DedupSnoc(xs: seq<string>, x: string)
    ensures Dedup(xs + [x]) == if x in Dedup(xs) then Dedup(xs) else Dedup(xs) + [x]
  {
    assert (xs + [x])[..|xs|] == xs;
  }

  predicate NoDuplicates(xs: seq<string>) {
    forall i, j :: 0 <= i < j < |xs| ==> xs[i] != xs[j]
  }

  /** Position of the first occurrence of `x` in `xs`. */
  function FirstIndex(xs: seq<string>, x: string): (i: nat)
    requires x in xs
    ensures i < |xs| && xs[i] == x
    ensures forall k :: 0 <= k < i ==> xs[k] != x
  {
    if x in xs[..|xs| - 1] then FirstIndex(xs[..|xs| - 1], x) else |xs| - 1
  }

  lemma {:induction false} DedupNoDuplicates(xs: seq<string>)
    ensures NoDuplicates(Dedup(xs))
  {
    if xs != [] {
      DedupNoDuplicates(xs[..|xs| - 1]);
    }
  }

  /** The kept elements appear in the order of their first occurrences. */
  lemma {:induction false} DedupFirstSeenOrder(xs: seq<string>)
    ensures forall i, j :: 0 <= i < j < |Dedup(xs)| ==>
              FirstIndex(xs, Dedup(xs)[i]) < FirstIndex(xs, Dedup(xs)[j])
  {
    if xs != [] {
      var init, last := xs[..|xs| - 1], xs[|xs| - 1];
      var d := Dedup(init);
      DedupFirstSeenOrder(init);
      assert xs == init + [last];
      forall x | x in d ensures FirstIndex(xs, x) == FirstIndex(init, x) {
        assert x in init;
      }
      if last !in d {
        forall i | 0 <= i < |d| ensures FirstIndex(xs, d[i]) < FirstIndex(xs, last) {
          assert FirstIndex(xs, last) == |xs| - 1;
        }
      }
    }
  }

  // ---------------------------------------------------------------- schema 2

  /** What one `manifests[]` entry says about its platform. */
  datatype Platform = Arch(name: string) | Missing | NotAString

  /** `platform.architecture` of one entry; `Missing` when the entry has no
      `platform` or the platform has no `architecture`. */
  function EntryPlatform(entry: Json): Platform {
    match Get(entry, "platform")
    case None => Missing
    case Some(platform) =>
      match Get(platform, "architecture")
      case None => Missing
      case Some(JString(a)) => Arch(a)
      case Some(_) => NotAString
  }

  predicate AllNamed(entries: seq<Json>) {
    forall k :: 0 <= k < |entries| ==> EntryPlatform(entries[k]).Arch?
  }

  /** The index of the first entry without an architecture string, or the
      number of entries when there is none. */
  function FirstUnnamed(entries: seq<Json>): (k: nat)
    ensures k <= |entries|
    ensures forall i :: 0 <= i < k ==> EntryPlatform(entries[i]).Arch?
    ensures k < |entries| ==> !EntryPlatform(entries[k]).Arch?
  {
    if entries == [] || !EntryPlatform(entries[0]).Arch? then 0
    else 1 + FirstUnnamed(entries[1..])
  }

  /** The architecture of every entry, in entry order, repeats included. */
  function ArchNames(entries: seq<Json>): (names: seq<string>)
    requires AllNamed(entries)
    ensures |names| == |entries|
    ensures forall k :: 0 <= k < |entries| ==> EntryPlatform(entries[k]) == Arch(names[k])
  {
    if entries == [] then []
    else ArchNames(entries[..|entries| - 1]) + [EntryPlatform(entries[|entries| - 1]).name]
  }

  /** Schema 2 over the `manifests` entries: the first entry that names no
      architecture decides the outcome; otherwise the distinct architectures
      in first-seen order. */
  function EntriesArches(entries: seq<Json>): Lookup {
    var k := FirstUnnamed(entries);
    if k == |entries| then Returned(Some(Dedup(ArchNames(entries))))
    else if EntryPlatform(entries[k]).Missing? then Returned(None)
    else Panicked("architecture is not a string")
  }

  /** Schema 2 of a manifest list. */
  function Version2Arches(manifest: Json): Lookup {
    match Get(manifest, "manifests")
    case None => Returned(None)
    case Some(JArray(entries)) => EntriesArches(entries)
    case Some(_) => Panicked("manifests is not an array")
  }

  /** `get_version_2_arches`: one pass over the entries, appending each
      architecture not yet collected. */
  method GetVersion2Arches(manifest: Json) returns (r: Lookup)
    ensures r == Version2Arches(manifest)
  {
    var found := Get(manifest, "manifests");
    if found.None? {
      return Returned(None);
    }
    if !found.value.JArray? {
      return Panicked("manifests is not an array");
    }
    var manifests := found.value.items;
    assert Version2Arches(manifest) == EntriesArches(manifests);
    var arches: seq<string> := [];
    var i := 0;
    while i < |manifests|
      invariant 0 <= i <= |manifests|
      invariant AllNamed(manifests[..i])
      invariant arches == Dedup(ArchNames(manifests[..i]))
    {
      var platform := Get(manifests[i], "platform");
      if platform.None? {
        assert EntryPlatform(manifests[i]) == Missing;
        StopsAt(manifests, i);
        return Returned(None);
      }
      var arch := Get(platform.value, "architecture");
      if arch.None? {
        assert EntryPlatform(manifests[i]) == Missing;
        StopsAt(manifests, i);
        return Returned(None);
      }
      if !arch.value.JString? {
        assert EntryPlatform(manifests[i]) == NotAString;
        StopsAt(manifests, i);
        return Panicked("architecture is not a string");
      }
      var name := arch.value.str;
      assert EntryPlatform(manifests[i]) == Arch(name);
      ArchNamesExtend(manifests, i);
      DedupSnoc(ArchNames(manifests[..i]), name);
      if name !in arches {
        arches := arches + [name];
      }
      i := i + 1;
    }
    assert manifests[..i] == manifests;
    FirstUnnamedAt(manifests, i);
    r := Returned(Some(arches));
  }

  /** The first unnamed entry is the first one found unnamed in order. */
  lemma {:induction false} FirstUnnamedAt(entries: seq<Json>, i: nat)
    requires i <= |entries| && AllNamed(entries[..i])
    requires i < |entries| ==> !EntryPlatform(entries[i]).Arch?
    ensures FirstUnnamed(entries) == i
  {
    if i > 0 {
      assert entries[1..][..i - 1] == entries[..i][1..];
      FirstUnnamedAt(entries[1..], i - 1);
    }
  }

  /** Schema 2 stops at the first entry, in order, that names no architecture. */
  lemma StopsAt(entries: seq<Json>, i: nat)
    requires i < |entries| && AllNamed(entries[..i]) && !EntryPlatform(entries[i]).Arch?
    ensures EntriesArches(entries) ==
              if EntryPlatform(entries[i]).Missing? then Returned(None)
              else Panicked("architecture is not a string")
  {
    FirstUnnamedAt(entries, i);
  }

  /** One more named entry extends the architecture names by its name. */
  lemma ArchNamesExtend(entries: seq<Json>, i: nat)
    requires i < |entries| && AllNamed(entries[..i]) && EntryPlatform(entries[i]).Arch?
    ensures AllNamed(entries[..i + 1])
    ensures ArchNames(entries[..i + 1]) == ArchNames(entries[..i]) + [EntryPlatform(entries[i]).name]
  {
    assert entries[..i + 1][..i] == entries[..i];
  }

  // ------------------------------------------------------- schema properties

  /** Schema 2 either fails as a whole or lists every entry's architecture:
      a list is returned exactly when every entry names one. */
  lemma EntriesArchesAllOrNothing(entries: seq<Json>)
    ensures EntriesArches(entries).Returned? && EntriesArches(entries).value.Some? <==> AllNamed(entries)
    ensures (exists k :: 0 <= k < |entries| && EntryPlatform(entries[k]).Missing?
                         && forall i :: 0 <= i < k ==> EntryPlatform(entries[i]).Arch?)
            <==> EntriesArches(entries) == Returned(None)
  {
    var k := FirstUnnamed(entries);
    if k < |entries| {
      assert !EntryPlatform(entries[k]).Arch?;
    }
    if EntriesArches(entries) == Returned(None) {
      assert EntryPlatform(entries[k]).Missing?;
    }
  }

  /** On success, schema 2 yields exactly the entries' architectures, each
      once, in the order they are first seen. */
  lemma EntriesArchesDistinctInOrder(entries: seq<Json>)
    requires AllNamed(entries)
    ensures var names := ArchNames(entries);
      && EntriesArches(entries) == Returned(Some(Dedup(names)))
      && NoDuplicates(Dedup(names))
      && (forall x :: x in Dedup(names) <==> exists k :: 0 <= k < |entries| && EntryPlatform(entries[k]) == Arch(x))
      && (forall i, j :: 0 <= i < j < |Dedup(names)| ==>
            FirstIndex(names, Dedup(names)[i]) < FirstIndex(names, Dedup(names)[j]))
  {
    var names := ArchNames(entries);
    assert FirstUnnamed(entries) == |entries|;
    DedupNoDuplicates(names);
    DedupFirstSeenOrder(names);
    forall x ensures x in Dedup(names) <==> exists k :: 0 <= k < |entries| && EntryPlatform(entries[k]) == Arch(x) {
      if x in names {
        var k :| 0 <= k < |names| && names[k] == x;
        assert EntryPlatform(entries[k]) == Arch(x);
      }
    }
  }

  /** An empty manifest list yields an empty architecture list. */
  lemma EmptyManifestList(manifest: Json)
    requires Get(manifest, "manifests") == Some(JArray([]))
    ensures Version2Arches(manifest) == Returned(Some([]))
  {
  }

  // ---------------------------------------------------------------- dispatch

  /** The `schemaVersion` dispatch of `validate_manifest`. */
  function ManifestArches(manifest: Json): (r: Lookup)
    ensures Get(manifest, "schemaVersion").None? ==> r == Returned(None)
    ensures Get(manifest, "schemaVersion") == Some(JNumber(1)) ==> r == Version1Arches(manifest)
    ensures Get(manifest, "schemaVersion") == Some(JNumber(2)) ==> r == Version2Arches(manifest)
    ensures r.Returned? && r.value.Some? ==>
              Get(manifest, "schemaVersion") == Some(JNumber(1)) || Get(manifest, "schemaVersion") == Some(JNumber(2))
    ensures Get(manifest, "schemaVersion").Some? ==>
      var version := AsU64(Get(manifest, "schemaVersion").value);
      && (version.None? ==> r.Panicked?)
      && (version.Some? && version.value != 1 && version.value != 2 ==> r == Returned(None))
  {
    match Get(manifest, "schemaVersion")
    case None => Returned(None)
    case Some(v) =>
      match AsU64(v)
      case None => Panicked("schemaVersion is not a u64")
      case Some(n) =>
        if n == 1 then Version1Arches(manifest)
        else if n == 2 then Version2Arches(manifest)
        else Returned(None)
  }
}
