/** Building a registry from the mapping modules of a directory: every module file
    whose default export is a mapping, or an array of mappings, contributes them in
    order; the components table gets the source of each mapping as a deprecated
    entry and its target as a current one, and the counters are counted from the
    result. */
module GenerateRegistry {
  import opened Wrappers
  import opened Seqs
  import opened Strings
  import opened Dicts
  import opened RegistryTypes

  const RegistryVersion := "1.0.0"

  /** What a module's `default` export holds. */
  datatype DefaultExport = NoDefault | DefaultMapping(m: ComponentMapping) | DefaultArray(ms: seq<ComponentMapping>)

  /** A directory entry together with what importing it yields. */
  datatype ModuleFile = ModuleFile(name: string, exported: DefaultExport)

  predicate IsScript(f: ModuleFile) {
    EndsWith(f.name, ".ts") || EndsWith(f.name, ".js")
  }

  /** The mappings one file adds to the list. */
  function Contribution(f: ModuleFile): seq<ComponentMapping> {
    if !IsScript(f) then []
    else
      match f.exported
      case NoDefault => []
      case DefaultMapping(m) => [m]
      case DefaultArray(ms) => ms
  }

  /** The mappings imported from `files`, in directory order. */
  function Imported(files: seq<ModuleFile>): seq<ComponentMapping>
    decreases |files|
  {
    if files == [] then [] else Imported(files[..|files| - 1]) + Contribution(files[|files| - 1])
  }

  /** `importMappingsFromDir`, with the directory listing and the dynamic imports as
      the input `files`. */
  method ImportMappingsFromDir(files: seq<ModuleFile>) returns (mappings: seq<ComponentMapping>)
    ensures mappings == Imported(files)
  {
    mappings := [];
    for i := 0 to |files|
      invariant mappings == Imported(files[..i])
    {
      assert files[..i + 1][..i] == files[..i];
      var file := files[i];
      if EndsWith(file.name, ".ts") || EndsWith(file.name, ".js") {
        match file.exported {
          case NoDefault =>
          case DefaultMapping(m) => mappings := mappings + [m];
          case DefaultArray(ms) => mappings := mappings + ms;
        }
      }
    }
    assert files[..|files|] == files;
  }

  /** Importing two listings one after the other concatenates their mappings. */
  lemma {:induction false} ImportedConcat(a: seq<ModuleFile>, b: seq<ModuleFile>)
    ensures Imported(a + b) == Imported(a) + Imported(b)
    decreases |b|
  {
    if b != [] {
      assert (a + b)[..|a + b| - 1] == a + b[..|b| - 1];
      assert (a + b)[|a + b| - 1] == b[|b| - 1];
      ImportedConcat(a, b[..|b| - 1]);
    } else {
      assert a + b == a;
    }
  }

  /** Files that do not end in `.ts` or `.js` contribute nothing. */
  lemma {:induction false} ImportedOnlyScripts(files: seq<ModuleFile>)
    ensures Imported(files) == Imported(Filter(files, IsScript))
    decreases |files|
  {
    if files != [] {
      var pre := files[..|files| - 1];
      var last := files[|files| - 1];
      ImportedOnlyScripts(pre);
      if IsScript(last) {
        var kept := Filter(pre, IsScript);
        assert Filter(files, IsScript) == kept + [last];
        assert (kept + [last])[..|kept|] == kept;
        assert Imported(kept + [last]) == Imported(kept) + Contribution(last);
      } else {
        assert Filter(files, IsScript) == Filter(pre, IsScript);
        assert Imported(files) == Imported(pre) + [];
      }
    }
  }

  /** Every imported mapping comes from a script file's default export. */
  lemma {:induction false} ImportedFromScripts(files: seq<ModuleFile>, i: nat)
    requires i < |Imported(files)|
    ensures exists j :: 0 <= j < |files| && IsScript(files[j]) && Imported(files)[i] in Contribution(files[j])
    decreases |files|
  {
    var pre := files[..|files| - 1];
    var last := files[|files| - 1];
    if i < |Imported(pre)| {
      ImportedFromScripts(pre, i);
      var j :| 0 <= j < |pre| && IsScript(pre[j]) && Imported(pre)[i] in Contribution(pre[j]);
      assert files[j] == pre[j];
    } else {
      assert Imported(files)[i] == Contribution(last)[i - |Imported(pre)|];
      assert Contribution(last) != [];
      assert files[|files| - 1] == last;
    }
  }

  /** The entry written for one end of a mapping. The script sets only its id, name,
      key and `deprecated`; the other fields, absent there, hold placeholders here
      (type component, no properties, empty strings). */
  function Stub(c: ComponentRef, deprecated: bool): (r: ComponentMetadata)
    ensures r.id == c.id && r.name == c.name && r.key == c.key
    ensures IsDeprecated(r) <==> deprecated
  {
    ComponentMetadata(c.id, c.name, c.key, None, Component, [], None, Some(deprecated), None, "", "")
  }

  /** The two assignments one mapping makes: its source as a deprecated entry, then
      its target as a current one. */
  function Writes(ms: seq<ComponentMapping>): (w: seq<(string, ComponentMetadata)>)
    ensures |w| == 2 * |ms|
    decreases |ms|
  {
    if ms == [] then []
    else
      var m := ms[|ms| - 1];
      Writes(ms[..|ms| - 1]) + [(m.sourceComponent.id, Stub(m.sourceComponent, true)),
                                (m.targetComponent.id, Stub(m.targetComponent, false))]
  }

  /** The components table after the writes of `ms`, in order, a later write
      replacing an earlier one. */
  function Built(ms: seq<ComponentMapping>): Dict<ComponentMetadata> {
    PutAll([], Writes(ms))
  }

  /** The component loop of `generateRegistry`. */
  method BuildComponents(ms: seq<ComponentMapping>) returns (components: Dict<ComponentMetadata>)
    ensures components == Built(ms)
  {
    components := [];
    for i := 0 to |ms|
      invariant components == PutAll([], Writes(ms[..i]))
    {
      assert ms[..i + 1][..i] == ms[..i];
      var mapping := ms[i];
      assert Writes(ms[..i + 1]) == Writes(ms[..i]) + [(mapping.sourceComponent.id, Stub(mapping.sourceComponent, true)),
                                                     (mapping.targetComponent.id, Stub(mapping.targetComponent, false))];
      PutAllSnoc2([], Writes(ms[..i]), (mapping.sourceComponent.id, Stub(mapping.sourceComponent, true)),
                  (mapping.targetComponent.id, Stub(mapping.targetComponent, false)));
      components := Put(components, mapping.sourceComponent.id, Stub(mapping.sourceComponent, true));
      components := Put(components, mapping.targetComponent.id, Stub(mapping.targetComponent, false));
    }
    assert ms[..|ms|] == ms;
  }

  /** A mapping that names `k` at either end. */
  predicate Mentions(m: ComponentMapping, k: string) {
    m.sourceComponent.id == k || m.targetComponent.id == k
  }

  /** The entry `k` gets is the last write to `k`. */
  lemma BuiltGet(ms: seq<ComponentMapping>, k: string)
    ensures Get(Built(ms), k) == LastValue(Writes(ms), k)
  {
    PutAllGet([], Writes(ms), k);
  }

  /** The last write to `k` when one more mapping is processed. */
  lemma WritesStep(ms: seq<ComponentMapping>, m: ComponentMapping, k: string)
    ensures LastValue(Writes(ms + [m]), k) ==
              if m.targetComponent.id == k then Some(Stub(m.targetComponent, false))
              else if m.sourceComponent.id == k then Some(Stub(m.sourceComponent, true))
              else LastValue(Writes(ms), k)
  {
    var w := Writes(ms);
    var a := (m.sourceComponent.id, Stub(m.sourceComponent, true));
    var b := (m.targetComponent.id, Stub(m.targetComponent, false));
    assert (ms + [m])[..|ms|] == ms;
    assert Writes(ms + [m]) == w + [a, b];
    assert (w + [a, b])[..|w| + 1] == w + [a];
    assert (w + [a])[..|w|] == w;
  }

  /** The keys are exactly the ids the mappings name. */
  lemma {:induction false} BuiltKeys(ms: seq<ComponentMapping>, k: string)
    ensures k in Keys(Built(ms)) <==> exists i :: 0 <= i < |ms| && Mentions(ms[i], k)
  {
    PutAllKeys([], Writes(ms), k);
    WrittenKeys(ms, k);
  }

  lemma {:induction false} WrittenKeys(ms: seq<ComponentMapping>, k: string)
    ensures LastValue(Writes(ms), k).Some? <==> exists i :: 0 <= i < |ms| && Mentions(ms[i], k)
    decreases |ms|
  {
    if ms != [] {
      var pre := ms[..|ms| - 1];
      var m := ms[|ms| - 1];
      assert ms == pre + [m];
      WritesStep(pre, m, k);
      WrittenKeys(pre, k);
      if exists i :: 0 <= i < |pre| && Mentions(pre[i], k) {
        var i :| 0 <= i < |pre| && Mentions(pre[i], k);
        assert ms[i] == pre[i];
      }
      if exists i :: 0 <= i < |ms| && Mentions(ms[i], k) {
        var i :| 0 <= i < |ms| && Mentions(ms[i], k);
        if i < |pre| {
          assert pre[i] == ms[i];
        }
      }
    }
  }

  /** At most two entries per mapping. */
  lemma BuiltSize(ms: seq<ComponentMapping>)
    ensures |Built(ms)| <= 2 * |ms|
  {
    PutAllSize([], Writes(ms));
  }

  /** Each entry sits under its own id. */
  lemma {:induction false} BuiltEntryIds(ms: seq<ComponentMapping>, k: string)
    ensures Get(Built(ms), k).Some? ==> Get(Built(ms), k).value.id == k
    decreases |ms|
  {
    BuiltGet(ms, k);
    if ms != [] {
      var pre := ms[..|ms| - 1];
      assert ms == pre + [ms[|ms| - 1]];
      WritesStep(pre, ms[|ms| - 1], k);
      BuiltEntryIds(pre, k);
      BuiltGet(pre, k);
    }
  }

  /** The last mapping decides the entries of the ids it names: its target is a
      current entry, its source a deprecated one unless it is also the target. */
  lemma LastMappingWins(ms: seq<ComponentMapping>, m: ComponentMapping)
    ensures Get(Built(ms + [m]), m.targetComponent.id) == Some(Stub(m.targetComponent, false))
    ensures m.sourceComponent.id != m.targetComponent.id ==>
              Get(Built(ms + [m]), m.sourceComponent.id) == Some(Stub(m.sourceComponent, true))
    ensures m.sourceComponent.id == m.targetComponent.id ==>
              !IsDeprecated(Get(Built(ms + [m]), m.sourceComponent.id).value)
  {
    BuiltGet(ms + [m], m.targetComponent.id);
    BuiltGet(ms + [m], m.sourceComponent.id);
    WritesStep(ms, m, m.targetComponent.id);
    WritesStep(ms, m, m.sourceComponent.id);
  }

  /** Mappings that do not name `k` leave the last write to `k` as it was, so its
      entry is the one the earlier mappings gave it. */
  lemma {:induction false} LaterMappingsKeep(a: seq<ComponentMapping>, b: seq<ComponentMapping>, k: string)
    requires forall i :: 0 <= i < |b| ==> !Mentions(b[i], k)
    ensures LastValue(Writes(a + b), k) == LastValue(Writes(a), k)
    decreases |b|
  {
    if b == [] {
      assert a + b == a;
    } else {
      var pre := b[..|b| - 1];
      assert a + b == (a + pre) + [b[|b| - 1]];
      WritesStep(a + pre, b[|b| - 1], k);
      LaterMappingsKeep(a, pre, k);
    }
  }

  /** A deprecated entry is the source of some mapping that does not also target it. */
  lemma {:induction false} DeprecatedAreSources(ms: seq<ComponentMapping>, k: string)
    requires LastValue(Writes(ms), k).Some? && IsDeprecated(LastValue(Writes(ms), k).value)
    ensures exists i :: 0 <= i < |ms| && ms[i].sourceComponent.id == k && ms[i].targetComponent.id != k
    decreases |ms|
  {
    var pre := ms[..|ms| - 1];
    var m := ms[|ms| - 1];
    assert ms == pre + [m];
    WritesStep(pre, m, k);
    if m.sourceComponent.id == k && m.targetComponent.id != k {
      assert ms[|ms| - 1] == m;
    } else {
      DeprecatedAreSources(pre, k);
      var i :| 0 <= i < |pre| && pre[i].sourceComponent.id == k && pre[i].targetComponent.id != k;
      assert ms[i] == pre[i];
    }
  }

  /** `generateRegistry`, without the clock and the file write: the imported
      mappings, the components they name, and the counters of both. */
  method Generate(files: seq<ModuleFile>) returns (registry: Registry)
    ensures registry.version == RegistryVersion
    ensures registry.mappings == Imported(files)
    ensures registry.components == Built(Imported(files))
    ensures registry.metadata == MetadataOf(registry.components, registry.mappings)
    ensures registry.metadata.totalComponents <= 2 * |registry.mappings|
  {
    var deprecatedMappings := ImportMappingsFromDir(files);
    var components := BuildComponents(deprecatedMappings);
    BuiltSize(deprecatedMappings);
    var metadata := Metadata(
      |Keys(components)|,
      |Filter(Values(components), IsDeprecated)|,
      |Filter(deprecatedMappings, IsValidated)|,
      |Filter(deprecatedMappings, IsPending)|);
    registry := Registry(RegistryVersion, components, deprecatedMappings, metadata);
  }
}
