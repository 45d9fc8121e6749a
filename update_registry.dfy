/** Refreshing the registry from a Figma file: every component and component set of
    the document tree is turned into a registry entry (deprecated when its name says
    so) and added, in document order. */
module UpdateRegistry {
  import opened Wrappers
  import opened Seqs
  import opened Strings
  import opened Dicts
  import opened Js
  import opened RegistryTypes
  import opened RegistryStore
  import opened FigmaNodes

  /** The Figma file the script reads. */
  const FileKey := "m53qXHtSGzqPNze050jhTp"

  /** The answer to the file request: the HTTP status and, if any, the file data. */
  datatype FileResponse = FileResponse(status: int, data: Option<FileData>)

  /** The file data of a response, which may lack its document. */
  datatype FileData = FileData(document: Option<Node>)

  /** What the harvest throws when the file data has no document: its first step
      reads the `type` of `undefined`. */
  const NoDocumentError := "TypeError: Cannot read properties of undefined (reading 'type')"

  predicate IsComponentNode(n: Node) {
    n.ntype == "COMPONENT" || n.ntype == "COMPONENT_SET"
  }

  /** A name marks its component deprecated when it contains `(Deprecated)` or the
      red circle. */
  predicate DeprecatedName(name: string) {
    Contains(name, "(Deprecated)") || Contains(name, "\U{1F534}")
  }

  /** Each entry of `node.properties`, wrapped as `{ type: typeof value, value }`. */
  function WrapProperties(props: Dict<JsValue>): (r: Dict<PropEntry>)
    ensures Keys(r) == Keys(props)
    ensures forall i :: 0 <= i < |props| ==> r[i].1.ptype == TypeOf(props[i].1) && r[i].1.value == props[i].1
  {
    var r := seq(|props|, i requires 0 <= i < |props| => (props[i].0, PropEntry(TypeOf(props[i].1), props[i].1, None)));
    assert forall i :: 0 <= i < |r| ==> r[i].0 == props[i].0;
    r
  }

  /** The registry entry `collectComponents` builds for a component node. */
  function ComponentFor(n: Node, fileKey: string, now: string): ComponentMetadata {
    ComponentMetadata(
      n.id, n.name, n.key, None,
      if n.ntype == "COMPONENT" then Component else ComponentSet,
      if n.properties.Some? then WrapProperties(n.properties.value) else [],
      if n.ntype == "COMPONENT_SET" then n.variantGroupProperties else None,
      if DeprecatedName(n.name) then Some(true) else None,
      None, now, fileKey)
  }

  /** The entry a node contributes: one for a component or component set, none
      for any other node. */
  function EntryOf(fileKey: string, now: string): Node -> Option<ComponentMetadata> {
    (n: Node) => if IsComponentNode(n) then Some(ComponentFor(n, fileKey, now)) else None
  }

  /** What `collectComponents(root, fileKey)` pushes: an entry for every component
      and component set of the tree, in pre-order. */
  function ComponentsOf(root: Node, fileKey: string, now: string): seq<ComponentMetadata> {
    Harvest(root, EntryOf(fileKey, now))
  }

  /** The first half of `collectComponents`'s visit: a component or component set
      pushes its entry; any other node pushes nothing. */
  method PushIfComponent(node: Node, fileKey: string, now: string, components: seq<ComponentMetadata>)
    returns (collected: seq<ComponentMetadata>)
    ensures IsComponentNode(node) ==> collected == components + [ComponentFor(node, fileKey, now)]
    ensures !IsComponentNode(node) ==> collected == components
  {
    collected := components;
    if node.ntype == "COMPONENT" || node.ntype == "COMPONENT_SET" {
      collected := collected + [ComponentFor(node, fileKey, now)];
    }
  }

  /** `collectComponents`: appends the entries of the tree under `node` to `components`. */
  method CollectComponents(node: Node, fileKey: string, now: string, components: seq<ComponentMetadata>)
    returns (collected: seq<ComponentMetadata>)
    ensures collected == components + ComponentsOf(node, fileKey, now)
    decreases node, 1
  {
    var own := PushIfComponent(node, fileKey, now, components);
    collected := CollectChildren(node, fileKey, now, own);
    VisitDone(node, EntryOf(fileKey, now), components, own, collected);
  }

  /** The `forEach` over the children: each child's tree is collected in turn. */
  method CollectChildren(node: Node, fileKey: string, now: string, head: seq<ComponentMetadata>)
    returns (collected: seq<ComponentMetadata>)
    ensures VisitedChildren(node, EntryOf(fileKey, now), head, |node.children|, collected)
    decreases node, 0
  {
    collected := head;
    var kids := node.children;
    for i := 0 to |kids|
      invariant VisitedChildren(node, EntryOf(fileKey, now), head, i, collected)
    {
      ghost var before := collected;
      collected := CollectComponents(kids[i], fileKey, now, collected);
      VisitChildStep(node, EntryOf(fileKey, now), head, i, before, collected);
    }
  }

  /** The registry writes of the add-all loop: each entry under its id. */
  function Entries(cs: seq<ComponentMetadata>): seq<(string, ComponentMetadata)> {
    Map(cs, (c: ComponentMetadata) => (c.id, c))
  }

  /** The add-all loop: every collected entry is added in order. */
  method AddAll(service: RegistryService, components: seq<ComponentMetadata>)
    requires service.loaded
    modifies service
    ensures service.loaded && service.version == old(service.version) && service.mappings == old(service.mappings)
    ensures service.components == PutAll(old(service.components), Entries(components))
    ensures components == [] ==> service.metadata == old(service.metadata)
    ensures components != [] ==> service.Consistent()
  {
    for i := 0 to |components|
      invariant service.loaded && service.version == old(service.version) && service.mappings == old(service.mappings)
      invariant service.components == PutAll(old(service.components), Entries(components[..i]))
      invariant i == 0 ==> service.metadata == old(service.metadata)
      invariant i > 0 ==> service.Consistent()
    {
      var _ := service.AddComponent(components[i]);
      EntriesStep(old(service.components), components, i);
    }
    assert components[..|components|] == components;
  }

  /** Adding one more collected entry is one more `Put` under its id. */
  lemma EntriesStep(base: Dict<ComponentMetadata>, cs: seq<ComponentMetadata>, i: nat)
    requires i < |cs|
    ensures PutAll(base, Entries(cs[..i + 1])) == Put(PutAll(base, Entries(cs[..i])), cs[i].id, cs[i])
  {
    assert cs[..i + 1] == cs[..i] + [cs[i]];
    MapConcat(cs[..i], [cs[i]], (c: ComponentMetadata) => (c.id, c));
    PutAllSnoc(base, Entries(cs[..i]), (cs[i].id, cs[i]));
  }

  /** `updateRegistry`, with the stored registry, the file response and the clock as
      inputs. A failed request returns quietly; file data without a document throws
      before anything is written. */
  method UpdateRegistry(stored: Option<Registry>, response: FileResponse, now: string)
    returns (o: Outcome<string>, result: Registry)
    ensures var start := if stored.Some? then stored.value else EmptyRegistry();
            if response.status != 200 || response.data.None? then o == Pass && result == start
            else if response.data.value.document.None? then o == Fail(NoDocumentError) && result == start
            else
              var harvested := ComponentsOf(response.data.value.document.value, FileKey, now);
              o == Pass &&
              result.version == start.version && result.mappings == start.mappings &&
              result.components == PutAll(start.components, Entries(harvested)) &&
              result.metadata == if harvested == [] then start.metadata else MetadataOf(result.components, result.mappings)
  {
    var service := new RegistryService();
    service.Initialize(stored);
    if response.status != 200 || response.data.None? {
      return Pass, service.Snapshot();
    }
    if response.data.value.document.None? {
      return Fail(NoDocumentError), service.Snapshot();
    }
    o := Pass;
    var document := response.data.value.document.value;
    var components := CollectComponents(document, FileKey, now, []);
    assert components == ComponentsOf(document, FileKey, now);
    AddAll(service, components);
    result := service.Snapshot();
  }

  /** Each component node of the tree, however deeply nested, gets an entry, and each
      entry comes from a component node of the tree. */
  lemma HarvestMeaning(root: Node, fileKey: string, now: string)
    ensures forall i :: 0 <= i < |Preorder(root)| && IsComponentNode(Preorder(root)[i]) ==>
              ComponentFor(Preorder(root)[i], fileKey, now) in ComponentsOf(root, fileKey, now)
    ensures forall k :: 0 <= k < |ComponentsOf(root, fileKey, now)| ==>
              exists i :: 0 <= i < |Preorder(root)| && IsComponentNode(Preorder(root)[i]) &&
                ComponentsOf(root, fileKey, now)[k] == ComponentFor(Preorder(root)[i], fileKey, now)
  {
    var ns := Preorder(root);
    var f := EntryOf(fileKey, now);
    var r := ComponentsOf(root, fileKey, now);
    assert r == Collect(ns, f);
    CollectMeaning(ns, f);
    forall i | 0 <= i < |ns| && IsComponentNode(ns[i])
      ensures ComponentFor(ns[i], fileKey, now) in r
    {
      assert f(ns[i]) == Some(ComponentFor(ns[i], fileKey, now));
    }
    forall k | 0 <= k < |r|
      ensures exists i :: 0 <= i < |ns| && IsComponentNode(ns[i]) && r[k] == ComponentFor(ns[i], fileKey, now)
    {
      var i :| 0 <= i < |ns| && f(ns[i]) == Some(r[k]);
      assert f(ns[i]) == if IsComponentNode(ns[i]) then Some(ComponentFor(ns[i], fileKey, now)) else None;
    }
  }

  /** An entry's type follows its node's type; it is flagged deprecated exactly when
      its name says so and carries no `deprecated` field otherwise; only component
      sets carry `variants`; its properties are the node's, under the same keys. */
  lemma ComponentForMeaning(n: Node, fileKey: string, now: string)
    requires IsComponentNode(n)
    ensures var c := ComponentFor(n, fileKey, now);
            (c.ctype == Component <==> n.ntype == "COMPONENT") &&
            (c.deprecated == Some(true) <==> DeprecatedName(n.name)) &&
            (c.deprecated.Some? ==> c.deprecated.value) &&
            (c.variants.Some? <==> n.ntype == "COMPONENT_SET" && n.variantGroupProperties.Some?) &&
            Keys(c.properties) == (if n.properties.Some? then Keys(n.properties.value) else []) &&
            c.id == n.id && c.name == n.name && c.key == n.key && c.fileKey == fileKey
  {
  }

  /** After the update, an id keeps the entry of its last collected component, and an
      id that was not collected keeps its old entry. */
  lemma LaterDuplicateWins(start: Dict<ComponentMetadata>, cs: seq<ComponentMetadata>, id: string)
    ensures Get(PutAll(start, Entries(cs)), id) ==
              if LastValue(Entries(cs), id).Some? then LastValue(Entries(cs), id) else Get(start, id)
    ensures LastValue(Entries(cs), id).Some? ==> LastValue(Entries(cs), id).value.id == id
  {
    PutAllGet(start, Entries(cs), id);
    LastEntryHasId(cs, id);
  }

  lemma {:induction false} LastEntryHasId(cs: seq<ComponentMetadata>, id: string)
    ensures LastValue(Entries(cs), id).Some? ==> LastValue(Entries(cs), id).value.id == id
    decreases |cs|
  {
    if cs != [] {
      var init := cs[..|cs| - 1];
      LastEntryHasId(init, id);
      var es := Entries(cs);
      assert es[..|es| - 1] == Entries(init);
    }
  }
}
