/** The registry's records: a component's metadata, a mapping from a deprecated
    component to its replacement, and the registry that holds both together with
    counters derived from them. */
module RegistryTypes {
  import opened Wrappers
  import opened Seqs
  import opened Dicts
  import opened Js

  datatype ComponentType = Component | ComponentSet

  /** One entry of a component's `properties`: `{ type, value, description? }`. */
  datatype PropEntry = PropEntry(ptype: string, value: JsValue, description: Option<string>)

  datatype ComponentMetadata = ComponentMetadata(
    id: string,
    name: string,
    key: string,
    description: Option<string>,
    ctype: ComponentType,
    properties: Dict<PropEntry>,
    variants: Option<Dict<seq<string>>>,
    deprecated: Option<bool>,
    replacement: Option<string>,
    lastModified: string,
    fileKey: string)

  /** `c.deprecated` is truthy. */
  predicate IsDeprecated(c: ComponentMetadata) {
    c.deprecated == Some(true)
  }

  predicate NotDeprecated(c: ComponentMetadata) {
    !IsDeprecated(c)
  }

  datatype ComponentRef = ComponentRef(id: string, name: string, key: string)

  /** A transformation closure, reduced to the shape every closure in the repository
      has: `v => table[v] || v`, together with the inputs on which it throws. */
  datatype Transform = Transform(table: map<string, string>, throwsOn: set<string>)

  /** Running a transformation: `None` when it throws. */
  function Apply(t: Transform, v: string): (r: Option<string>)
    ensures r.None? <==> v in t.throwsOn
    ensures r.Some? && !(v in t.table && t.table[v] != "") ==> r.value == v
  {
    if v in t.throwsOn then None
    else if v in t.table && t.table[v] != "" then Some(t.table[v])
    else Some(v)
  }

  datatype PropertyMapping = PropertyMapping(
    targetProperty: string,
    transformation: Option<Transform>,
    description: Option<string>)

  datatype Status = Pending | Validated | Rejected

  datatype ComponentMapping = ComponentMapping(
    sourceComponent: ComponentRef,
    targetComponent: ComponentRef,
    propertyMappings: Dict<PropertyMapping>,
    confidence: real,
    validationStatus: Status,
    lastValidated: Option<string>,
    notes: Option<string>)

  predicate IsPending(m: ComponentMapping) { m.validationStatus == Pending }
  predicate IsValidated(m: ComponentMapping) { m.validationStatus == Validated }

  datatype Metadata = Metadata(
    totalComponents: nat,
    deprecatedComponents: nat,
    validatedMappings: nat,
    pendingMappings: nat)

  datatype Registry = Registry(
    version: string,
    components: Dict<ComponentMetadata>,
    mappings: seq<ComponentMapping>,
    metadata: Metadata)

  /** The counters the registry keeps, as counts over its components and mappings. */
  function MetadataOf(components: Dict<ComponentMetadata>, mappings: seq<ComponentMapping>): Metadata {
    Metadata(
      |components|,
      |Filter(Values(components), IsDeprecated)|,
      |Filter(mappings, IsValidated)|,
      |Filter(mappings, IsPending)|)
  }

  /** `Partial<ComponentMetadata>`: `Some` marks a field the update carries. */
  datatype ComponentUpdate = ComponentUpdate(
    id: Option<string>,
    name: Option<string>,
    key: Option<string>,
    description: Option<string>,
    ctype: Option<ComponentType>,
    properties: Option<Dict<PropEntry>>,
    variants: Option<Dict<seq<string>>>,
    deprecated: Option<bool>,
    replacement: Option<string>,
    lastModified: Option<string>,
    fileKey: Option<string>)

  /** `{ ...c, ...u }`: every field the update carries replaces the old one. */
  function MergeComponent(c: ComponentMetadata, u: ComponentUpdate): ComponentMetadata {
    ComponentMetadata(
      u.id.GetOr(c.id),
      u.name.GetOr(c.name),
      u.key.GetOr(c.key),
      if u.description.Some? then u.description else c.description,
      u.ctype.GetOr(c.ctype),
      u.properties.GetOr(c.properties),
      if u.variants.Some? then u.variants else c.variants,
      if u.deprecated.Some? then u.deprecated else c.deprecated,
      if u.replacement.Some? then u.replacement else c.replacement,
      u.lastModified.GetOr(c.lastModified),
      u.fileKey.GetOr(c.fileKey))
  }

  /** `Partial<ComponentMapping>`. */
  datatype MappingUpdate = MappingUpdate(
    sourceComponent: Option<ComponentRef>,
    targetComponent: Option<ComponentRef>,
    propertyMappings: Option<Dict<PropertyMapping>>,
    confidence: Option<real>,
    validationStatus: Option<Status>,
    lastValidated: Option<string>,
    notes: Option<string>)

  /** `{ ...m, ...u }`. */
  function MergeMapping(m: ComponentMapping, u: MappingUpdate): ComponentMapping {
    ComponentMapping(
      u.sourceComponent.GetOr(m.sourceComponent),
      u.targetComponent.GetOr(m.targetComponent),
      u.propertyMappings.GetOr(m.propertyMappings),
      u.confidence.GetOr(m.confidence),
      u.validationStatus.GetOr(m.validationStatus),
      if u.lastValidated.Some? then u.lastValidated else m.lastValidated,
      if u.notes.Some? then u.notes else m.notes)
  }

  /** A shallow merge changes exactly the fields the update carries. */
  lemma MergeMappingFields(m: ComponentMapping, u: MappingUpdate)
    ensures u == MappingUpdate(None, None, None, None, None, None, None) ==> MergeMapping(m, u) == m
    ensures MergeMapping(m, u).validationStatus == if u.validationStatus.Some? then u.validationStatus.value else m.validationStatus
    ensures u.sourceComponent.None? && u.targetComponent.None? ==>
              MergeMapping(m, u).sourceComponent == m.sourceComponent && MergeMapping(m, u).targetComponent == m.targetComponent
  {
  }
}
