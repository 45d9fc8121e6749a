/** The registry store: an in-memory registry that is null until initialised, whose
    writers update it in place and then recompute its counters before saving. */
module RegistryStore {
  import opened Wrappers
  import opened Seqs
  import opened Dicts
  import opened RegistryTypes

  const NotInitialized := "Registry not initialized"
  const InvalidIndex := "Invalid mapping index"

  function NotFound(id: string): string {
    "Component " + id + " not found"
  }

  /** The registry a missing or unreadable registry file is replaced by. */
  function EmptyRegistry(): (r: Registry)
    ensures r.components == [] && r.mappings == []
    ensures r.metadata == Metadata(0, 0, 0, 0) == MetadataOf(r.components, r.mappings)
  {
    Registry("1.0.0", [], [], Metadata(0, 0, 0, 0))
  }

  class RegistryService {
    /** `registry !== null`; the other fields are the registry's parts. */
    var loaded: bool
    var version: string
    var components: Dict<ComponentMetadata>
    var mappings: seq<ComponentMapping>
    var metadata: Metadata

    /** The counters agree with the live counts. */
    ghost predicate Consistent()
      reads this
    {
      metadata == MetadataOf(components, mappings)
    }

    /** The registry this service holds. */
    function Snapshot(): Registry
      reads this
    {
      Registry(version, components, mappings, metadata)
    }

    constructor ()
      ensures !loaded
    {
      loaded := false;
      version := "";
      components := [];
      mappings := [];
      metadata := Metadata(0, 0, 0, 0);
    }

    /** `initialize`: `stored` is the parsed registry file, or `None` when the file is
        missing or cannot be read or parsed. */
    method Initialize(stored: Option<Registry>)
      modifies this
      ensures loaded
      ensures stored.Some? ==> Snapshot() == stored.value
      ensures stored.None? ==> Snapshot() == EmptyRegistry() && Consistent()
    {
      loaded := true;
      match stored
      case Some(r) =>
        version, components, mappings, metadata := r.version, r.components, r.mappings, r.metadata;
      case None =>
        var e := EmptyRegistry();
        version, components, mappings := e.version, e.components, e.mappings;
        var _ := SaveRegistry();
    }

    /** `saveRegistry`: recomputes the counters (the file write is not modelled). */
    method SaveRegistry() returns (o: Outcome<string>)
      modifies this`metadata
      ensures !loaded ==> o == Fail(NotInitialized) && metadata == old(metadata)
      ensures loaded ==> o == Pass && Consistent()
    {
      if !loaded {
        return Fail(NotInitialized);
      }
      metadata := MetadataOf(components, mappings);
      return Pass;
    }

    /** `addComponent`: inserts or replaces the entry under `c.id`. */
    method AddComponent(c: ComponentMetadata) returns (o: Outcome<string>)
      modifies this
      ensures loaded == old(loaded) && version == old(version)
      ensures !old(loaded) ==> o == Fail(NotInitialized) && unchanged(this)
      ensures old(loaded) ==> o == Pass && Consistent()
      ensures old(loaded) ==> components == Put(old(components), c.id, c) && mappings == old(mappings)
    {
      if !loaded {
        return Fail(NotInitialized);
      }
      components := Put(components, c.id, c);
      o := SaveRegistry();
    }

    /** `updateComponent`: shallow-merges `u` into the entry under `id`. */
    method UpdateComponent(id: string, u: ComponentUpdate) returns (o: Outcome<string>)
      modifies this
      ensures loaded == old(loaded) && version == old(version)
      ensures !old(loaded) ==> o == Fail(NotInitialized) && unchanged(this)
      ensures old(loaded) && Get(old(components), id).None? ==> o == Fail(NotFound(id)) && unchanged(this)
      ensures old(loaded) && Get(old(components), id).Some? ==>
                o == Pass && Consistent() && mappings == old(mappings) &&
                components == Put(old(components), id, MergeComponent(Get(old(components), id).value, u))
    {
      if !loaded {
        return Fail(NotInitialized);
      }
      var existing := Get(components, id);
      if existing.None? {
        return Fail(NotFound(id));
      }
      components := Put(components, id, MergeComponent(existing.value, u));
      o := SaveRegistry();
    }

    /** `addMapping`: appends. */
    method AddMapping(m: ComponentMapping) returns (o: Outcome<string>)
      modifies this
      ensures loaded == old(loaded) && version == old(version)
      ensures !old(loaded) ==> o == Fail(NotInitialized) && unchanged(this)
      ensures old(loaded) ==> o == Pass && Consistent()
      ensures old(loaded) ==> mappings == old(mappings) + [m] && components == old(components)
    {
      if !loaded {
        return Fail(NotInitialized);
      }
      mappings := mappings + [m];
      o := SaveRegistry();
    }

    /** `updateMapping`: shallow-merges `u` into `mappings[index]`. */
    method UpdateMapping(index: int, u: MappingUpdate) returns (o: Outcome<string>)
      modifies this
      ensures loaded == old(loaded) && version == old(version)
      ensures !old(loaded) ==> o == Fail(NotInitialized) && unchanged(this)
      ensures old(loaded) && !(0 <= index < |old(mappings)|) ==> o == Fail(InvalidIndex) && unchanged(this)
      ensures old(loaded) && 0 <= index < |old(mappings)| ==>
                o == Pass && Consistent() && components == old(components) &&
                mappings == old(mappings)[index := MergeMapping(old(mappings)[index], u)]
    {
      if !loaded {
        return Fail(NotInitialized);
      }
      if index < 0 || index >= |mappings| {
        return Fail(InvalidIndex);
      }
      mappings := mappings[index := MergeMapping(mappings[index], u)];
      o := SaveRegistry();
    }

    /** `getComponent`: the entry under `id`, `None` (null) for an unknown id. */
    function GetComponent(id: string): (r: Result<Option<ComponentMetadata>, string>)
      reads this
      ensures !loaded <==> r == Failure(NotInitialized)
      ensures loaded ==> r.Success? && (r.value.Some? <==> id in Keys(components))
      ensures loaded ==> forall i :: 0 <= i < |components| && components[i].0 == id ==> r.value == Some(components[i].1)
    {
      if !loaded then Failure(NotInitialized) else Success(Get(components, id))
    }

    /** `getDeprecatedComponents`: the deprecated entries, in key order. */
    function GetDeprecatedComponents(): (r: Result<seq<ComponentMetadata>, string>)
      reads this
      ensures !loaded <==> r == Failure(NotInitialized)
      ensures loaded ==> r == Success(Filter(Values(components), IsDeprecated))
      ensures loaded ==> forall i :: 0 <= i < |r.value| ==> IsDeprecated(r.value[i])
      ensures loaded ==> multiset(r.value) <= multiset(Values(components))
      ensures loaded ==> forall i :: 0 <= i < |components| && IsDeprecated(components[i].1) ==> components[i].1 in r.value
      ensures loaded && Consistent() ==> |r.value| == metadata.deprecatedComponents
    {
      FilterKeeps(Values(components), IsDeprecated);
      FilterSubMultiset(Values(components), IsDeprecated);
      if !loaded then Failure(NotInitialized) else Success(Filter(Values(components), IsDeprecated))
    }

    /** `getMappingsBySource`: the mappings whose source has id `sourceId`, in order. */
    function GetMappingsBySource(sourceId: string): (r: Result<seq<ComponentMapping>, string>)
      reads this
      ensures !loaded <==> r == Failure(NotInitialized)
      ensures loaded ==> r == Success(Filter(mappings, (m: ComponentMapping) => m.sourceComponent.id == sourceId))
      ensures loaded ==> forall i :: 0 <= i < |r.value| ==> r.value[i].sourceComponent.id == sourceId
      ensures loaded ==> multiset(r.value) <= multiset(mappings)
      ensures loaded ==> forall i :: 0 <= i < |mappings| && mappings[i].sourceComponent.id == sourceId ==> mappings[i] in r.value
    {
      var p := (m: ComponentMapping) => m.sourceComponent.id == sourceId;
      FilterKeeps(mappings, p);
      FilterSubMultiset(mappings, p);
      if !loaded then Failure(NotInitialized) else Success(Filter(mappings, p))
    }

    /** `getMappingsByTarget`: the mappings whose target has id `targetId`, in order. */
    function GetMappingsByTarget(targetId: string): (r: Result<seq<ComponentMapping>, string>)
      reads this
      ensures !loaded <==> r == Failure(NotInitialized)
      ensures loaded ==> r == Success(Filter(mappings, (m: ComponentMapping) => m.targetComponent.id == targetId))
      ensures loaded ==> forall i :: 0 <= i < |r.value| ==> r.value[i].targetComponent.id == targetId
      ensures loaded ==> multiset(r.value) <= multiset(mappings)
      ensures loaded ==> forall i :: 0 <= i < |mappings| && mappings[i].targetComponent.id == targetId ==> mappings[i] in r.value
    {
      var p := (m: ComponentMapping) => m.targetComponent.id == targetId;
      FilterKeeps(mappings, p);
      FilterSubMultiset(mappings, p);
      if !loaded then Failure(NotInitialized) else Success(Filter(mappings, p))
    }

    /** `getPendingMappings`: the mappings with status `pending`, in order. */
    function GetPendingMappings(): (r: Result<seq<ComponentMapping>, string>)
      reads this
      ensures !loaded <==> r == Failure(NotInitialized)
      ensures loaded ==> r == Success(Filter(mappings, IsPending))
      ensures loaded ==> forall i :: 0 <= i < |r.value| ==> IsPending(r.value[i])
      ensures loaded ==> multiset(r.value) <= multiset(mappings)
      ensures loaded ==> forall i :: 0 <= i < |mappings| && IsPending(mappings[i]) ==> mappings[i] in r.value
      ensures loaded && Consistent() ==> |r.value| == metadata.pendingMappings
    {
      FilterKeeps(mappings, IsPending);
      FilterSubMultiset(mappings, IsPending);
      if !loaded then Failure(NotInitialized) else Success(Filter(mappings, IsPending))
    }
  }

  /** Rejected mappings are in neither counter: validated plus pending is the number
      of mappings that are not rejected. */
  lemma RejectedNotCounted(components: Dict<ComponentMetadata>, mappings: seq<ComponentMapping>)
    ensures MetadataOf(components, mappings).validatedMappings + MetadataOf(components, mappings).pendingMappings
            == |mappings| - |Filter(mappings, (m: ComponentMapping) => m.validationStatus == Rejected)|
  {
    var notRejected := (m: ComponentMapping) => m.validationStatus != Rejected;
    var rejected := (m: ComponentMapping) => m.validationStatus == Rejected;
    FilterComplement(mappings, notRejected, rejected);
    CountSplit(mappings);
  }

  /** Among the mappings that are not rejected, each is validated or else pending. */
  lemma {:induction false} CountSplit(ms: seq<ComponentMapping>)
    ensures |Filter(ms, IsValidated)| + |Filter(ms, IsPending)|
            == |Filter(ms, (m: ComponentMapping) => m.validationStatus != Rejected)|
    decreases |ms|
  {
    if ms != [] {
      CountSplit(ms[..|ms| - 1]);
    }
  }

  /** Adding a component changes only the entry under its id. */
  lemma AddComponentLeavesOthers(components: Dict<ComponentMetadata>, c: ComponentMetadata, id: string)
    requires id != c.id
    ensures Get(Put(components, c.id, c), id) == Get(components, id)
    ensures Get(Put(components, c.id, c), c.id) == Some(c)
  {
  }

  /** Replacing an existing entry keeps the number of components; a new id adds one. */
  lemma AddComponentCount(components: Dict<ComponentMetadata>, c: ComponentMetadata)
    ensures MetadataOf(Put(components, c.id, c), []).totalComponents
            == MetadataOf(components, []).totalComponents + (if c.id in Keys(components) then 0 else 1)
  {
  }
}
