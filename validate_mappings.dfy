/** The mapping validator: every pending mapping whose confidence reaches the
    threshold is checked for its property mappings and then marked validated or
    rejected in the registry; the rest are skipped. A report counts the verdicts. */
module ValidateMappings {
  import opened Wrappers
  import opened Seqs
  import opened Strings
  import opened Dicts
  import opened RegistryTypes
  import opened RegistryStore

  datatype Validation = Validation(isValid: bool, reason: Option<string>)

  const NoMappings := "No property mappings defined"
  const MissingPrefix := "Missing required property mappings: "
  const InvalidPrefix := "Invalid transformation function for property "
  const LowConfidence := "Confidence too low"
  const RequiredProperties: seq<string> := ["variant", "size", "state"]
  /** The sample value every transformation is tried on. */
  const TestValue := "test"
  const ConfidenceThreshold: real := 50.0

  /** The transformation of `pm` exists and throws on the sample value. */
  predicate Throws(pm: PropertyMapping) {
    pm.transformation.Some? && Apply(pm.transformation.value, TestValue).None?
  }

  /** The required property names with no entry, in the order they are required:
      `requiredProperties.filter(prop => !propertyMappings[prop])`, unrolled over the
      three names. */
  function MissingRequired(d: Dict<PropertyMapping>): (r: seq<string>)
  {
    (if Get(d, "variant").None? then ["variant"] else []) +
    (if Get(d, "size").None? then ["size"] else []) +
    (if Get(d, "state").None? then ["state"] else [])
  }

  /** The unrolled form is the filter of the required names. */
  lemma MissingRequiredIsFilter(d: Dict<PropertyMapping>)
    ensures MissingRequired(d) == Filter(RequiredProperties, (p: string) => Get(d, p).None?)
  {
    var p := (p: string) => Get(d, p).None?;
    assert RequiredProperties[..2][..1] == ["variant"];
    assert RequiredProperties[..2] == ["variant", "size"];
    assert RequiredProperties[..1] == ["variant"];
    assert ["variant"][..0] == [];
  }

  /** A name is reported missing exactly when it is required and has no entry. */
  lemma MissingRequiredMembers(d: Dict<PropertyMapping>)
    ensures forall i :: 0 <= i < |MissingRequired(d)| ==> MissingRequired(d)[i] !in Keys(d)
    ensures forall i :: 0 <= i < |RequiredProperties| ==>
              (RequiredProperties[i] in MissingRequired(d) <==> RequiredProperties[i] !in Keys(d))
    ensures MissingRequired(d) == [] <==> forall i :: 0 <= i < |RequiredProperties| ==> RequiredProperties[i] in Keys(d)
  {
    assert RequiredProperties[0] == "variant" && RequiredProperties[1] == "size" && RequiredProperties[2] == "state";
    if MissingRequired(d) != [] {
      assert "variant" !in Keys(d) || "size" !in Keys(d) || "state" !in Keys(d);
    }
  }

  /** The first entry, in key order, whose transformation throws. */
  function FirstThrowing(d: seq<(string, PropertyMapping)>): (r: Option<nat>)
    ensures r.Some? ==> r.value < |d| && Throws(d[r.value].1)
    ensures r.Some? ==> forall j :: 0 <= j < r.value ==> !Throws(d[j].1)
    ensures r.None? <==> forall j :: 0 <= j < |d| ==> !Throws(d[j].1)
  {
    if d == [] then None
    else if Throws(d[0].1) then Some(0)
    else
      match FirstThrowing(d[1..])
      case None => None
      case Some(j) => Some(j + 1)
  }

  /** `validatePropertyMappings`: the empty check first, then the required
      properties, then the transformations. */
  function ValidatePropertyMappings(m: ComponentMapping): (r: Validation)
    ensures r.isValid <==> r.reason.None?
  {
    var d := m.propertyMappings;
    if |d| == 0 then
      Validation(false, Some(NoMappings))
    else
      var missing := MissingRequired(d);
      if missing != [] then
        Validation(false, Some(MissingPrefix + Join(missing, ", ")))
      else
        match FirstThrowing(d)
        case Some(j) => Validation(false, Some(InvalidPrefix + d[j].0))
        case None => Validation(true, None)
  }

  /** A mapping is valid exactly when it has an entry, an entry for each required
      property, and no transformation that throws on the sample value. */
  lemma ValidIff(m: ComponentMapping)
    ensures ValidatePropertyMappings(m).isValid <==>
              |m.propertyMappings| > 0 &&
              (forall i :: 0 <= i < |RequiredProperties| ==> RequiredProperties[i] in Keys(m.propertyMappings)) &&
              (forall j :: 0 <= j < |m.propertyMappings| ==> !Throws(m.propertyMappings[j].1))
  {
    MissingRequiredMembers(m.propertyMappings);
  }

  /** The reason an invalid mapping is given: the first failed check, in order. */
  lemma InvalidReasons(m: ComponentMapping)
    ensures |m.propertyMappings| == 0 ==> ValidatePropertyMappings(m).reason == Some(NoMappings)
    ensures |m.propertyMappings| > 0 && MissingRequired(m.propertyMappings) != [] ==>
              ValidatePropertyMappings(m).reason == Some(MissingPrefix + Join(MissingRequired(m.propertyMappings), ", "))
    ensures |m.propertyMappings| > 0 && MissingRequired(m.propertyMappings) == [] &&
            FirstThrowing(m.propertyMappings).Some? ==>
              ValidatePropertyMappings(m).reason ==
                Some(InvalidPrefix + m.propertyMappings[FirstThrowing(m.propertyMappings).value].0)
  {
  }

  /** A mapping below the confidence threshold is never checked. */
  predicate Skipped(m: ComponentMapping) {
    m.confidence < ConfidenceThreshold
  }

  /** The registry update a checked mapping receives. */
  function UpdateFor(m: ComponentMapping, now: string): MappingUpdate {
    var v := ValidatePropertyMappings(m);
    if v.isValid then MappingUpdate(None, None, None, None, Some(Validated), Some(now), None)
    else MappingUpdate(None, None, None, None, Some(Rejected), None, v.reason)
  }

  datatype DetailStatus = DetailValidated | DetailRejected | DetailSkipped

  datatype Detail = Detail(
    source: string,
    target: string,
    confidence: real,
    status: DetailStatus,
    reason: Option<string>)

  datatype Report = Report(
    total: nat,
    validated: nat,
    rejected: nat,
    skipped: nat,
    details: seq<Detail>)

  /** The report line for one pending mapping. */
  function DetailFor(m: ComponentMapping): Detail
  {
    if Skipped(m) then
      Detail(m.sourceComponent.name, m.targetComponent.name, m.confidence, DetailSkipped, Some(LowConfidence))
    else
      var v := ValidatePropertyMappings(m);
      Detail(m.sourceComponent.name, m.targetComponent.name, m.confidence,
             if v.isValid then DetailValidated else DetailRejected, v.reason)
  }

  /** A line names the mapping's components and confidence, and its status and
      reason follow the skip rule and the validation. */
  lemma DetailMeaning(m: ComponentMapping)
    ensures DetailFor(m).source == m.sourceComponent.name && DetailFor(m).target == m.targetComponent.name
    ensures DetailFor(m).confidence == m.confidence
    ensures DetailFor(m).status == DetailSkipped <==> Skipped(m)
    ensures DetailFor(m).status == DetailValidated <==> !Skipped(m) && ValidatePropertyMappings(m).isValid
    ensures Skipped(m) ==> DetailFor(m).reason == Some(LowConfidence)
    ensures DetailFor(m).status == DetailRejected ==> DetailFor(m).reason == ValidatePropertyMappings(m).reason && DetailFor(m).reason.Some?
  {
  }

  /** A report with one more line, counted under its status. */
  function Tally(report: Report, d: Detail): (r: Report)
    ensures r.total == report.total && r.details == report.details + [d]
    ensures forall st :: Counter(r, st) == Counter(report, st) + (if d.status == st then 1 else 0)
  {
    report.(validated := report.validated + (if d.status == DetailValidated then 1 else 0),
            rejected := report.rejected + (if d.status == DetailRejected then 1 else 0),
            skipped := report.skipped + (if d.status == DetailSkipped then 1 else 0),
            details := report.details + [d])
  }

  /** The counter a report keeps for status `st`. */
  function Counter(report: Report, st: DetailStatus): nat {
    match st
    case DetailValidated => report.validated
    case DetailRejected => report.rejected
    case DetailSkipped => report.skipped
  }

  /** The number of lines with status `st`. */
  function Count(details: seq<Detail>, st: DetailStatus): (n: nat)
    ensures n <= |details|
    decreases |details|
  {
    if details == [] then 0
    else Count(details[..|details| - 1], st) + (if details[|details| - 1].status == st then 1 else 0)
  }

  lemma CountSnoc(details: seq<Detail>, d: Detail, st: DetailStatus)
    ensures Count(details + [d], st) == Count(details, st) + (if d.status == st then 1 else 0)
  {
    assert (details + [d])[..|details|] == details;
  }

  /** Counting by status is counting the survivors of the status filter. */
  lemma {:induction false} CountIsFilter(details: seq<Detail>, st: DetailStatus)
    ensures Count(details, st) == |Filter(details, (d: Detail) => d.status == st)|
    decreases |details|
  {
    if details != [] {
      CountIsFilter(details[..|details| - 1], st);
    }
  }

  /** The three statuses partition the lines. */
  lemma {:induction false} CountsAddUp(details: seq<Detail>)
    ensures Count(details, DetailValidated) + Count(details, DetailRejected) + Count(details, DetailSkipped) == |details|
    decreases |details|
  {
    if details != [] {
      CountsAddUp(details[..|details| - 1]);
    }
  }

  /** What the report promises: one line per pending mapping, in order, and
      counters that count the lines by status and add up to the number of pending
      mappings. */
  predicate ReportsOn(report: Report, pending: seq<ComponentMapping>) {
    && report.total == |pending|
    && |report.details| == |pending|
    && (forall i :: 0 <= i < |pending| ==> report.details[i] == DetailFor(pending[i]))
    && (forall st :: Counter(report, st) == Count(report.details, st))
    && report.validated + report.rejected + report.skipped == report.total
  }

  /** The report lines of `ps`, in order. */
  function Details(ps: seq<ComponentMapping>): (r: seq<Detail>)
    ensures |r| == |ps|
  {
    if ps == [] then [] else Details(ps[..|ps| - 1]) + [DetailFor(ps[|ps| - 1])]
  }

  lemma {:induction false} DetailsAt(ps: seq<ComponentMapping>, i: nat)
    requires i < |ps|
    ensures Details(ps)[i] == DetailFor(ps[i])
    decreases |ps|
  {
    if i < |ps| - 1 {
      var init := ps[..|ps| - 1];
      DetailsAt(init, i);
      assert Details(ps)[i] == Details(init)[i];
    }
  }

  /** The report after the first `k` pending mappings: their lines, in order, and
      counters that agree with them. */
  predicate ReportSoFar(report: Report, pending: seq<ComponentMapping>, k: nat)
    requires k <= |pending|
  {
    && report.total == |pending|
    && report.details == Details(pending[..k])
    && (forall st :: Counter(report, st) == Count(report.details, st))
  }

  /** Recording the line of the next pending mapping extends the report by one. */
  lemma TallyStep(report: Report, pending: seq<ComponentMapping>, k: nat)
    requires k < |pending| && ReportSoFar(report, pending, k)
    ensures ReportSoFar(Tally(report, DetailFor(pending[k])), pending, k + 1)
  {
    forall st: DetailStatus {
      CountSnoc(report.details, DetailFor(pending[k]), st);
    }
    assert pending[..k + 1][..k] == pending[..k];
  }

  /** A report over every pending mapping reports on the whole list. */
  lemma ReportDone(report: Report, pending: seq<ComponentMapping>)
    requires ReportSoFar(report, pending, |pending|)
    ensures ReportsOn(report, pending)
  {
    CountsAddUp(report.details);
    assert pending[..|pending|] == pending;
    forall i | 0 <= i < |pending|
      ensures report.details[i] == DetailFor(pending[i])
    {
      DetailsAt(pending, i);
    }
  }

  /** The registry a validation run starts from. */
  function StartingRegistry(stored: Option<Registry>): Registry {
    if stored.Some? then stored.value else EmptyRegistry()
  }

  /** Some of the first `k` pending mappings is checked, so the loop has written to
      the registry and recomputed its metadata. */
  predicate AnyChecked(pending: seq<ComponentMapping>, k: nat)
    requires k <= |pending|
  {
    exists j :: 0 <= j < k && !Skipped(pending[j])
  }

  /** After the first `k` pending mappings the metadata is the starting one while
      none of them was checked, and recomputed once one was. */
  ghost predicate MetadataSoFar(service: RegistryService, before: Metadata, pending: seq<ComponentMapping>, k: nat)
    requires k <= |pending|
    reads service
  {
    if AnyChecked(pending, k) then service.Consistent() else service.metadata == before
  }

  /** What a turn of the loop does to a mapping's registry entry: nothing when the
      mapping is skipped, otherwise the update its validation calls for. */
  function Plan(m: ComponentMapping, now: string): Option<MappingUpdate> {
    if Skipped(m) then None else Some(UpdateFor(m, now))
  }

  function ApplyPlan(m: ComponentMapping, p: Option<MappingUpdate>): ComponentMapping {
    match p
    case None => m
    case Some(u) => MergeMapping(m, u)
  }

  /** The plans of the pending mappings, in order. */
  function Plans(pending: seq<ComponentMapping>, now: string): (r: seq<Option<MappingUpdate>>)
    ensures |r| == |pending|
  {
    if pending == [] then [] else Plans(pending[..|pending| - 1], now) + [Plan(pending[|pending| - 1], now)]
  }

  lemma {:induction false} PlansAt(pending: seq<ComponentMapping>, now: string, i: nat)
    requires i < |pending|
    ensures Plans(pending, now)[i] == Plan(pending[i], now)
    decreases |pending|
  {
    if i < |pending| - 1 {
      PlansAt(pending[..|pending| - 1], now, i);
    }
  }

  /** The entry a mapping is meant to end up as: pending mappings that reach the
      threshold receive their verdict; every other mapping stays as it is. */
  function Verdict(m: ComponentMapping, now: string): ComponentMapping {
    if IsPending(m) then ApplyPlan(m, Plan(m, now)) else m
  }

  /** A checked mapping keeps its components, property mappings and confidence and
      takes the status its validation gives; the others are untouched. */
  lemma VerdictMeaning(m: ComponentMapping, now: string)
    ensures !IsPending(m) || Skipped(m) ==> Verdict(m, now) == m
    ensures IsPending(m) && !Skipped(m) ==>
              var r := Verdict(m, now);
              && r.sourceComponent == m.sourceComponent && r.targetComponent == m.targetComponent
              && r.propertyMappings == m.propertyMappings && r.confidence == m.confidence
              && r.validationStatus == (if ValidatePropertyMappings(m).isValid then Validated else Rejected)
              && r.notes == (if ValidatePropertyMappings(m).isValid then m.notes else ValidatePropertyMappings(m).reason)
  {
  }

  /** The mappings after the first `n` plans are carried out as written: plan
      `j` lands on registry position `j`, the mapping's position in the pending
      list. */
  function AppliedAsWritten(ms: seq<ComponentMapping>, plans: seq<Option<MappingUpdate>>, n: nat)
    : (r: seq<ComponentMapping>)
    requires n <= |plans| <= |ms|
    ensures |r| == |ms|
  {
    if n == 0 then ms
    else
      var prev := AppliedAsWritten(ms, plans, n - 1);
      prev[n - 1 := ApplyPlan(prev[n - 1], plans[n - 1])]
  }

  /** `ms` with plan `j` carried out at position `ps[j]`, for the first `n` plans. */
  function Overlay(ms: seq<ComponentMapping>, ps: seq<nat>, plans: seq<Option<MappingUpdate>>, n: nat)
    : (r: seq<ComponentMapping>)
    requires n <= |ps| == |plans|
    requires forall j :: 0 <= j < |ps| ==> ps[j] < |ms|
    ensures |r| == |ms|
  {
    if n == 0 then ms
    else
      var prev := Overlay(ms, ps, plans, n - 1);
      prev[ps[n - 1] := ApplyPlan(prev[ps[n - 1]], plans[n - 1])]
  }

  /** With distinct positions, each position holds its own plan's result, or its
      original entry when no plan names it. */
  lemma {:induction false} OverlayAt(ms: seq<ComponentMapping>, ps: seq<nat>, plans: seq<Option<MappingUpdate>>, n: nat, i: nat)
    requires n <= |ps| == |plans|
    requires forall j :: 0 <= j < |ps| ==> ps[j] < |ms|
    requires forall j, j' :: 0 <= j < j' < |ps| ==> ps[j] < ps[j']
    requires i < |ms|
    ensures (forall j :: 0 <= j < n ==> ps[j] != i) ==> Overlay(ms, ps, plans, n)[i] == ms[i]
    ensures forall j :: 0 <= j < n && ps[j] == i ==> Overlay(ms, ps, plans, n)[i] == ApplyPlan(ms[i], plans[j])
    decreases n
  {
    if n > 0 {
      OverlayAt(ms, ps, plans, n - 1, i);
    }
  }

  /** The mappings after the corrected run: each mapping ends up as its verdict. */
  function AppliedCorrected(ms: seq<ComponentMapping>, now: string): (r: seq<ComponentMapping>)
    ensures |r| == |ms|
    ensures forall i :: 0 <= i < |ms| ==> r[i] == Verdict(ms[i], now)
  {
    seq(|ms|, i requires 0 <= i < |ms| => Verdict(ms[i], now))
  }

  /** Carrying out each pending mapping's plan at its own registry position gives
      every mapping its verdict. */
  lemma OverlayIsCorrected(ms: seq<ComponentMapping>, now: string)
    ensures var positions := FilterIndices(ms, IsPending);
            var pending := Filter(ms, IsPending);
            |positions| == |pending| &&
            Overlay(ms, positions, Plans(pending, now), |pending|) == AppliedCorrected(ms, now)
  {
    var positions := FilterIndices(ms, IsPending);
    var pending := Filter(ms, IsPending);
    FilterIndicesSelect(ms, IsPending);
    var plans := Plans(pending, now);
    forall i | 0 <= i < |ms|
      ensures Overlay(ms, positions, plans, |pending|)[i] == Verdict(ms[i], now)
    {
      OverlayAt(ms, positions, plans, |positions|, i);
      if IsPending(ms[i]) {
        var j :| 0 <= j < |positions| && positions[j] == i;
        PlansAt(pending, now, j);
      }
    }
  }

  /** One turn of the loop: `mapping` is skipped, or checked and its verdict written
      to registry position `index`; the report gains its line and one count. */
  method ValidateOne(service: RegistryService, mapping: ComponentMapping, index: int, now: string, report: Report)
    returns (next: Report)
    requires service.loaded && 0 <= index < |service.mappings|
    modifies service
    ensures service.loaded && service.version == old(service.version) && service.components == old(service.components)
    ensures service.mappings == old(service.mappings)[index := ApplyPlan(old(service.mappings)[index], Plan(mapping, now))]
    ensures Skipped(mapping) ==> service.mappings == old(service.mappings) && service.metadata == old(service.metadata)
    ensures !Skipped(mapping) ==> service.Consistent()
    ensures next == Tally(report, DetailFor(mapping))
  {
    var detail := DetailFor(mapping);
    if mapping.confidence < ConfidenceThreshold {
      assert detail.status == DetailSkipped;
      next := report.(skipped := report.skipped + 1, details := report.details + [detail]);
      assert service.mappings == service.mappings[index := service.mappings[index]];
      return;
    }
    var validation := ValidatePropertyMappings(mapping);
    if validation.isValid {
      assert detail.status == DetailValidated;
      var _ := service.UpdateMapping(index, MappingUpdate(None, None, None, None, Some(Validated), Some(now), None));
      next := report.(validated := report.validated + 1, details := report.details + [detail]);
    } else {
      assert detail.status == DetailRejected;
      var _ := service.UpdateMapping(index, MappingUpdate(None, None, None, None, Some(Rejected), None, validation.reason));
      next := report.(rejected := report.rejected + 1, details := report.details + [detail]);
    }
  }

  lemma AsWrittenStep(ms: seq<ComponentMapping>, pending: seq<ComponentMapping>, now: string, k: nat)
    requires k < |pending| <= |ms|
    ensures AppliedAsWritten(ms, Plans(pending, now), k + 1)
            == AppliedAsWritten(ms, Plans(pending, now), k)[k := ApplyPlan(AppliedAsWritten(ms, Plans(pending, now), k)[k], Plan(pending[k], now))]
  {
    PlansAt(pending, now, k);
  }

  /** Adding mapping `k` to the ones looked at adds a check exactly when it is not
      skipped. */
  lemma CheckedStep(pending: seq<ComponentMapping>, k: nat)
    requires k < |pending|
    ensures AnyChecked(pending, k + 1) <==> AnyChecked(pending, k) || !Skipped(pending[k])
  {
  }

  /** One turn of the loop as written, on pending mapping `k` and registry position `k`. */
  method AsWrittenTurn(service: RegistryService, ghost start: seq<ComponentMapping>, ghost before: Metadata,
                       pending: seq<ComponentMapping>, now: string, k: nat, report: Report)
    returns (next: Report)
    requires service.loaded && k < |pending| <= |start|
    requires service.mappings == AppliedAsWritten(start, Plans(pending, now), k)
    requires ReportSoFar(report, pending, k) && MetadataSoFar(service, before, pending, k)
    modifies service
    ensures service.loaded && service.version == old(service.version) && service.components == old(service.components)
    ensures service.mappings == AppliedAsWritten(start, Plans(pending, now), k + 1)
    ensures ReportSoFar(next, pending, k + 1) && MetadataSoFar(service, before, pending, k + 1)
  {
    TallyStep(report, pending, k);
    AsWrittenStep(start, pending, now, k);
    next := ValidateOne(service, pending[k], k, now, report);
    CheckedStep(pending, k);
  }

  /** The loop as written: the update for `pending[k]` goes to registry position `k`,
      its position in the pending list (`pendingMappings.indexOf(mapping)`). */
  method CheckAsWritten(service: RegistryService, pending: seq<ComponentMapping>, now: string) returns (report: Report)
    requires service.loaded && |pending| <= |service.mappings|
    modifies service
    ensures service.loaded && service.version == old(service.version) && service.components == old(service.components)
    ensures service.mappings == AppliedAsWritten(old(service.mappings), Plans(pending, now), |pending|)
    ensures !AnyChecked(pending, |pending|) ==> service.metadata == old(service.metadata)
    ensures AnyChecked(pending, |pending|) ==> service.Consistent()
    ensures ReportsOn(report, pending)
  {
    ghost var start := service.mappings;
    ghost var plans := Plans(pending, now);
    report := Report(|pending|, 0, 0, 0, []);
    var k := 0;
    while k < |pending|
      invariant 0 <= k <= |pending| <= |start|
      invariant service.loaded
      invariant service.version == old(service.version) && service.components == old(service.components)
      invariant service.mappings == AppliedAsWritten(start, plans, k)
      invariant MetadataSoFar(service, old(service.metadata), pending, k)
      invariant ReportSoFar(report, pending, k)
    {
      report := AsWrittenTurn(service, start, old(service.metadata), pending, now, k, report);
      k := k + 1;
    }
    ReportDone(report, pending);
  }

  lemma OverlayStep(ms: seq<ComponentMapping>, pending: seq<ComponentMapping>, ps: seq<nat>, now: string, k: nat)
    requires k < |pending| == |ps|
    requires forall j :: 0 <= j < |ps| ==> ps[j] < |ms|
    ensures Overlay(ms, ps, Plans(pending, now), k + 1)
            == Overlay(ms, ps, Plans(pending, now), k)[ps[k] := ApplyPlan(Overlay(ms, ps, Plans(pending, now), k)[ps[k]], Plan(pending[k], now))]
  {
    PlansAt(pending, now, k);
  }

  /** The loop with each update written to the registry position `positions[k]` of
      the pending mapping it is about. */
  method CheckAt(service: RegistryService, pending: seq<ComponentMapping>, positions: seq<nat>, now: string)
    returns (report: Report)
    requires service.loaded && |positions| == |pending|
    requires forall j :: 0 <= j < |positions| ==> positions[j] < |service.mappings|
    modifies service
    ensures service.loaded && service.version == old(service.version) && service.components == old(service.components)
    ensures service.mappings == Overlay(old(service.mappings), positions, Plans(pending, now), |pending|)
    ensures !AnyChecked(pending, |pending|) ==> service.metadata == old(service.metadata)
    ensures AnyChecked(pending, |pending|) ==> service.Consistent()
    ensures ReportsOn(report, pending)
  {
    ghost var start := service.mappings;
    ghost var plans := Plans(pending, now);
    report := Report(|pending|, 0, 0, 0, []);
    var k := 0;
    while k < |pending|
      invariant 0 <= k <= |pending|
      invariant service.loaded
      invariant service.version == old(service.version) && service.components == old(service.components)
      invariant service.mappings == Overlay(start, positions, plans, k)
      invariant MetadataSoFar(service, old(service.metadata), pending, k)
      invariant ReportSoFar(report, pending, k)
    {
      TallyStep(report, pending, k);
      OverlayStep(start, pending, positions, now, k);
      report := ValidateOne(service, pending[k], positions[k], now, report);
      CheckedStep(pending, k);
      k := k + 1;
    }
    ReportDone(report, pending);
  }

  /** `validateMappings` as written: the pending mappings are taken in registry order,
      but each update lands on the mapping's position in the pending list. */
  method ValidateMappingsAsWritten(stored: Option<Registry>, now: string) returns (report: Report, result: Registry)
    ensures ReportsOn(report, Filter(StartingRegistry(stored).mappings, IsPending))
    ensures result.components == StartingRegistry(stored).components
    ensures result.version == StartingRegistry(stored).version
    ensures result.mappings ==
              AppliedAsWritten(StartingRegistry(stored).mappings, Plans(Filter(StartingRegistry(stored).mappings, IsPending), now),
                               |Filter(StartingRegistry(stored).mappings, IsPending)|)
    ensures var pending := Filter(StartingRegistry(stored).mappings, IsPending);
            result.metadata ==
              if AnyChecked(pending, |pending|) then MetadataOf(result.components, result.mappings)
              else StartingRegistry(stored).metadata
  {
    var service := new RegistryService();
    service.Initialize(stored);
    var pendingResult := service.GetPendingMappings();
    var pending := pendingResult.value;
    report := CheckAsWritten(service, pending, now);
    result := service.Snapshot();
  }

  /** `validateMappings` with each update written to the mapping it is about: every
      mapping of the registry ends up as its verdict. */
  method ValidateMappings(stored: Option<Registry>, now: string) returns (report: Report, result: Registry)
    ensures ReportsOn(report, Filter(StartingRegistry(stored).mappings, IsPending))
    ensures result.components == StartingRegistry(stored).components
    ensures result.version == StartingRegistry(stored).version
    ensures result.mappings == AppliedCorrected(StartingRegistry(stored).mappings, now)
    ensures var pending := Filter(StartingRegistry(stored).mappings, IsPending);
            result.metadata ==
              if AnyChecked(pending, |pending|) then MetadataOf(result.components, result.mappings)
              else StartingRegistry(stored).metadata
  {
    var service := new RegistryService();
    service.Initialize(stored);
    ghost var start := StartingRegistry(stored);
    var pendingResult := service.GetPendingMappings();
    var pending := pendingResult.value;
    var positions := FilterIndices(service.mappings, IsPending);
    FilterIndicesSelect(start.mappings, IsPending);
    report := CheckAt(service, pending, positions, now);
    OverlayIsCorrected(start.mappings, now);
    result := service.Snapshot();
  }

  /** The deprecated Button to Action mapping the repository ships as a fixture:
      a translating `variant` table and plain `size` and `state` entries. */
  function ButtonToAction(): ComponentMapping {
    var table := map["primary" := "primary", "secondary" := "secondary", "tertiary" := "tertiary", "danger" := "danger"];
    var entries := [
      ("variant", PropertyMapping("variant", Some(Transform(table, {})), Some("Maps Button variants to Action variants"))),
      ("size", PropertyMapping("size", None, Some("Direct mapping of size property"))),
      ("state", PropertyMapping("state", None, Some("Direct mapping of state property")))];
    assert |entries[0].0| == 7 && |entries[1].0| == 4 && |entries[2].0| == 5;
    ComponentMapping(
      ComponentRef("DEPRECATED_BUTTON_ID", ".\U{1F534} Button", "DEPRECATED_BUTTON_KEY"),
      ComponentRef("ACTION_COMPONENT_ID", "\U{1F7E2} Action", "ACTION_COMPONENT_KEY"),
      entries, 100.0, Pending, None, None)
  }

  /** The fixture passes every check and is marked validated. */
  lemma ButtonToActionValidates(now: string)
    ensures ValidatePropertyMappings(ButtonToAction()) == Validation(true, None)
    ensures DetailFor(ButtonToAction()).status == DetailValidated
    ensures Verdict(ButtonToAction(), now).validationStatus == Validated
    ensures Verdict(ButtonToAction(), now).lastValidated == Some(now)
  {
    var d := ButtonToAction().propertyMappings;
    assert Get(d, "variant").Some? by { assert d[0].0 == "variant"; }
    assert Get(d, "size").Some? by { assert d[1].0 == "size"; }
    assert Get(d, "state").Some? by { assert d[2].0 == "state"; }
    assert FirstThrowing(d).None?;
  }

  /** A copy of the fixture with another status and source id. */
  function FixtureWith(id: string, status: Status): ComponentMapping {
    ButtonToAction().(sourceComponent := ButtonToAction().sourceComponent.(id := id), validationStatus := status)
  }

  /** A registry holding a rejected mapping followed by a pending one: the run as
      written marks the rejected mapping validated and leaves the pending one
      pending; the corrected run validates the pending one and leaves the other. */
  lemma AsWrittenMisplacesVerdict(now: string)
    ensures var ms := [FixtureWith("A", Rejected), FixtureWith("B", Pending)];
            var pending := Filter(ms, IsPending);
            var written := AppliedAsWritten(ms, Plans(pending, now), |pending|);
            && written[0].validationStatus == Validated && written[1].validationStatus == Pending
            && AppliedCorrected(ms, now)[0].validationStatus == Rejected
            && AppliedCorrected(ms, now)[1].validationStatus == Validated
  {
    var ms := [FixtureWith("A", Rejected), FixtureWith("B", Pending)];
    ButtonToActionValidates(now);
    assert ms[..1] == [FixtureWith("A", Rejected)];
    assert Filter(ms, IsPending) == [FixtureWith("B", Pending)];
    PlansAt([FixtureWith("B", Pending)], now, 0);
    assert ValidatePropertyMappings(FixtureWith("B", Pending)) == ValidatePropertyMappings(ButtonToAction());
  }
}
