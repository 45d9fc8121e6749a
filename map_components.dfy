/** Proposing replacements: every deprecated component without a replacement is
    scored against the current components (name, property and variant similarity),
    the candidates above 30 are ranked by score, and a pending mapping to the best
    one is added to the registry. */
module MapComponents {
  import opened Wrappers
  import opened Seqs
  import opened Strings
  import opened Dicts
  import opened RegistryTypes
  import opened RegistryStore

  /** A JavaScript number as the scoring uses it: a real value, or `NaN` (from 0/0). */
  datatype Number = Finite(value: real) | NaN

  function Plus(a: Number, b: Number): Number {
    if a.Finite? && b.Finite? then Finite(a.value + b.value) else NaN
  }

  function Times(a: Number, k: real): Number {
    if a.Finite? then Finite(a.value * k) else NaN
  }

  /** `common / total`, called only with `common <= total`, so the one division by
      zero is 0/0. */
  function Ratio(common: nat, total: nat): Number
    requires common <= total
  {
    if total == 0 then NaN else Finite(common as real / total as real)
  }

  /** `n > bound`; a comparison with `NaN` is false. */
  predicate Above(n: Number, bound: real) {
    n.Finite? && n.value > bound
  }

  const NameWeight: real := 40.0
  const PropertyWeight: real := 40.0
  const VariantWeight: real := 20.0
  const CandidateThreshold: real := 30.0

  predicate IsNameChar(c: char) {
    'a' <= c <= 'z' || '0' <= c <= '9'
  }

  /** `name.toLowerCase().replace(/[^a-z0-9]/g, '')`. */
  function NormalizeName(s: string): string {
    Filter(ToLower(s), IsNameChar)
  }

  /** The keys of `a` that `b` also has, in the order of `a`. */
  function CommonKeys(a: seq<string>, b: seq<string>): (r: seq<string>)
    ensures |r| <= |a|
  {
    Filter(a, (k: string) => k in b)
  }

  function Max(a: nat, b: nat): nat {
    if a < b then b else a
  }

  function NameScore(d: ComponentMetadata, c: ComponentMetadata): real {
    var dn := NormalizeName(d.name);
    var cn := NormalizeName(c.name);
    if Contains(cn, dn) || Contains(dn, cn) then NameWeight else 0.0
  }

  function PropertyScore(d: ComponentMetadata, c: ComponentMetadata): Number {
    var dp := Keys(d.properties);
    var cp := Keys(c.properties);
    Times(Ratio(|CommonKeys(dp, cp)|, Max(|dp|, |cp|)), PropertyWeight)
  }

  /** Counted only when both components have `variants` (an empty object counts). */
  function VariantScore(d: ComponentMetadata, c: ComponentMetadata): Number {
    if d.variants.Some? && c.variants.Some? then
      var dv := Keys(d.variants.value);
      var cv := Keys(c.variants.value);
      Times(Ratio(|CommonKeys(dv, cv)|, Max(|dv|, |cv|)), VariantWeight)
    else Finite(0.0)
  }

  /** The confidence that `c` replaces `d`. */
  function Score(d: ComponentMetadata, c: ComponentMetadata): Number {
    Plus(Plus(Finite(NameScore(d, c)), PropertyScore(d, c)), VariantScore(d, c))
  }

  lemma RatioBounds(common: nat, total: nat)
    requires common <= total
    ensures Ratio(common, total).Finite? ==> 0.0 <= Ratio(common, total).value <= 1.0
  {
    if total > 0 {
      assert common as real <= total as real;
    }
  }

  /** A score is `NaN` exactly when neither component has a property, or both have
      `variants` and neither has a variant key; otherwise it lies in 0..100. */
  lemma ScoreBounds(d: ComponentMetadata, c: ComponentMetadata)
    ensures Score(d, c).NaN? <==>
              (|d.properties| == 0 && |c.properties| == 0) ||
              (d.variants.Some? && c.variants.Some? && |d.variants.value| == 0 && |c.variants.value| == 0)
    ensures Score(d, c).Finite? ==> 0.0 <= Score(d, c).value <= 100.0
  {
    var dp := Keys(d.properties);
    var cp := Keys(c.properties);
    RatioBounds(|CommonKeys(dp, cp)|, Max(|dp|, |cp|));
    if d.variants.Some? && c.variants.Some? {
      var dv := Keys(d.variants.value);
      var cv := Keys(c.variants.value);
      RatioBounds(|CommonKeys(dv, cv)|, Max(|dv|, |cv|));
    }
  }

  /** Components with the same normalised name always share the name part. */
  lemma SameNameScores(d: ComponentMetadata, c: ComponentMetadata)
    requires NormalizeName(d.name) == NormalizeName(c.name)
    ensures NameScore(d, c) == NameWeight
  {
    assert OccursAt(NormalizeName(c.name), NormalizeName(d.name), 0);
  }

  datatype PotentialReplacement = PotentialReplacement(
    id: string,
    name: string,
    key: string,
    confidence: real,
    component: ComponentMetadata)

  /** The candidate a component makes: itself with its score, when the score is
      above the threshold. */
  function CandidateOf(d: ComponentMetadata): ComponentMetadata -> Option<PotentialReplacement> {
    (c: ComponentMetadata) =>
      var score := Score(d, c);
      if Above(score, CandidateThreshold) then Some(PotentialReplacement(c.id, c.name, c.key, score.value, c)) else None
  }

  lemma CandidateOfMeaning(d: ComponentMetadata, c: ComponentMetadata)
    ensures CandidateOf(d)(c).Some? <==> Above(Score(d, c), CandidateThreshold)
    ensures CandidateOf(d)(c).Some? ==>
              var r := CandidateOf(d)(c).value;
              r.component == c && Score(d, c) == Finite(r.confidence) &&
              r.id == c.id && r.name == c.name && r.key == c.key
  {
  }

  /** One more component of the pool, scored `score`. */
  lemma CandidatesStep(d: ComponentMetadata, cs: seq<ComponentMetadata>, i: nat, score: Number)
    requires i < |cs| && score == Score(d, cs[i])
    ensures Collect(cs[..i + 1], CandidateOf(d)) ==
              Collect(cs[..i], CandidateOf(d)) +
              if Above(score, CandidateThreshold) then [PotentialReplacement(cs[i].id, cs[i].name, cs[i].key, score.value, cs[i])] else []
  {
    var next := cs[..i + 1];
    assert next[..|next| - 1] == cs[..i] && next[|next| - 1] == cs[i];
  }

  /** Non-increasing confidence. */
  predicate Ranked(rs: seq<PotentialReplacement>) {
    forall i, j :: 0 <= i < j < |rs| ==> rs[i].confidence >= rs[j].confidence
  }

  /** Inserting `x` after every element with at least its confidence, which keeps
      equal confidences in arrival order, as the stable `Array.prototype.sort` does
      with the comparator `b.confidence - a.confidence`. */
  function Insert(rs: seq<PotentialReplacement>, x: PotentialReplacement): (r: seq<PotentialReplacement>)
    ensures multiset(r) == multiset(rs) + multiset{x}
    decreases |rs|
  {
    if rs == [] then [x]
    else if rs[0].confidence >= x.confidence then
      assert rs == [rs[0]] + rs[1..];
      [rs[0]] + Insert(rs[1..], x)
    else [x] + rs
  }

  lemma {:induction false} InsertRanked(rs: seq<PotentialReplacement>, x: PotentialReplacement)
    requires Ranked(rs)
    ensures Ranked(Insert(rs, x))
    ensures |Insert(rs, x)| == |rs| + 1
    ensures Insert(rs, x)[0] == (if rs != [] && rs[0].confidence >= x.confidence then rs[0] else x)
    decreases |rs|
  {
    if rs != [] && rs[0].confidence >= x.confidence {
      InsertRanked(rs[1..], x);
      if |rs| > 1 {
        assert rs[1..][0] == rs[1];
      }
      RankedCons(rs[0], Insert(rs[1..], x));
    } else if rs != [] {
      RankedCons(x, rs);
    }
  }

  /** A ranked list stays ranked under a head with at least its first confidence. */
  lemma RankedCons(a: PotentialReplacement, rs: seq<PotentialReplacement>)
    requires Ranked(rs) && (rs != [] ==> rs[0].confidence <= a.confidence)
    ensures Ranked([a] + rs)
  {
    var r := [a] + rs;
    forall i, j | 0 <= i < j < |r|
      ensures r[i].confidence >= r[j].confidence
    {
      assert r[j] == rs[j - 1];
      if i > 0 {
        assert r[i] == rs[i - 1];
      }
    }
  }

  /** `replacements.sort((a, b) => b.confidence - a.confidence)`. */
  function SortByConfidence(rs: seq<PotentialReplacement>): (r: seq<PotentialReplacement>)
    ensures multiset(r) == multiset(rs)
    ensures |r| == |rs|
    decreases |rs|
  {
    if rs == [] then []
    else
      var pre := rs[..|rs| - 1];
      assert rs == pre + [rs[|rs| - 1]];
      assert multiset(rs) == multiset(pre) + multiset{rs[|rs| - 1]};
      Insert(SortByConfidence(pre), rs[|rs| - 1])
  }

  /** The sort returns the same candidates, ranked. */
  lemma {:induction false} SortByConfidenceMeaning(rs: seq<PotentialReplacement>)
    ensures multiset(SortByConfidence(rs)) == multiset(rs)
    ensures |SortByConfidence(rs)| == |rs|
    ensures Ranked(SortByConfidence(rs))
    decreases |rs|
  {
    if rs != [] {
      var pre := rs[..|rs| - 1];
      SortByConfidenceMeaning(pre);
      InsertRanked(SortByConfidence(pre), rs[|rs| - 1]);
    }
  }

  /** What `findPotentialReplacements` returns for a pool of components. */
  function Replacements(d: ComponentMetadata, pool: seq<ComponentMetadata>): seq<PotentialReplacement> {
    SortByConfidence(Collect(Filter(pool, NotDeprecated), CandidateOf(d)))
  }

  /** Each entry of the list is a current component of the pool, with its score,
      which is above the threshold. */
  lemma ReplacementsSound(d: ComponentMetadata, pool: seq<ComponentMetadata>, i: nat)
    requires i < |Replacements(d, pool)|
    ensures var r := Replacements(d, pool)[i];
            r.component in pool && NotDeprecated(r.component) &&
            Score(d, r.component) == Finite(r.confidence) && r.confidence > CandidateThreshold &&
            r.id == r.component.id && r.name == r.component.name && r.key == r.component.key
  {
    var current := Filter(pool, NotDeprecated);
    var cands := Collect(current, CandidateOf(d));
    var rs := Replacements(d, pool);
    CollectMeaning(current, CandidateOf(d));
    SortByConfidenceMeaning(cands);
    FilterSubMultiset(pool, NotDeprecated);
    assert rs[i] in multiset(cands);
    var j :| 0 <= j < |current| && CandidateOf(d)(current[j]) == Some(rs[i]);
    CandidateOfMeaning(d, current[j]);
    assert current[j] in multiset(current);
  }

  /** Every current component of the pool scoring above the threshold is listed. */
  lemma ReplacementsComplete(d: ComponentMetadata, pool: seq<ComponentMetadata>, j: nat)
    requires j < |pool| && NotDeprecated(pool[j]) && Above(Score(d, pool[j]), CandidateThreshold)
    ensures exists i :: 0 <= i < |Replacements(d, pool)| && Replacements(d, pool)[i].component == pool[j]
  {
    var current := Filter(pool, NotDeprecated);
    assert pool[j] in current by {
      FilterKeeps(pool, NotDeprecated);
    }
    CandidateListed(d, current, pool[j]);
    assert Replacements(d, pool) == SortByConfidence(Collect(current, CandidateOf(d)));
  }

  /** A component of the scored list that scores above the threshold ends up in the
      ranked candidates. */
  lemma CandidateListed(d: ComponentMetadata, current: seq<ComponentMetadata>, c: ComponentMetadata)
    requires c in current && Above(Score(d, c), CandidateThreshold)
    ensures exists i :: 0 <= i < |SortByConfidence(Collect(current, CandidateOf(d)))| &&
              SortByConfidence(Collect(current, CandidateOf(d)))[i].component == c
  {
    var cands := Collect(current, CandidateOf(d));
    var rs := SortByConfidence(cands);
    var jj :| 0 <= jj < |current| && current[jj] == c;
    CandidateOfMeaning(d, c);
    var r := CandidateOf(d)(c).value;
    assert r in cands by {
      CollectHas(current, CandidateOf(d), jj);
    }
    assert r in multiset(rs);
    var i :| 0 <= i < |rs| && rs[i] == r;
  }

  /** The list is ranked, and its head scores at least as high as every current
      component of the pool. */
  lemma ReplacementsRanked(d: ComponentMetadata, pool: seq<ComponentMetadata>)
    ensures Ranked(Replacements(d, pool))
    ensures Replacements(d, pool) != [] ==>
              forall j :: 0 <= j < |pool| && NotDeprecated(pool[j]) && Score(d, pool[j]).Finite? ==>
                Score(d, pool[j]).value <= Replacements(d, pool)[0].confidence
  {
    var rs := Replacements(d, pool);
    SortByConfidenceMeaning(Collect(Filter(pool, NotDeprecated), CandidateOf(d)));
    if rs != [] {
      ReplacementsSound(d, pool, 0);
      forall j | 0 <= j < |pool| && NotDeprecated(pool[j]) && Score(d, pool[j]).Finite?
        ensures Score(d, pool[j]).value <= rs[0].confidence
      {
        if Score(d, pool[j]).value > CandidateThreshold {
          ReplacementsComplete(d, pool, j);
          var i :| 0 <= i < |rs| && rs[i].component == pool[j];
          ReplacementsSound(d, pool, i);
        }
      }
    }
  }

  /** The body of the scoring loop of `findPotentialReplacements`: the confidence
      built up step by step. */
  method ScoreOf(deprecated: ComponentMetadata, component: ComponentMetadata) returns (confidence: Number)
    ensures confidence == Score(deprecated, component)
  {
    confidence := Finite(0.0);
    var deprecatedName := NormalizeName(deprecated.name);
    var componentName := NormalizeName(component.name);
    if Contains(componentName, deprecatedName) || Contains(deprecatedName, componentName) {
      confidence := Plus(confidence, Finite(NameWeight));
    }
    var deprecatedProps := Keys(deprecated.properties);
    var componentProps := Keys(component.properties);
    var commonProps := CommonKeys(deprecatedProps, componentProps);
    confidence := Plus(confidence, Times(Ratio(|commonProps|, Max(|deprecatedProps|, |componentProps|)), PropertyWeight));
    if deprecated.variants.Some? && component.variants.Some? {
      var deprecatedVariantKeys := Keys(deprecated.variants.value);
      var componentVariantKeys := Keys(component.variants.value);
      var commonVariants := CommonKeys(deprecatedVariantKeys, componentVariantKeys);
      confidence := Plus(confidence,
        Times(Ratio(|commonVariants|, Max(|deprecatedVariantKeys|, |componentVariantKeys|)), VariantWeight));
    }
  }

  /** `findPotentialReplacements`, given the pool of components it reads. */
  method FindPotentialReplacements(deprecated: ComponentMetadata, pool: seq<ComponentMetadata>)
    returns (replacements: seq<PotentialReplacement>)
    ensures replacements == Replacements(deprecated, pool)
  {
    var nonDeprecated := Filter(pool, NotDeprecated);
    var found: seq<PotentialReplacement> := [];
    for i := 0 to |nonDeprecated|
      invariant found == Collect(nonDeprecated[..i], CandidateOf(deprecated))
    {
      var component := nonDeprecated[i];
      var confidence := ScoreOf(deprecated, component);
      CandidatesStep(deprecated, nonDeprecated, i, confidence);
      if Above(confidence, CandidateThreshold) {
        found := found + [PotentialReplacement(component.id, component.name, component.key, confidence.value, component)];
      }
    }
    assert nonDeprecated[..|nonDeprecated|] == nonDeprecated;
    replacements := SortByConfidence(found);
  }

  /** The `variant` transformation for Button to Action names. */
  const VariantTable := map["primary" := "primary", "secondary" := "secondary", "tertiary" := "tertiary", "danger" := "danger"]
  const VariantTransform := Transform(VariantTable, {})

  /** The variant transformation returns every value unchanged and never throws. */
  lemma VariantTransformIdentity(v: string)
    ensures Apply(VariantTransform, v) == Some(v)
  {
    if v in VariantTable {
      assert VariantTable[v] == v;
    }
  }

  function DirectEntry(p: string): PropertyMapping {
    PropertyMapping(p, None, Some("Direct mapping of " + p))
  }

  const VariantEntry := PropertyMapping("variant", Some(VariantTransform), Some("Maps Button variants to Action variants"))

  predicate IsButtonToAction(source: ComponentMetadata, target: ComponentMetadata) {
    Contains(source.name, "Button") && Contains(target.name, "Action")
  }

  /** The identity entries for the keys of `keys` that the target also has. */
  function DirectEntries(keys: seq<string>, target: ComponentMetadata): seq<(string, PropertyMapping)>
    decreases |keys|
  {
    if keys == [] then []
    else
      var p := keys[|keys| - 1];
      DirectEntries(keys[..|keys| - 1], target) + (if p in Keys(target.properties) then [(p, DirectEntry(p))] else [])
  }

  /** The property mappings proposed for `source` to `target`. */
  function GeneratedMappings(source: ComponentMetadata, target: ComponentMetadata): Dict<PropertyMapping> {
    var direct := PutAll([], DirectEntries(Keys(source.properties), target));
    if IsButtonToAction(source, target) then Put(direct, "variant", VariantEntry) else direct
  }

  /** `generatePropertyMappings`. */
  method GeneratePropertyMappings(source: ComponentMetadata, target: ComponentMetadata)
    returns (mappings: Dict<PropertyMapping>)
    ensures mappings == GeneratedMappings(source, target)
  {
    mappings := [];
    var props := Keys(source.properties);
    for i := 0 to |props|
      invariant mappings == PutAll([], DirectEntries(props[..i], target))
    {
      var prop := props[i];
      DirectEntriesStep(props, i, target);
      if Get(target.properties, prop).Some? {
        PutAllSnoc([], DirectEntries(props[..i], target), (prop, DirectEntry(prop)));
        mappings := Put(mappings, prop, DirectEntry(prop));
      } else {
        assert DirectEntries(props[..i], target) + [] == DirectEntries(props[..i], target);
      }
    }
    assert props[..|props|] == props;
    if Contains(source.name, "Button") && Contains(target.name, "Action") {
      mappings := Put(mappings, "variant", VariantEntry);
    }
  }

  lemma DirectEntriesStep(props: seq<string>, i: nat, target: ComponentMetadata)
    requires i < |props|
    ensures DirectEntries(props[..i + 1], target) ==
              DirectEntries(props[..i], target) + (if props[i] in Keys(target.properties) then [(props[i], DirectEntry(props[i]))] else [])
  {
    var next := props[..i + 1];
    assert next[..|next| - 1] == props[..i] && next[|next| - 1] == props[i];
  }

  lemma {:induction false} DirectEntriesLast(keys: seq<string>, target: ComponentMetadata, p: string)
    ensures LastValue(DirectEntries(keys, target), p) ==
              if p in keys && p in Keys(target.properties) then Some(DirectEntry(p)) else None
    decreases |keys|
  {
    if keys != [] {
      var pre := keys[..|keys| - 1];
      var last := keys[|keys| - 1];
      DirectEntriesLast(pre, target, p);
      assert keys == pre + [last];
      assert p in keys <==> p in pre || p == last;
      if last in Keys(target.properties) {
        var once := DirectEntries(pre, target) + [(last, DirectEntry(last))];
        assert once[..|once| - 1] == DirectEntries(pre, target) && once[|once| - 1] == (last, DirectEntry(last));
      } else {
        assert DirectEntries(keys, target) == DirectEntries(pre, target) + [];
        assert DirectEntries(pre, target) + [] == DirectEntries(pre, target);
      }
    }
  }

  /** A property the two components share maps to itself; no other property is
      mapped, except `variant`, which Button to Action names map through the
      variant table. */
  lemma GeneratedMappingsMeaning(source: ComponentMetadata, target: ComponentMetadata, p: string)
    ensures IsButtonToAction(source, target) ==> Get(GeneratedMappings(source, target), "variant") == Some(VariantEntry)
    ensures !IsButtonToAction(source, target) || p != "variant" ==>
              Get(GeneratedMappings(source, target), p) ==
                if p in Keys(source.properties) && p in Keys(target.properties) then Some(DirectEntry(p)) else None
  {
    PutAllGet([], DirectEntries(Keys(source.properties), target), p);
    DirectEntriesLast(Keys(source.properties), target, p);
  }

  /** `deprecated.replacement` is truthy. */
  predicate HasReplacement(c: ComponentMetadata) {
    c.replacement.Some? && c.replacement.value != ""
  }

  function RefOf(c: ComponentMetadata): ComponentRef {
    ComponentRef(c.id, c.name, c.key)
  }

  /** The mapping created for `d` and its best candidate. */
  function MappingFor(d: ComponentMetadata, best: PotentialReplacement): ComponentMapping {
    ComponentMapping(RefOf(d), ComponentRef(best.id, best.name, best.key),
                     GeneratedMappings(d, best.component), best.confidence, Pending, None, None)
  }

  /** The mapping the loop creates for `d`, if any: none when `d` has a replacement
      already or no candidate, otherwise one to the head of the ranked list. */
  function Proposal(d: ComponentMetadata, pool: seq<ComponentMetadata>): Option<ComponentMapping> {
    if HasReplacement(d) then None
    else
      var rs := Replacements(d, pool);
      if rs == [] then None else Some(MappingFor(d, rs[0]))
  }

  /** `Proposal` as a function of the deprecated component. */
  function ProposalFor(pool: seq<ComponentMetadata>): ComponentMetadata -> Option<ComponentMapping> {
    (d: ComponentMetadata) => Proposal(d, pool)
  }

  /** The mappings the loop of `mapComponents` adds for the deprecated components
      `ds`, drawing candidates from `pool`. */
  function NewMappings(ds: seq<ComponentMetadata>, pool: seq<ComponentMetadata>): seq<ComponentMapping> {
    Collect(ds, ProposalFor(pool))
  }

  /** A created mapping goes from `d` to its best candidate: a current component of
      the pool that no other current component outscores, with its score as the
      confidence and status pending. */
  lemma ProposalMeaning(d: ComponentMetadata, pool: seq<ComponentMetadata>)
    ensures ProposalFor(pool)(d).Some? <==> !HasReplacement(d) && Replacements(d, pool) != []
    ensures ProposalFor(pool)(d).Some? ==>
              var m := ProposalFor(pool)(d).value;
              var best := Replacements(d, pool)[0].component;
              m.sourceComponent == RefOf(d) && m.targetComponent == RefOf(best) &&
              m.validationStatus == Pending &&
              best in pool && NotDeprecated(best) && Score(d, best) == Finite(m.confidence) &&
              m.confidence > CandidateThreshold &&
              m.propertyMappings == GeneratedMappings(d, best) &&
              forall j :: 0 <= j < |pool| && NotDeprecated(pool[j]) && Score(d, pool[j]).Finite? ==>
                Score(d, pool[j]).value <= m.confidence
  {
    if ProposalFor(pool)(d).Some? {
      ReplacementsSound(d, pool, 0);
      ReplacementsRanked(d, pool);
    }
  }

  /** At most one mapping per deprecated component; each is the proposal for one of
      them, and every proposal is added. */
  lemma NewMappingsMeaning(ds: seq<ComponentMetadata>, pool: seq<ComponentMetadata>)
    ensures |NewMappings(ds, pool)| <= |ds|
    ensures forall i :: 0 <= i < |NewMappings(ds, pool)| ==>
              exists j :: 0 <= j < |ds| && ProposalFor(pool)(ds[j]) == Some(NewMappings(ds, pool)[i])
    ensures forall j :: 0 <= j < |ds| && ProposalFor(pool)(ds[j]).Some? ==>
              ProposalFor(pool)(ds[j]).value in NewMappings(ds, pool)
  {
    CollectMeaning(ds, ProposalFor(pool));
  }

  /** One turn of the loop of `mapComponents`: the mapping it adds for `deprecated`,
      if any. */
  method Propose(deprecated: ComponentMetadata, pool: seq<ComponentMetadata>)
    returns (proposal: Option<ComponentMapping>)
    ensures proposal == Proposal(deprecated, pool)
  {
    if deprecated.replacement.Some? && deprecated.replacement.value != "" {
      return None;
    }
    var potentialReplacements := FindPotentialReplacements(deprecated, pool);
    if |potentialReplacements| == 0 {
      return None;
    }
    var bestMatch := potentialReplacements[0];
    var propertyMappings := GeneratePropertyMappings(deprecated, bestMatch.component);
    proposal := Some(ComponentMapping(
      ComponentRef(deprecated.id, deprecated.name, deprecated.key),
      ComponentRef(bestMatch.id, bestMatch.name, bestMatch.key),
      propertyMappings, bestMatch.confidence, Pending, None, None));
  }

  /** One more deprecated component, whose proposal is `proposal`. */
  lemma NewMappingsStep(ds: seq<ComponentMetadata>, i: nat, pool: seq<ComponentMetadata>,
                        base: seq<ComponentMapping>, proposal: Option<ComponentMapping>)
    requires i < |ds| && proposal == Proposal(ds[i], pool)
    ensures base + NewMappings(ds[..i + 1], pool) ==
              base + NewMappings(ds[..i], pool) + if proposal.Some? then [proposal.value] else []
  {
    var done := NewMappings(ds[..i], pool);
    CollectStep(ds, i, ProposalFor(pool));
    if proposal.Some? {
      assert base + done + [proposal.value] == base + (done + [proposal.value]);
    } else {
      assert done + [] == done;
    }
  }

  /** A turn of the loop of `mapComponents`: the proposal, if any, is added to the
      registry, whose metadata is then recomputed. */
  method AddProposed(service: RegistryService, proposal: Option<ComponentMapping>)
    requires service.loaded
    modifies service
    ensures service.loaded && service.version == old(service.version) && service.components == old(service.components)
    ensures service.mappings == old(service.mappings) + if proposal.Some? then [proposal.value] else []
    ensures proposal.None? ==> service.mappings == old(service.mappings) && service.metadata == old(service.metadata)
    ensures proposal.Some? ==> service.Consistent()
  {
    if proposal.Some? {
      var _ := service.AddMapping(proposal.value);
    } else {
      assert service.mappings + [] == service.mappings;
    }
  }

  /** The loop of `mapComponents` with candidates drawn from every component of the
      registry. */
  method CreateMappings(service: RegistryService, deprecatedComponents: seq<ComponentMetadata>)
    requires service.loaded
    modifies service
    ensures service.loaded && service.version == old(service.version) && service.components == old(service.components)
    ensures service.mappings == old(service.mappings) + NewMappings(deprecatedComponents, Values(old(service.components)))
    ensures NewMappings(deprecatedComponents, Values(old(service.components))) == [] ==> service.metadata == old(service.metadata)
    ensures NewMappings(deprecatedComponents, Values(old(service.components))) != [] ==> service.Consistent()
  {
    // `Object.values(...)` of components the loop never changes
    var pool := Values(service.components);
    for i := 0 to |deprecatedComponents|
      invariant service.loaded && service.version == old(service.version) && service.components == old(service.components)
      invariant service.mappings == old(service.mappings) + NewMappings(deprecatedComponents[..i], pool)
      invariant |service.mappings| == |old(service.mappings)| ==> service.metadata == old(service.metadata)
      invariant |service.mappings| > |old(service.mappings)| ==> service.Consistent()
    {
      var proposal := Propose(deprecatedComponents[i], pool);
      NewMappingsStep(deprecatedComponents, i, pool, old(service.mappings), proposal);
      AddProposed(service, proposal);
    }
    assert deprecatedComponents[..|deprecatedComponents|] == deprecatedComponents;
  }

  /** `mapComponents` with candidates drawn from every component of the registry. */
  method MapComponents(stored: Option<Registry>) returns (result: Registry)
    ensures var start := if stored.Some? then stored.value else EmptyRegistry();
            var added := NewMappings(Filter(Values(start.components), IsDeprecated), Values(start.components));
            result.components == start.components && result.version == start.version &&
            result.mappings == start.mappings + added &&
            result.metadata == if added == [] then start.metadata else MetadataOf(result.components, result.mappings)
  {
    var service := new RegistryService();
    service.Initialize(stored);
    var deprecatedResult := service.GetDeprecatedComponents();
    CreateMappings(service, deprecatedResult.value);
    result := service.Snapshot();
  }

  /** What reading a property of `undefined` throws. */
  const UndefinedName := "TypeError: Cannot read properties of undefined (reading 'toLowerCase')"

  /** The candidate pool as written, `Object.values(getComponent('') || {})`: the
      fields of the component stored under the id `''`, or nothing. A field value
      has no `name`, so a non-empty pool makes the scoring throw. */
  function PoolAsWritten(components: Dict<ComponentMetadata>): Outcome<string> {
    if Get(components, "").Some? then Fail(UndefinedName) else Pass
  }

  /** With no component under `''` the pool is empty and nothing is proposed. */
  lemma EmptyPoolNoReplacements(d: ComponentMetadata)
    ensures Replacements(d, []) == []
  {
    assert Filter([], NotDeprecated) == [];
    assert Collect([], CandidateOf(d)) == [];
  }

  /** The loop of `mapComponents` as written. */
  method CreateMappingsAsWritten(service: RegistryService, deprecatedComponents: seq<ComponentMetadata>)
    returns (o: Outcome<string>)
    requires service.loaded
    modifies service
    ensures service.loaded && service.version == old(service.version) && service.components == old(service.components)
    ensures service.mappings == old(service.mappings) && service.metadata == old(service.metadata)
    ensures o.Fail? <==>
              "" in Keys(service.components) && exists i :: 0 <= i < |deprecatedComponents| && !HasReplacement(deprecatedComponents[i])
  {
    for i := 0 to |deprecatedComponents|
      invariant service.loaded && service.version == old(service.version) && service.components == old(service.components)
      invariant service.mappings == old(service.mappings) && service.metadata == old(service.metadata)
      invariant "" !in Keys(service.components) || forall j :: 0 <= j < i ==> HasReplacement(deprecatedComponents[j])
    {
      var deprecated := deprecatedComponents[i];
      if deprecated.replacement.Some? && deprecated.replacement.value != "" {
        continue;
      }
      var found := service.GetComponent("");
      if found.value.Some? {
        return Fail(UndefinedName);
      }
      EmptyPoolNoReplacements(deprecated);
      var potentialReplacements := FindPotentialReplacements(deprecated, []);
      if |potentialReplacements| == 0 {
        continue;
      }
      assert false;
    }
    return Pass;
  }

  /** `mapComponents` as written: no mapping is ever added, and the run throws when a
      component is stored under `''` and some deprecated component lacks a
      replacement. */
  method MapComponentsAsWritten(stored: Option<Registry>) returns (o: Outcome<string>, result: Registry)
    ensures var start := if stored.Some? then stored.value else EmptyRegistry();
            result == start &&
            (o.Fail? <==> "" in Keys(start.components) &&
                          exists c :: c in Filter(Values(start.components), IsDeprecated) && !HasReplacement(c))
  {
    var service := new RegistryService();
    service.Initialize(stored);
    var deprecatedResult := service.GetDeprecatedComponents();
    o := CreateMappingsAsWritten(service, deprecatedResult.value);
    result := service.Snapshot();
  }

  /** A deprecated Button and a current component of the same name. */
  function OldButton(): ComponentMetadata {
    ComponentMetadata("old", "Button", "old-key", None, Component, [], None, Some(true), None, "", "")
  }

  function NewButton(): ComponentMetadata {
    var props: Dict<PropEntry> := [("Size", PropEntry("VARIANT", Js.Str("Medium"), None))];
    ComponentMetadata("new", "Button", "new-key", None, Component, props, None, Some(false), None, "", "")
  }

  /** The two Buttons share their name and nothing else, so the score is 40. */
  lemma ButtonsScore()
    ensures Score(OldButton(), NewButton()) == Finite(40.0)
  {
    var d := OldButton();
    var c := NewButton();
    assert NameScore(d, c) == NameWeight by {
      assert d.name == c.name;
      SameNameScores(d, c);
    }
    assert PropertyScore(d, c) == Finite(0.0) by {
      var dp := Keys(d.properties);
      var cp := Keys(c.properties);
      assert |dp| == 0 && |cp| == 1;
      assert |CommonKeys(dp, cp)| == 0;
      assert Ratio(0, 1) == Finite(0.0);
    }
    assert VariantScore(d, c) == Finite(0.0);
  }

  /** Drawing from both Buttons, the current one is the only candidate. */
  lemma ButtonsCandidates()
    ensures Collect(Filter([OldButton(), NewButton()], NotDeprecated), CandidateOf(OldButton())) ==
              [PotentialReplacement("new", "Button", "new-key", 40.0, NewButton())]
  {
    var d := OldButton();
    var c := NewButton();
    var pool := [d, c];
    assert pool[..1] == [d];
    assert Filter(pool, NotDeprecated) == [c];
    ButtonsScore();
    var f := CandidateOf(d);
    CollectSnoc([], c, f);
    assert [] + [c] == [c];
  }

  /** With candidates drawn from the registry, the deprecated Button gets a mapping to
      the current one; as written, the pool is empty and it gets none. */
  lemma CandidatePoolMatters()
    ensures |NewMappings([OldButton()], [OldButton(), NewButton()])| == 1
    ensures NewMappings([OldButton()], []) == []
  {
    var d := OldButton();
    var pool := [d, NewButton()];
    ButtonsCandidates();
    SortByConfidenceMeaning(Collect(Filter(pool, NotDeprecated), CandidateOf(d)));
    ProposalMeaning(d, pool);
    EmptyPoolNoReplacements(d);
    ProposalMeaning(d, []);
    assert [] + [d] == [d];
    CollectSnoc([], d, ProposalFor(pool));
    CollectSnoc([], d, ProposalFor([]));
  }
}
