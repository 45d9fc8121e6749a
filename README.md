# AUI-Compass core, modelled in Dafny

AUI-Compass is a Figma plugin with companion Node scripts. It finds instances of deprecated
design-system components, keeps a registry of components and of mappings from deprecated
components to their replacements, and translates the property bag of a deprecated Button
into that of its replacement, the Action component. This project models the
deterministic core of that system and proves what it promises:

- **Button→Action mapper** (`ButtonToAction`). It covers:
  - the `determineActionVariant` decision;
  - the switch tables of `buttonToActionMapping`, checked against its `testCases` fixtures;
  - `mapButtonToAction`, with its icon-slot plan, its colour→theme table and its warnings.
- **Registry store** (`RegistryTypes`, `RegistryStore`). The class `RegistryService`
  holds the in-memory registry. Every write recomputes the metadata counts, and the model
  proves that they always equal the live counts. The prose calls this state "consistent".
  There are also the add/update operations and the query filters.
- **Registry scripts**:
  - `ValidateMappings`: mapping validation and the skip/validate/reject report;
  - `GenerateRegistry`: the registry built from mapping modules;
  - `MapComponents`: scoring, threshold and ranking of replacement candidates, and
    mapping creation;
  - `UpdateRegistry`: pre-order harvest of COMPONENT and COMPONENT_SET nodes, then adding
    the entries in order.
- **Plugin backend** (`Search`): the message handler of `src/code.js`. It resolves the
  scope, groups INSTANCE nodes by deprecated component key, and wraps errors.
- **Component discovery** (`ComponentDiscovery`). It covers:
  - the Figma URL parser;
  - the flat property extraction over nested instances;
  - the variant-name parser;
  - the structure analysis;
  - the property and structure comparisons.
- **Component-key lookup** (`ComponentKeys`): the case-insensitive name filter of
  `getSpecificComponentKeys` and its order-preserving result list.

Shared modules modelling JavaScript and Figma behaviour:

- `Wrappers`: `Option`, `Result`, `Outcome`.
- `Seqs`: `filter`, `map`, and collecting the defined results of a partial map.
- `Dicts`: a JavaScript object as an insertion-ordered list of distinct keys.
  - `obj[k] = v` is `Put`.
  - The spread `{...a, ...b}` is `Merge`.
  - A missing key reads as `undefined` (`Get` gives `None`).
- `Strings`: `includes`, `split`, `join`, `trim`, ASCII `toLowerCase`, and
  whitespace-run collapsing.
- `Js`: values and `typeof`.
- `FigmaNodes`: document nodes and the depth-first, pre-order walk that `findAll` and
  the recursive visitors follow.

Each loop of the source is a Dafny `method` with a `for` loop, with two exceptions
that are functions:
- the `Object.entries` scan with an early return in `validatePropertyMappings` is the
  recursive `ValidateMappings.FirstThrowing`;
- the `forEach` over a node's properties in `collectComponents` is
  `UpdateRegistry.WrapProperties`.

Each method is proved against a specification function, and each function's meaning is
proved in lemmas.
Inputs the scripts read from disk, the network or the clock are parameters:

- the stored registry;
- the HTTP response;
- the list of mapping modules;
- the current time as `now`;
- the host's selection and pages.

## Model

| member | source | states |
|---|---|---|
| ButtonToAction.DetermineActionVariantCases | tools/component-discovery/mapping-config/button-to-action-mapping.ts:38-49 | `Icon only` gives `Icon Only`; `Left` or `Right` gives `Text and Icons`; every other value, `None` included, gives `Text`; each in both directions |
| ButtonToAction.StyleTable | tools/component-discovery/mapping-config/button-to-action-mapping.ts:53-60 | the style table yields only `Filled`, `Outlined` or `Text`, and an unknown variant falls back to `Filled` |
| ButtonToAction.StateTable | tools/component-discovery/mapping-config/button-to-action-mapping.ts:61-69 | the state table yields only Action states, and an unknown state falls back to `Enabled` |
| ButtonToAction.SizeTable | tools/component-discovery/mapping-config/button-to-action-mapping.ts:70-77 | the size table yields only Action sizes, and an unknown size falls back to `Medium (Default)` |
| ButtonToAction.IconConfig | tools/component-discovery/mapping-config/button-to-action-mapping.ts:78-91 | `Icon only` sets no show flag; every other value sets both flags; the flags are never both true; the left flag is true exactly for `Left`, the right exactly for `Right` |
| ButtonToAction.ColorHandling | tools/component-discovery/mapping-config/button-to-action-mapping.ts:93-101 | a colour is ignored exactly when it is not `Asurion Purple`; a warning comes exactly with an ignored colour, and it names that colour |
| ButtonToAction.TablesAgreeWithTestCases | tools/component-discovery/mapping-config/button-to-action-mapping.ts:289-306 | every fixture's expected variant, style, state, size, left flag and label come out of the tables; a colour warning is produced exactly for the fixtures that list one |
| ButtonToAction.VariantDecision | tools/component-discovery/mapping-config/button-to-action-mapping.ts:126-165 | each spelling of Left, Right and Icon only gives its variant and flags; `None` or no icon gives `Text` with no icon; an unknown icon gives `Text and Icons` with the left icon exactly when an icon instance is present; the two flags are never both set; on the four plain values it agrees with `determineActionVariant` |
| ButtonToAction.DecideVariant | tools/component-discovery/mapping-config/button-to-action-mapping.ts:126-165 | the statements of the `switch` reach exactly the variant and flags of `VariantDecision` |
| ButtonToAction.IconPlan | tools/component-discovery/mapping-config/button-to-action-mapping.ts:199-254 | an icon mapping exists exactly when an icon instance is present and the icon is not `None`; Icon Only picks the slot by size (Small, Large, otherwise Medium); otherwise exactly one of the left and right slots is set, the left one unless the right flag is on |
| ButtonToAction.PlanIcon | tools/component-discovery/mapping-config/button-to-action-mapping.ts:199-254 | the statements of the icon block build exactly the plan of `IconPlan` |
| ButtonToAction.PickTheme | tools/component-discovery/mapping-config/button-to-action-mapping.ts:257-278 | three colour pairs select their theme modes; any other colour leaves the theme unset and adds one warning |
| ButtonToAction.MapButtonToAction | tools/component-discovery/mapping-config/button-to-action-mapping.ts:104-286 | the whole result: the variant and flags of `VariantDecision`; `Style` and `State` from the own entries of their tables, with the `Filled` and `Enabled` fallbacks; `Size` copied unless empty; the icon selects follow the flags; the icon mapping of `IconPlan`; the theme; warnings in the order variant, state, colour, at most three |
| ButtonToAction.WarningsNameTheValue | tools/component-discovery/mapping-config/button-to-action-mapping.ts:190-276 | every warning contains the value it complains about |
| ButtonToAction.OneWarningPerUnknownValue | tools/component-discovery/mapping-config/button-to-action-mapping.ts:190-277 | exactly one warning for each variant or state with no own table entry and for each unknown colour, and none otherwise |
| RegistryTypes.Apply | src/types/registry.ts:37 | a transformation either throws or returns a value; where its table has no own non-empty entry, it returns its input |
| RegistryTypes.MergeMappingFields | src/services/registryService.ts:83-86 | the shallow merge `{...m, ...u}`: an empty update changes nothing; the status is the update's when it carries one; untouched component references stay |
| RegistryStore.EmptyRegistry | src/services/registryService.ts:20-31 | the fresh registry has no components, no mappings and all-zero metadata, which equals the counts |
| RegistryStore.RegistryService.constructor | src/services/registryService.ts:7-11 | a new service holds no registry |
| RegistryStore.RegistryService.Initialize | src/services/registryService.ts:13-34 | a stored registry is adopted as it is; without one, the empty registry is created and saved, so the metadata is consistent |
| RegistryStore.RegistryService.SaveRegistry | src/services/registryService.ts:36-52 | without a registry it fails with "Registry not initialized"; otherwise the metadata equals the counts computed from the components and mappings |
| RegistryStore.RegistryService.AddComponent | src/services/registryService.ts:54-58 | fails and changes nothing without a registry; otherwise puts the component under its id, leaves the mappings, and leaves the metadata consistent |
| RegistryStore.RegistryService.UpdateComponent | src/services/registryService.ts:60-69 | fails without a registry, or with "Component id not found" for an unknown id, changing nothing; otherwise replaces only that entry by the shallow merge; "unknown" means no own entry under the id |
| RegistryStore.RegistryService.AddMapping | src/services/registryService.ts:71-75 | appends the mapping, keeps the components, and leaves the metadata consistent |
| RegistryStore.RegistryService.UpdateMapping | src/services/registryService.ts:77-88 | an index below 0 or past the end fails with "Invalid mapping index" and changes nothing; otherwise only that mapping is replaced, by the shallow merge |
| RegistryStore.RegistryService.GetComponent | src/services/registryService.ts:90-93 | fails without a registry; otherwise gives the entry under the id, and null exactly for an id with no own entry |
| RegistryStore.RegistryService.GetDeprecatedComponents | src/services/registryService.ts:95-98 | an order-preserving filter: only deprecated entries, each deprecated entry, no more copies than stored; its length is the deprecated count |
| RegistryStore.RegistryService.GetMappingsBySource | src/services/registryService.ts:100-103 | an order-preserving filter on the source id: sound and complete |
| RegistryStore.RegistryService.GetMappingsByTarget | src/services/registryService.ts:105-108 | an order-preserving filter on the target id: sound and complete |
| RegistryStore.RegistryService.GetPendingMappings | src/services/registryService.ts:110-113 | an order-preserving filter on `pending`: sound and complete; its length is the pending count |
| RegistryStore.RejectedNotCounted | src/services/registryService.ts:47-48 | validated plus pending is the number of mappings that are not rejected |
| RegistryStore.CountSplit | src/services/registryService.ts:47-48 | among the mappings that are not rejected, each one is validated or pending |
| RegistryStore.AddComponentLeavesOthers | src/services/registryService.ts:56 | `components[id] = c` changes only the entry under `c.id`, and that entry becomes `c` |
| RegistryStore.AddComponentCount | src/services/registryService.ts:45-56 | adding under an existing id keeps the component count; a new id adds one |
| ValidateMappings.MissingRequiredIsFilter | src/scripts/validateMappings.ts:106-107 | the missing names are the required list `variant`, `size`, `state` filtered by absence, in that order |
| ValidateMappings.MissingRequiredMembers | src/scripts/validateMappings.ts:106-107 | every missing name is absent; every absent required name is listed; nothing is missing exactly when all three are present |
| ValidateMappings.FirstThrowing | src/scripts/validateMappings.ts:117-130 | the first property, in key order, whose transformation throws on `'test'`; none exactly when no transformation throws |
| ValidateMappings.ValidatePropertyMappings | src/scripts/validateMappings.ts:96-133 | a mapping is valid exactly when no reason is given |
| ValidateMappings.ValidIff | src/scripts/validateMappings.ts:96-133 | valid exactly when there is at least one property mapping, none of the three required names is missing, and no transformation throws |
| ValidateMappings.InvalidReasons | src/scripts/validateMappings.ts:98-128 | the checks run in order: "No property mappings defined" first; then the missing names joined by `, `; then the first property whose transformation throws |
| ValidateMappings.DetailMeaning | src/scripts/validateMappings.ts:31-74 | a detail names source, target and confidence; it is skipped exactly below confidence 50, with "Confidence too low"; validated exactly when not skipped and valid; a rejection carries the validation's reason |
| ValidateMappings.Tally | src/scripts/validateMappings.ts:33-67 | recording a detail appends it and adds one to exactly the counter of its status |
| ValidateMappings.CountSnoc | src/scripts/validateMappings.ts:33-66 | counting a status over one more detail adds one exactly when that detail has the status |
| ValidateMappings.CountIsFilter | src/scripts/validateMappings.ts:13-25 | each counter is the number of details with that status |
| ValidateMappings.CountsAddUp | src/scripts/validateMappings.ts:13-25 | validated plus rejected plus skipped is the number of details |
| ValidateMappings.DetailsAt | src/scripts/validateMappings.ts:27-75 | the i-th detail is the line of the i-th pending mapping, so the details follow iteration order |
| ValidateMappings.TallyStep | src/scripts/validateMappings.ts:30-74 | one loop pass extends the report by the line of the next pending mapping, with its counter raised by one |
| ValidateMappings.ReportDone | src/scripts/validateMappings.ts:13-75 | after the loop, the report has one line per pending mapping, in order, and its three counters add up to the total |
| ValidateMappings.PlansAt | src/scripts/validateMappings.ts:31-65 | the planned update for pending mapping i is that mapping's own outcome |
| ValidateMappings.VerdictMeaning | src/scripts/validateMappings.ts:31-65 | a skipped or non-pending mapping is left alone; any other becomes validated with a timestamp, or rejected with the reason as notes |
| ValidateMappings.OverlayAt | src/scripts/validateMappings.ts:49-65 | applying updates at distinct positions changes exactly the mappings at those positions |
| ValidateMappings.AppliedCorrected | src/scripts/validateMappings.ts:27-75 | the intended outcome: every mapping receives its own verdict |
| ValidateMappings.OverlayIsCorrected | src/scripts/validateMappings.ts:10-65 | updating each pending mapping at its position in the full list gives every mapping its own verdict |
| ValidateMappings.ValidateOne | src/scripts/validateMappings.ts:30-74 | one loop pass: the report records the mapping's detail, and the mapping at the given index gets the mapping's planned update; a skipped mapping changes neither mappings nor metadata, a checked one leaves the metadata recomputed |
| ValidateMappings.CheckAsWritten | src/scripts/validateMappings.ts:27-75 | the loop as written: the report covers the pending list, and the updates land at the pending-list positions; the metadata stays as it was unless some mapping was checked, and is then recomputed from the final state |
| ValidateMappings.CheckAt | src/scripts/validateMappings.ts:27-75 | the loop with each update written at the mapping's position in the full list; the metadata stays as it was unless some mapping was checked, and is then recomputed from the final state |
| ValidateMappings.ValidateMappingsAsWritten | src/scripts/validateMappings.ts:4-94 | the script as written: the report is right, and the registry receives the verdicts at the pending-list positions; components and version stay; the metadata is the stored one unless some pending mapping was checked, and is then recomputed |
| ValidateMappings.ValidateMappings | src/scripts/validateMappings.ts:4-94 | corrected: the report covers the pending mappings, components and version stay, and every mapping receives its own verdict; the metadata is the stored one unless some pending mapping was checked, and is then recomputed |
| ValidateMappings.ButtonToActionValidates | src/mappings/deprecated/Button.js:1-59 | the bundled Button→Action mapping validates, and the script marks it validated at `now` |
| ValidateMappings.AsWrittenMisplacesVerdict | src/scripts/validateMappings.ts:49-52 | with `[rejected A, pending B]`, the script as written writes B's verdict onto A and leaves B pending |
| GenerateRegistry.ImportMappingsFromDir | src/scripts/generateRegistry.ts:5-23 | the loop computes the imported list |
| GenerateRegistry.ImportedConcat | src/scripts/generateRegistry.ts:8-21 | importing two directory listings imports one, then the other |
| GenerateRegistry.ImportedOnlyScripts | src/scripts/generateRegistry.ts:9 | only files ending in `.ts` or `.js` contribute |
| GenerateRegistry.ImportedFromScripts | src/scripts/generateRegistry.ts:9-19 | every imported mapping comes from the default export of a script file |
| GenerateRegistry.Stub | src/scripts/generateRegistry.ts:37-48 | the entry written for a component reference carries its id, name and key, and is deprecated exactly as requested |
| GenerateRegistry.Writes | src/scripts/generateRegistry.ts:36-49 | two writes per mapping |
| GenerateRegistry.BuildComponents | src/scripts/generateRegistry.ts:35-49 | the loop builds the component table by writing the source id, then the target id, for each mapping |
| GenerateRegistry.BuiltGet | src/scripts/generateRegistry.ts:36-49 | each id holds its last write |
| GenerateRegistry.BuiltKeys | src/scripts/generateRegistry.ts:36-49 | an id has an entry exactly when some mapping's source or target has that id |
| GenerateRegistry.WrittenKeys | src/scripts/generateRegistry.ts:36-49 | an id is written exactly when some mapping mentions it |
| GenerateRegistry.BuiltSize | src/scripts/generateRegistry.ts:57 | there are at most twice as many components as mappings |
| GenerateRegistry.BuiltEntryIds | src/scripts/generateRegistry.ts:37-48 | each entry sits under its own id |
| GenerateRegistry.LastMappingWins | src/scripts/generateRegistry.ts:37-48 | after a mapping, its target is non-deprecated; its source is deprecated unless source and target are the same id, in which case that id is non-deprecated |
| GenerateRegistry.LaterMappingsKeep | src/scripts/generateRegistry.ts:36-49 | mappings that do not mention an id leave its entry alone |
| GenerateRegistry.DeprecatedAreSources | src/scripts/generateRegistry.ts:37-48 | a deprecated entry is the source of some mapping whose target differs |
| GenerateRegistry.Generate | src/scripts/generateRegistry.ts:25-62 | version `1.0.0`; the mappings are the imported list unchanged; the components are the built table; the metadata equals the counts, with at most twice as many components as mappings |
| MapComponents.CommonKeys | src/scripts/mapComponents.ts:90-98 | the common keys are no more than the first list |
| MapComponents.RatioBounds | src/scripts/mapComponents.ts:92-100 | a finite ratio `common / max` lies in [0, 1] |
| MapComponents.ScoreBounds | src/scripts/mapComponents.ts:77-101 | the score is NaN exactly when neither component has a property, or both have `variants` and neither has a variant key; otherwise it lies in [0, 100] |
| MapComponents.SameNameScores | src/scripts/mapComponents.ts:80-85 | equal normalised names earn the 40 name points |
| MapComponents.CandidateOfMeaning | src/scripts/mapComponents.ts:103-111 | a component is kept exactly when its score is above 30; it is kept with its id, name, key and score |
| MapComponents.Insert | src/scripts/mapComponents.ts:115 | insertion adds exactly the new element |
| MapComponents.InsertRanked | src/scripts/mapComponents.ts:115 | insertion into a non-increasing list keeps it non-increasing, one longer, headed by the larger of the old head and the new element |
| MapComponents.RankedCons | src/scripts/mapComponents.ts:115 | a head no smaller than the rest extends a ranked list |
| MapComponents.SortByConfidence | src/scripts/mapComponents.ts:115 | the sort returns a permutation of the candidates, of the same length |
| MapComponents.SortByConfidenceMeaning | src/scripts/mapComponents.ts:115 | the sorted candidates have non-increasing confidence |
| MapComponents.ReplacementsSound | src/scripts/mapComponents.ts:73-116 | every replacement is a non-deprecated component of the pool scoring above 30, with that score |
| MapComponents.ReplacementsComplete | src/scripts/mapComponents.ts:73-116 | every non-deprecated component of the pool scoring above 30 is a replacement |
| MapComponents.ReplacementsRanked | src/scripts/mapComponents.ts:115 | replacements come in non-increasing confidence, and the first one scores at least as high as every candidate |
| MapComponents.ScoreOf | src/scripts/mapComponents.ts:77-101 | the scoring steps compute the score |
| MapComponents.FindPotentialReplacements | src/scripts/mapComponents.ts:66-116 | the loop and the sort compute the replacements |
| MapComponents.VariantTransformIdentity | src/scripts/mapComponents.ts:135-143 | the Button→Action `variant` transformation returns every value unchanged |
| MapComponents.GeneratePropertyMappings | src/scripts/mapComponents.ts:118-149 | the loop and the special case compute the generated mappings |
| MapComponents.DirectEntriesLast | src/scripts/mapComponents.ts:122-129 | a source property has a direct entry exactly when the target has it, and the entry maps it to itself |
| MapComponents.GeneratedMappingsMeaning | src/scripts/mapComponents.ts:122-146 | for a Button→Action pair, `variant` holds the variant entry; every other property holds its direct entry exactly when both components have it |
| MapComponents.ProposalMeaning | src/scripts/mapComponents.ts:17-51 | a proposal exists exactly when there is no `replacement` and some candidate; it targets the best candidate, copies its confidence and is `pending` |
| MapComponents.NewMappingsMeaning | src/scripts/mapComponents.ts:13-55 | at most one new mapping per deprecated component; each comes from one component, in order; each proposal is created |
| MapComponents.Propose | src/scripts/mapComponents.ts:16-51 | one loop pass computes its proposal |
| MapComponents.CreateMappings | src/scripts/mapComponents.ts:13-55 | the loop appends the new mappings, taking candidates from the registry components; the metadata stays as it was when nothing is added, and is recomputed otherwise |
| MapComponents.MapComponents | src/scripts/mapComponents.ts:4-56 | corrected: the registry receives the new mappings, drawn from all registry components, for its deprecated components; components and version stay; the metadata is the stored one when nothing is added, and is recomputed otherwise |
| MapComponents.EmptyPoolNoReplacements | src/scripts/mapComponents.ts:73 | an empty candidate pool yields no replacement |
| MapComponents.CreateMappingsAsWritten | src/scripts/mapComponents.ts:13-73 | as written: it adds no mapping and leaves the metadata as it was, and it throws exactly when a component is stored under id `''` and some deprecated component lacks a replacement, since the fields of that entry have no `name` |
| MapComponents.MapComponentsAsWritten | src/scripts/mapComponents.ts:4-73 | the script as written returns exactly the starting registry, and throws exactly in the case above |
| MapComponents.ButtonsScore | src/scripts/mapComponents.ts:80-101 | the sample old and new Buttons score 40 |
| MapComponents.ButtonsCandidates | src/scripts/mapComponents.ts:74-111 | from a pool of both Buttons, only the new Button is a candidate |
| MapComponents.CandidatePoolMatters | src/scripts/mapComponents.ts:73 | with the registry as pool the old Button gets one mapping; with the empty pool of the written line it gets none |
| Search.ErrorText | src/code.js:102 | an `Error` reports its own message |
| Search.ScopeOf | src/code.js:46 | the scope is always truthy, and without a data object it is `selection` |
| Search.SearchInstances | src/code.js:61-85 | the loop computes the groups |
| Search.InstancesOf | src/code.js:67-75 | the inner loop collects the matching instances in node order |
| Search.HandleMessage | src/code.js:26-105 | `READY` posts `INIT` with the selection count and page name; `SEARCH` posts the groups for the scope's nodes, or an error message when `findAll` throws; `CANCEL` closes the plugin; any other type only logs |
| Search.GroupsAreDeprecated | src/code.js:61-84 | every group is a deprecated registry component with its key, name and `lastModified`, and counts at least one instance |
| Search.GroupMeaning | src/code.js:76-84 | a group is reported exactly when it has an instance; its count is its number of instances |
| Search.InstancesMatchKey | src/code.js:69-73 | every recorded instance is an INSTANCE node whose main component key is the group key; its page name is the parent's name, else the current page |
| Search.InstancesAreFound | src/code.js:66-84 | every INSTANCE node of a deprecated registry component is recorded in that component's group |
| Search.DefaultScopeIsSelection | src/code.js:46-53 | a missing or falsy scope searches only the selected nodes |
| Search.UnknownScopeFindsNothing | src/code.js:51-59 | an unrecognised scope searches no node and reports no group |
| Search.NoNodesNoGroups | src/code.js:76 | with no nodes there is no group |
| Search.GroupsInRegistryOrder | src/code.js:61-66 | groups appear in registry order |
| Search.BundledButtonIsFound | src/data/registryData.js:7-28 | an instance of the bundled deprecated Button under a frame is reported as one group of one instance on that frame |
| UpdateRegistry.WrapProperties | src/scripts/updateRegistry.ts:37-44 | every property keeps its key and is wrapped with its `typeof` tag and its value |
| UpdateRegistry.CollectComponents | src/scripts/updateRegistry.ts:24-63 | the recursion appends the entries for the components of the tree in pre-order |
| UpdateRegistry.AddAll | src/scripts/updateRegistry.ts:70-72 | each collected entry is added under its id, in order; the mappings stay; the metadata stays as it was when nothing is collected, and is recomputed after any add |
| UpdateRegistry.EntriesStep | src/scripts/updateRegistry.ts:70-72 | adding one more entry is one more put under its id |
| UpdateRegistry.UpdateRegistry | src/scripts/updateRegistry.ts:7-78 | a non-200 response, or one without data, returns quietly and leaves the registry unchanged; data without a document throws the `TypeError` of reading `type` of `undefined`, with the registry unchanged; otherwise every harvested entry is added in order, with version and mappings kept, and the metadata is the stored one when nothing is harvested and recomputed otherwise |
| UpdateRegistry.HarvestMeaning | src/scripts/updateRegistry.ts:25-62 | every COMPONENT or COMPONENT_SET node of the tree, however deep, gets an entry, and every entry comes from such a node |
| UpdateRegistry.ComponentForMeaning | src/scripts/updateRegistry.ts:26-54 | the entry type follows the node type; `deprecated` is set to true exactly for a name containing `(Deprecated)` or 🔴, and is absent otherwise; `variants` only for component sets that have them; the node's property keys; the node's id, name and key |
| UpdateRegistry.LaterDuplicateWins | src/scripts/updateRegistry.ts:70-72 | an id ends up with the entry of its last collected component; an id not collected keeps its old entry |
| UpdateRegistry.LastEntryHasId | src/scripts/updateRegistry.ts:71 | the last entry under an id has that id |
| FigmaNodes.WalkConcat | tools/component-discovery/index.ts:190-192 | walking two lists of subtrees walks one, then the other |
| FigmaNodes.WalkStep | src/scripts/updateRegistry.ts:60-62 | walking one more child adds that child's whole subtree, in pre-order |
| FigmaNodes.HarvestByChildren | src/scripts/updateRegistry.ts:24-63 | a tree's pre-order harvest is the root's own value, then the children's harvests in order |
| FigmaNodes.WalkHasChildren | tools/component-discovery/index.ts:195-197 | every direct child is walked |
| ComponentDiscovery.RunFrom | tools/component-discovery/index.ts:39-46 | the greedy run `[^…]+`: it occurs in place, holds no stop character, and ends at the end or at a stop character |
| ComponentDiscovery.CaptureAt | tools/component-discovery/index.ts:39-46 | a capture follows its prefix, is non-empty and holds no stop character |
| ComponentDiscovery.FirstMatch | tools/component-discovery/index.ts:39-46 | the leftmost position where the pattern matches; none exactly when no position matches |
| ComponentDiscovery.ExtractComponentKeyErrors | tools/component-discovery/index.ts:39-49 | "missing file key" exactly when no `design/` or `file/` segment has a key; "missing node-id" exactly when there is a file key but no `?node-id=` or `&node-id=` value |
| ComponentDiscovery.ExtractComponentKeyFinds | tools/component-discovery/index.ts:39-52 | on success the file key is the leftmost capture, and the node id is the leftmost `node-id` value with every `-` made `:` |
| ComponentDiscovery.ExtractedKeysShape | tools/component-discovery/index.ts:39-50 | the file key is non-empty and free of `/` and `?`; the node id is non-empty and free of `-` and `&` |
| ComponentDiscovery.CaptureIsMaximal | tools/component-discovery/index.ts:39-46 | a capture runs until a stop character or the end |
| ComponentDiscovery.CleanKey | tools/component-discovery/index.ts:62 | `key.split('#')[0]` holds no `#`, is a prefix of the key, and is the key itself when it has no `#` |
| ComponentDiscovery.Normalised | tools/component-discovery/index.ts:138-142 | a definition's type defaults to `VARIANT` and its values to `[]`; the default value is kept |
| ComponentDiscovery.DefinitionWrites | tools/component-discovery/index.ts:60-71 | one write per definition, under its path key |
| ComponentDiscovery.AssignmentWrites | tools/component-discovery/index.ts:72-78 | one write per assigned property, under its path key, value as given |
| ComponentDiscovery.ExtractAllProperties | tools/component-discovery/index.ts:56-93 | the three loops and the recursion compute the flat property map |
| ComponentDiscovery.OwnPropertiesGet | tools/component-discovery/index.ts:60-78 | at one node, the last assignment under a key wins over every definition; without one, the last definition wins |
| ComponentDiscovery.OwnKeysArePathKeys | tools/component-discovery/index.ts:62-75 | every key at a node is the path joined by `.` with some cleaned property key |
| ComponentDiscovery.GatherKeeps | tools/component-discovery/index.ts:81-90 | children that do not produce a key leave its value alone |
| ComponentDiscovery.GatherChildWins | tools/component-discovery/index.ts:84-87 | the last descended child (INSTANCE, COMPONENT or COMPONENT_SET) that produces a key decides its value, under the child's whitespace-collapsed path |
| ComponentDiscovery.ParseComponentProperties | tools/component-discovery/index.ts:133-146 | the loop computes the parsed map |
| ComponentDiscovery.ParsedKeysClean | tools/component-discovery/index.ts:137 | every parsed key is free of `#` and is the cleaned form of some definition key |
| ComponentDiscovery.ParsedPropertiesGet | tools/component-discovery/index.ts:136-143 | the last definition with a given clean key decides that key's entry |
| ComponentDiscovery.ParsedIsRootDefinitions | tools/component-discovery/index.ts:133-146 | parsing definitions is the definition step of the flattening at the root path |
| ComponentDiscovery.PairOf | tools/component-discovery/index.ts:162-165 | a part gives a pair exactly when its first two `=`-pieces are non-empty; the pair is the two trimmed pieces |
| ComponentDiscovery.ParseVariantName | tools/component-discovery/index.ts:157-169 | the loop computes the variant properties |
| ComponentDiscovery.VariantPropertiesGet | tools/component-discovery/index.ts:161-166 | each key holds the value of the last part that gives it |
| ComponentDiscovery.VariantPropertiesFromParts | tools/component-discovery/index.ts:159-166 | every key comes from a part of the `, ` split |
| ComponentDiscovery.VariantPairsTrimmed | tools/component-discovery/index.ts:162-164 | key and value occur in the part and have no space at either end |
| ComponentDiscovery.ParseVariantsMeaning | tools/component-discovery/index.ts:148-155 | one variant per COMPONENT child, in order, named after the child |
| ComponentDiscovery.Traverse | tools/component-discovery/index.ts:180-193 | `traverse` appends an entry for each INSTANCE of the subtree in pre-order, and sets `hasNested` exactly when it appends |
| ComponentDiscovery.AnalyzeStructure | tools/component-discovery/index.ts:171-205 | the nested components are the INSTANCE descendants; `hasNested` exactly when there are some; auto layout exactly for HORIZONTAL or VERTICAL; the child count |
| ComponentDiscovery.NestedComponentsMeaning | tools/component-discovery/index.ts:180-197 | one entry per INSTANCE descendant, the root excluded, in pre-order; each entry comes from such a node |
| ComponentDiscovery.LeafHasNoNested | tools/component-discovery/index.ts:195-197 | a node without children has no nested component |
| ComponentDiscovery.ComparePartitionsKeys | tools/component-discovery/index.ts:263-265 | `buttonOnly` and `common` split the button's keys by the action's, and `actionOnly` is the action's keys missing from the button |
| ComponentDiscovery.ComparePartitionSizes | tools/component-discovery/index.ts:263-265 | `buttonOnly` and `common` together are as long as the button's key list |
| ComponentDiscovery.TypeDifferencesSound | tools/component-discovery/index.ts:267-273 | every type difference is a common key whose two types differ, with those types |
| ComponentDiscovery.TypeDifferencesComplete | tools/component-discovery/index.ts:267-273 | every common key whose two types differ is reported |
| ComponentDiscovery.CompareStructureSymmetric | tools/component-discovery/index.ts:293-305 | swapping the analyses keeps the flags and the count, swaps the one-sided name lists, and keeps the common names |
| ComponentDiscovery.CompareStructureFlags | tools/component-discovery/index.ts:297-299 | each flag says that the two values differ; the child count is the absolute difference |
| ComponentDiscovery.CompareStructureWithItself | tools/component-discovery/index.ts:293-305 | an analysis compared with itself shows no difference |
| ComponentKeys.ExactNamesAreRedundant | src/scripts/getSpecificComponentKeys.ts:33-39 | the exact names `🟢 action` and `.action` pass through the `action` clause, so dropping them changes no verdict |
| ComponentKeys.MatchIgnoresCase | src/scripts/getSpecificComponentKeys.ts:30 | names that differ only in letter case get the same verdict |
| ComponentKeys.MatchOfLowerCase | src/scripts/getSpecificComponentKeys.ts:30 | lower-casing a name first does not change its verdict |
| ComponentKeys.ActionCardsAreExcluded | src/scripts/getSpecificComponentKeys.ts:34-38 | a name with `action` and `card` or `micro` matches only as a deprecated button or a 🛑 button |
| ComponentKeys.ResultOf | src/scripts/getSpecificComponentKeys.ts:40-46 | `variantCount` is given exactly for a COMPONENT_SET and equals its child count; name, type, key and id are the node's |
| ComponentKeys.GetSpecificComponentKeys | src/scripts/getSpecificComponentKeys.ts:23-51 | the loop keeps the matching components and component sets of the document |
| ComponentKeys.KeyResultsMeaning | src/scripts/getSpecificComponentKeys.ts:29-50 | one result per matching node, in traversal order, and none for another node |
| ComponentKeys.CandidatesAreComponents | src/scripts/getSpecificComponentKeys.ts:23-25 | only components and component sets are examined |

## Left out

- The React interface (`App`, `LandingPage`, `DeprecationAssistant`, `FeatureCard`,
  `Badge`, `ui`) is presentation only.
- The compiled `.js` twins of the TypeScript files are line-for-line copies of code
  modelled here. `src/code.js` is the exception: it is modelled itself.
- `src/code.ts` is not part of this model. Its search branch is a stub, and the rest of
  it is host plumbing.
- Network clients and fetching scripts are left out: `figmaApi`, `getLibraryFiles`,
  `fetchComponentDetails`, `getComponentDetails`, `cache-variables`, and
  `analyzeComponentStructure`. So are the `analyzeComponent`, `generateReport` and
  `main` functions of the discovery tool, whose work is fetching and writing files.
  What they do in between is modelled: `UpdateRegistry` takes the file response as a
  parameter.
- Files, clocks and the console are left out.
  - `fs` reads and writes, `mkdir` and dynamic `import` become inputs: the stored
    registry, the list of mapping modules with their default exports.
  - `new Date().toISOString()` becomes a `now` parameter.
  - `console` output is dropped.
- `RegistryStore.RegistryService`: `lastUpdated` is not stored, since it is only a clock
  reading.
- `RegistryStore.RegistryService.Initialize`: a stored file that is not well-formed JSON
  is not modelled. The stored registry is either present or absent.
- The asynchronous calls are modelled as sequential steps. Overlapping calls are not
  modelled.
- `figma.loadAllPagesAsync` is left out, because it only loads pages.
- The host's `findAll` is modelled as the pre-order filter `FigmaNodes.FindAll`. The
  search handler also models an error that `findAll` may throw.
- JavaScript objects keep keys in insertion order. The rule that integer-like keys come
  first is not modelled.
- `Strings.ToLower` only folds the ASCII letters A–Z. Other scripts' case folding is not
  modelled.
- `Strings.IsSpace` covers the ECMAScript white-space and line-terminator set. Strings
  are sequences of code points, not UTF-16 units.
- `MapComponents.Score` uses exact `real` arithmetic instead of floating point. NaN
  (0/0) is an explicit value, and it never passes the `> 30` threshold. Infinity cannot
  arise, because a ratio's denominator is the larger count and the numerator is at most
  that count.
- `Search`: the `deprecatedKeyMap` of `src/code.js:63` is built but never read, so it is
  left out.
- `ValidateMappings.ValidatePropertyMappings`: a required property counts as present
  when its entry exists. Entries whose value is falsy do not occur, because every
  property mapping is an object.
- A transformation closure is modelled first-order, as a lookup table plus the set of
  inputs it throws on (`RegistryTypes.Transform`).
- `ComponentDiscovery.ComparePropertyTypes`: the truthiness test `actionProps[p]` is
  presence in the map, since every stored value is an object. Inherited
  `Object.prototype` names are not modelled.
- `ComponentDiscovery.CompareStructure`, `includes` on names: names are compared as
  strings. Objects are not compared structurally.
- `RegistryTypes.Apply`: a lookup in a transformation table sees only its own entries.
  In JavaScript `buttonToActionMap[value] || value` also finds inherited
  `Object.prototype` names such as `constructor`; that is not modelled, since values
  and ids here are Figma identifiers.
- `MapComponents.VariantTransformIdentity`: holds for every value without an own entry
  in the table. Inherited `Object.prototype` names such as `constructor` are not
  modelled.
- `RegistryStore.RegistryService.GetComponent`: an id counts as known only when it has
  an own entry. The inherited `Object.prototype` names (`toString` and the like), for
  which `components[id] || null` gives a function, are not modelled.
- `RegistryStore.RegistryService.UpdateComponent`: the "Component id not found" test
  is on own entries. Inherited `Object.prototype` names, which pass the source's truthiness
  test, are not modelled.
- `MapComponents.GeneratePropertyMappings`: `target.properties[prop]` is presence of an
  own entry. Inherited `Object.prototype` names are not modelled.
- `ButtonToAction.MapButtonToAction` and `ButtonToAction.OneWarningPerUnknownValue`:
  the variant and state tables are looked up by own entries only. Inherited
  `Object.prototype` names (`constructor`, `toString`) pass the source's
  `variantMapping[...] || 'Filled'` lookup, become that function and give no warning;
  that is not modelled.
- `Js.JsValue`: `Number` holds an integer. Fractional numbers and NaN among property
  values are not modelled, since the core only tags and copies those values.
- `GenerateRegistry.Stub`: the script writes only `id`, `name`, `key` and `deprecated`.
  The model fills the other fields with placeholders (type component, no properties,
  empty `lastModified` and `fileKey`) instead of leaving them absent. So the `TypeError`
  that `Object.keys(deprecated.properties)` of `mapComponents.ts` throws on such an
  entry is not modelled.
- `ButtonToAction.ButtonProperties`: `Icon Instance` has type `any` in the source. It
  is modelled as an optional string, with `None` for every falsy value; other truthy
  values are not modelled.
- `UpdateRegistry.CollectComponents`: the pushed entries and their order are modelled.
  Mutating the shared `components` array in place is modelled as returning the
  extended sequence.

## Findings

| source | as written | input that shows it | evidently intended | confidence | as-written member | corrected member |
|---|---|---|---|---|---|---|
| src/scripts/validateMappings.ts:49-65 | the verdict for a pending mapping is written at `pendingMappings.indexOf(mapping)`, its position in the pending list, which is used as an index into the full mapping list | mappings `[rejected A, pending B]`: B is pending-list position 0, so A receives B's verdict and B stays pending | each verdict is written to the mapping it was computed for | not executed | ValidateMappings.AsWrittenMisplacesVerdict | ValidateMappings.ValidateMappings |
| src/scripts/mapComponents.ts:73 | the candidate pool is `Object.values(getComponent('') \|\| {})`, the values of the entry stored under id `''`, which is normally none, so the pool is empty | a registry holding the old Button (deprecated) and a new Button that scores 40: no mapping is created | the pool is all registry components | not executed | MapComponents.CandidatePoolMatters | MapComponents.MapComponents |
