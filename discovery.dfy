/** The component-discovery tool: reading the file key and node id out of a Figma
    URL, flattening the property definitions of a component tree, parsing variant
    names, summarising a component's structure and comparing two analyses. */
module ComponentDiscovery {
  import opened Wrappers
  import opened Seqs
  import opened Strings
  import opened Dicts
  import opened Js
  import opened FigmaNodes

  // ---------------------------------------------------------------------------
  // `extractComponentKey`: the two regular expressions over the URL
  // ---------------------------------------------------------------------------

  /** What a Figma URL addresses: the file and the node within it. */
  datatype UrlKeys = UrlKeys(fileKey: string, nodeId: string)

  /** The longest run of characters outside `stop` starting at `i`: what `[^...]+`
      consumes, greedily. */
  function RunFrom(s: string, i: nat, stop: set<char>): (r: string)
    requires i <= |s|
    ensures OccursAt(s, r, i)
    ensures forall k :: 0 <= k < |r| ==> r[k] !in stop
    ensures i + |r| == |s| || s[i + |r|] in stop
    decreases |s| - i
  {
    if i == |s| || s[i] in stop then ""
    else
      var rest := RunFrom(s, i + 1, stop);
      assert s[i..i + 1 + |rest|] == [s[i]] + s[i + 1..i + 1 + |rest|];
      [s[i]] + rest
  }

  /** The capture of `prefix([^stop]+)` when a match starts at `p`: `prefix` occurs
      at `p` and at least one character outside `stop` follows it. */
  function CaptureAt(s: string, p: nat, prefix: string, stop: set<char>): (r: Option<string>)
    ensures r.Some? ==> OccursAt(s, prefix, p) && r.value != [] && OccursAt(s, r.value, p + |prefix|)
    ensures r.Some? ==> forall k :: 0 <= k < |r.value| ==> r.value[k] !in stop
  {
    if OccursAt(s, prefix, p) && p + |prefix| < |s| && s[p + |prefix|] !in stop
    then Some(RunFrom(s, p + |prefix|, stop))
    else None
  }

  /** `(?:design|file)\/([^/?]+)` tried at `p`: `design` first, then `file`. */
  function FileKeyAt(url: string, p: nat): Option<string> {
    var design := CaptureAt(url, p, "design/", {'/', '?'});
    if design.Some? then design else CaptureAt(url, p, "file/", {'/', '?'})
  }

  /** `[?&]node-id=([^&]+)` tried at `p`. */
  function NodeIdAt(url: string, p: nat): Option<string> {
    if p < |url| && url[p] in {'?', '&'} then CaptureAt(url, p + 1, "node-id=", {'&'}) else None
  }

  /** The two regular expressions `extractComponentKey` applies. */
  datatype Pattern = FileKeyPattern | NodeIdPattern

  /** The capture of `pattern` for a match starting at `p`, if one starts there. */
  function CaptureOf(pattern: Pattern, url: string, p: nat): Option<string> {
    match pattern
    case FileKeyPattern => FileKeyAt(url, p)
    case NodeIdPattern => NodeIdAt(url, p)
  }

  /** The leftmost position from `from` on (up to `|url|`) at which `pattern`
      matches: how a regular expression without the global flag finds its match. */
  function FirstMatch(pattern: Pattern, url: string, from: nat): (r: Option<nat>)
    ensures r.Some? ==> from <= r.value <= |url| && CaptureOf(pattern, url, r.value).Some?
    ensures r.Some? ==> forall q :: from <= q < r.value ==> CaptureOf(pattern, url, q).None?
    ensures r.None? ==> forall q :: from <= q <= |url| ==> CaptureOf(pattern, url, q).None?
    decreases |url| + 1 - from
  {
    if from > |url| then None
    else if CaptureOf(pattern, url, from).Some? then Some(from)
    else FirstMatch(pattern, url, from + 1)
  }

  const MissingFileKey := "Invalid Figma URL: missing file key"
  const MissingNodeId := "Invalid Figma URL: missing node-id"

  /** `extractComponentKey`: the first file key capture, and the first node-id
      capture with every `-` turned into `:`; a URL without one of them is refused
      with the source's message. */
  function ExtractComponentKey(url: string): Result<UrlKeys, string> {
    var fileAt := FirstMatch(FileKeyPattern, url, 0);
    if fileAt.None? then Failure(MissingFileKey)
    else
      var nodeAt := FirstMatch(NodeIdPattern, url, 0);
      if nodeAt.None? then Failure(MissingNodeId)
      else Success(UrlKeys(FileKeyAt(url, fileAt.value).value, ReplaceChar(NodeIdAt(url, nodeAt.value).value, '-', ':')))
  }

  /** A URL is refused for its file key exactly when no position starts a
      `design/` or `file/` segment with a non-empty key, and for its node id exactly
      when it has a file key but no `?node-id=` or `&node-id=` parameter with a
      non-empty value. */
  lemma ExtractComponentKeyErrors(url: string)
    ensures ExtractComponentKey(url) == Failure(MissingFileKey) <==>
              forall p :: 0 <= p <= |url| ==> CaptureOf(FileKeyPattern, url, p).None?
    ensures ExtractComponentKey(url) == Failure(MissingNodeId) <==>
              (exists p :: 0 <= p <= |url| && CaptureOf(FileKeyPattern, url, p).Some?) &&
              (forall p :: 0 <= p <= |url| ==> CaptureOf(NodeIdPattern, url, p).None?)
  {
    assert |MissingFileKey| != |MissingNodeId|;
    var fileAt := FirstMatch(FileKeyPattern, url, 0);
    if fileAt.Some? {
      assert CaptureOf(FileKeyPattern, url, fileAt.value).Some?;
    }
  }

  /** On success the file key is the leftmost capture, a non-empty run free of `/`
      and `?`; the node id is the leftmost `node-id` value with every `-` turned
      into `:`, so it holds neither `-` nor `&`. */
  lemma ExtractComponentKeyFinds(url: string)
    requires ExtractComponentKey(url).Success?
    ensures var keys := ExtractComponentKey(url).value;
            exists p :: 0 <= p <= |url| && CaptureOf(FileKeyPattern, url, p) == Some(keys.fileKey) &&
              (forall q :: 0 <= q < p ==> CaptureOf(FileKeyPattern, url, q).None?)
    ensures var keys := ExtractComponentKey(url).value;
            exists p :: 0 <= p <= |url| && CaptureOf(NodeIdPattern, url, p).Some? &&
              keys.nodeId == ReplaceChar(CaptureOf(NodeIdPattern, url, p).value, '-', ':') &&
              (forall q :: 0 <= q < p ==> CaptureOf(NodeIdPattern, url, q).None?)
  {
    var fileAt := FirstMatch(FileKeyPattern, url, 0).value;
    var nodeAt := FirstMatch(NodeIdPattern, url, 0).value;
    assert CaptureOf(FileKeyPattern, url, fileAt) == FileKeyAt(url, fileAt);
    assert CaptureOf(NodeIdPattern, url, nodeAt) == NodeIdAt(url, nodeAt);
  }

  /** The captured file key is non-empty and free of `/` and `?`, and the node id is
      non-empty and free of `-` and `&`. */
  lemma ExtractedKeysShape(url: string)
    requires ExtractComponentKey(url).Success?
    ensures var keys := ExtractComponentKey(url).value;
            keys.fileKey != [] && (forall k :: 0 <= k < |keys.fileKey| ==> keys.fileKey[k] !in {'/', '?'})
    ensures var keys := ExtractComponentKey(url).value;
            keys.nodeId != [] && (forall k :: 0 <= k < |keys.nodeId| ==> keys.nodeId[k] !in {'-', '&'})
  {
    var fileAt := FirstMatch(FileKeyPattern, url, 0).value;
    var nodeAt := FirstMatch(NodeIdPattern, url, 0).value;
    assert CaptureOf(FileKeyPattern, url, fileAt).Some?;
    assert CaptureOf(NodeIdPattern, url, nodeAt).Some?;
    var raw := NodeIdAt(url, nodeAt).value;
    assert forall k :: 0 <= k < |raw| ==> raw[k] != '&';
  }

  /** `CaptureAt` stops where the run stops: the captured key is followed by the end
      of the URL or by a stop character. */
  lemma CaptureIsMaximal(s: string, p: nat, prefix: string, stop: set<char>)
    requires CaptureAt(s, p, prefix, stop).Some?
    ensures var r := CaptureAt(s, p, prefix, stop).value;
            p + |prefix| + |r| == |s| || s[p + |prefix| + |r|] in stop
  {
  }

  // ---------------------------------------------------------------------------
  // Property definitions: `parseComponentProperties` and `extractAllProperties`
  // ---------------------------------------------------------------------------

  /** An entry of the flattened property map: a definition normalised with its
      defaults, or an instance's `componentProperties` entry copied as it is. */
  datatype PropValue =
    | Defined(ptype: string, values: seq<string>, defaultValue: JsValue)
    | Assigned(prop: InstanceProperty)
  {
    /** The entry's `type` field. */
    function TypeTag(): string {
      match this
      case Defined(t, _, _) => t
      case Assigned(p) => p.ptype
    }
  }

  /** `key.split('#')[0]`: a property key without its `#id` suffix. */
  function CleanKey(key: string): (r: string)
    ensures !Contains(r, "#")
    ensures StartsWith(key, r)
    ensures !Contains(key, "#") ==> r == key
  {
    SplitHead(key, "#");
    var r := Split(key, "#")[0];
    assert key[..|r|] == r;
    r
  }

  /** `{ type: def.type || 'VARIANT', values: def.variantOptions || [], defaultValue }`. */
  function Normalised(def: PropertyDefinition): (v: PropValue)
    ensures v.Defined? && v.defaultValue == def.defaultValue
    ensures v.ptype == if def.ptype == "" then "VARIANT" else def.ptype
    ensures v.values == if def.variantOptions.Some? then def.variantOptions.value else []
  {
    Defined(OrDefault(def.ptype, "VARIANT"), def.variantOptions.GetOr([]), def.defaultValue)
  }

  /** `[...path, cleanKey].join('.')`. */
  function PathKey(path: seq<string>, key: string): string {
    Join(path + [CleanKey(key)], ".")
  }

  /** The assignments of the definitions loop, in entry order. */
  function DefinitionWrites(defs: Dict<PropertyDefinition>, path: seq<string>): (w: seq<(string, PropValue)>)
    ensures |w| == |defs|
    ensures forall i :: 0 <= i < |defs| ==> w[i] == (PathKey(path, defs[i].0), Normalised(defs[i].1))
  {
    seq(|defs|, i requires 0 <= i < |defs| => (PathKey(path, defs[i].0), Normalised(defs[i].1)))
  }

  /** The assignments of the `componentProperties` loop, in entry order. */
  function AssignmentWrites(props: Dict<InstanceProperty>, path: seq<string>): (w: seq<(string, PropValue)>)
    ensures |w| == |props|
    ensures forall i :: 0 <= i < |props| ==> w[i] == (PathKey(path, props[i].0), Assigned(props[i].1))
  {
    seq(|props|, i requires 0 <= i < |props| => (PathKey(path, props[i].0), Assigned(props[i].1)))
  }

  /** The definition writes a node makes under `path`, none without definitions. */
  function OwnDefinitionWrites(n: Node, path: seq<string>): seq<(string, PropValue)> {
    if n.componentPropertyDefinitions.Some? then DefinitionWrites(n.componentPropertyDefinitions.value, path) else []
  }

  /** The instance-value writes a node makes under `path`, none without values. */
  function OwnAssignmentWrites(n: Node, path: seq<string>): seq<(string, PropValue)> {
    if n.componentProperties.Some? then AssignmentWrites(n.componentProperties.value, path) else []
  }

  /** The entries a node itself contributes under `path`: its definitions, then its
      instance values over them. */
  function OwnProperties(n: Node, path: seq<string>): Dict<PropValue> {
    PutAll(PutAll([], OwnDefinitionWrites(n, path)), OwnAssignmentWrites(n, path))
  }

  /** The node types whose properties are gathered from below. */
  predicate Descended(n: Node) {
    n.ntype == "INSTANCE" || n.ntype == "COMPONENT" || n.ntype == "COMPONENT_SET"
  }

  /** A child's path: its parent's path and its name with white-space runs collapsed. */
  function ChildPath(path: seq<string>, child: Node): seq<string> {
    path + [CollapseSpaces(child.name)]
  }

  /** The recursion's loop over `kids` from `acc` on: each descended child's whole
      flattened map is spread over what was gathered so far. */
  function Gather(kids: seq<Node>, path: seq<string>, acc: Dict<PropValue>): Dict<PropValue>
    decreases kids
  {
    if kids == [] then acc
    else
      var k := kids[0];
      var acc' := if Descended(k) then Merge(acc, Gather(k.children, ChildPath(path, k), OwnProperties(k, ChildPath(path, k)))) else acc;
      Gather(kids[1..], path, acc')
  }

  /** `extractAllProperties(node, path)`. */
  function AllProperties(n: Node, path: seq<string>): Dict<PropValue> {
    Gather(n.children, path, OwnProperties(n, path))
  }

  /** What gathering from the `i`-th child on does: spread that child's map, if it is
      descended into, then go on with the rest. */
  lemma GatherStep(kids: seq<Node>, i: nat, path: seq<string>, acc: Dict<PropValue>)
    requires i < |kids|
    ensures Gather(kids[i..], path, acc) ==
              Gather(kids[i + 1..], path,
                if Descended(kids[i]) then Merge(acc, AllProperties(kids[i], ChildPath(path, kids[i]))) else acc)
  {
    var rest := kids[i..];
    assert rest[0] == kids[i] && rest[1..] == kids[i + 1..];
  }

  /** `extractAllProperties`: fills the map from the node's own definitions and
      values, then spreads the map of every descended child over it. */
  method ExtractAllProperties(node: Node, path: seq<string>) returns (properties: Dict<PropValue>)
    ensures properties == AllProperties(node, path)
    decreases node
  {
    properties := [];
    var defWrites := OwnDefinitionWrites(node, path);
    if node.componentPropertyDefinitions.Some? {
      var defs := node.componentPropertyDefinitions.value;
      for i := 0 to |defs|
        invariant properties == PutAll([], defWrites[..i])
      {
        var propPath := PathKey(path, defs[i].0);
        properties := Put(properties, propPath, Normalised(defs[i].1));
        PutAllStep([], defWrites, i);
      }
    }
    assert defWrites[..|defWrites|] == defWrites;
    ghost var defined := properties;
    var valueWrites := OwnAssignmentWrites(node, path);
    if node.componentProperties.Some? {
      var props := node.componentProperties.value;
      for i := 0 to |props|
        invariant properties == PutAll(defined, valueWrites[..i])
      {
        var propPath := PathKey(path, props[i].0);
        properties := Put(properties, propPath, Assigned(props[i].1));
        PutAllStep(defined, valueWrites, i);
      }
    }
    assert valueWrites[..|valueWrites|] == valueWrites;
    var kids := node.children;
    for i := 0 to |kids|
      invariant Gather(kids[i..], path, properties) == AllProperties(node, path)
    {
      var child := kids[i];
      GatherStep(kids, i, path, properties);
      if child.ntype == "INSTANCE" || child.ntype == "COMPONENT" || child.ntype == "COMPONENT_SET" {
        var childPath := path + [CollapseSpaces(child.name)];
        var childProps := ExtractAllProperties(child, childPath);
        properties := Merge(properties, childProps);
      }
    }
  }

  /** At a node's own level the instance values win over the definitions under the
      same path key; a key neither assigns is absent. */
  lemma OwnPropertiesGet(n: Node, path: seq<string>, k: string)
    ensures Get(OwnProperties(n, path), k) ==
              if LastValue(OwnAssignmentWrites(n, path), k).Some? then LastValue(OwnAssignmentWrites(n, path), k)
              else LastValue(OwnDefinitionWrites(n, path), k)
  {
    var defined := PutAll([], OwnDefinitionWrites(n, path));
    PutAllGet(defined, OwnAssignmentWrites(n, path), k);
    PutAllGet([], OwnDefinitionWrites(n, path), k);
  }

  /** Every own key is a path key: the path joined with the clean key of one of the
      node's definitions or instance values. */
  lemma OwnKeysArePathKeys(n: Node, path: seq<string>, k: string)
    requires k in Keys(OwnProperties(n, path))
    ensures (n.componentPropertyDefinitions.Some? &&
              exists i :: 0 <= i < |n.componentPropertyDefinitions.value| &&
                k == PathKey(path, n.componentPropertyDefinitions.value[i].0)) ||
            (n.componentProperties.Some? &&
              exists i :: 0 <= i < |n.componentProperties.value| &&
                k == PathKey(path, n.componentProperties.value[i].0))
  {
    var dw := OwnDefinitionWrites(n, path);
    var aw := OwnAssignmentWrites(n, path);
    PutAllKeys(PutAll([], dw), aw, k);
    PutAllKeys([], dw, k);
    if LastValue(aw, k).Some? {
      var i :| 0 <= i < |aw| && aw[i].0 == k;
    } else {
      var i :| 0 <= i < |dw| && dw[i].0 == k;
    }
  }

  /** Whether the `j`-th child is descended into and its map has `k`. */
  predicate ChildHas(kids: seq<Node>, path: seq<string>, j: nat, k: string)
    requires j < |kids|
  {
    Descended(kids[j]) && k in Keys(AllProperties(kids[j], ChildPath(path, kids[j])))
  }

  /** Dropping the first child shifts the children that lack `k` down by one. */
  lemma NoChildHasAfterShift(kids: seq<Node>, path: seq<string>, i: nat, k: string)
    requires kids != []
    requires forall j :: i < j < |kids| ==> !ChildHas(kids, path, j, k)
    ensures forall j :: i <= j < |kids| - 1 ==> !ChildHas(kids[1..], path, j, k)
  {
    forall j | i <= j < |kids| - 1
      ensures !ChildHas(kids[1..], path, j, k)
    {
      assert kids[1..][j] == kids[j + 1];
      assert !ChildHas(kids, path, j + 1, k);
    }
  }

  /** A key no descended child has keeps the value gathered before the children. */
  lemma {:induction false} GatherKeeps(kids: seq<Node>, path: seq<string>, acc: Dict<PropValue>, k: string)
    requires forall j :: 0 <= j < |kids| ==> !ChildHas(kids, path, j, k)
    ensures Get(Gather(kids, path, acc), k) == Get(acc, k)
    decreases kids
  {
    if kids != [] {
      var c := kids[0];
      assert !ChildHas(kids, path, 0, k);
      var acc' := if Descended(c) then Merge(acc, AllProperties(c, ChildPath(path, c))) else acc;
      if Descended(c) {
        MergeGet(acc, AllProperties(c, ChildPath(path, c)), k);
      }
      NoChildHasAfterShift(kids, path, 0, k);
      GatherKeeps(kids[1..], path, acc', k);
    }
  }

  /** A key takes its value from the last descended child whose map has it: deeper
      entries override their ancestors', and later siblings override earlier ones. */
  lemma {:induction false} GatherChildWins(kids: seq<Node>, path: seq<string>, acc: Dict<PropValue>, i: nat, k: string)
    requires i < |kids| && ChildHas(kids, path, i, k)
    requires forall j :: i < j < |kids| ==> !ChildHas(kids, path, j, k)
    ensures Get(Gather(kids, path, acc), k) == Get(AllProperties(kids[i], ChildPath(path, kids[i])), k)
    decreases kids
  {
    var c := kids[0];
    var acc' := if Descended(c) then Merge(acc, AllProperties(c, ChildPath(path, c))) else acc;
    assert Gather(kids, path, acc) == Gather(kids[1..], path, acc');
    if i == 0 {
      MergeGet(acc, AllProperties(c, ChildPath(path, c)), k);
      NoChildHasAfterShift(kids, path, 0, k);
      GatherKeeps(kids[1..], path, acc', k);
    } else {
      assert kids[1..][i - 1] == kids[i];
      assert ChildHas(kids[1..], path, i - 1, k);
      NoChildHasAfterShift(kids, path, i, k);
      GatherChildWins(kids[1..], path, acc', i - 1, k);
    }
  }

  /** The assignment the `parseComponentProperties` loop makes for one entry. */
  function ParseWrite(e: (string, PropertyDefinition)): (string, PropValue) {
    (CleanKey(e.0), Normalised(e.1))
  }

  /** `parseComponentProperties`: the definitions under their clean keys. */
  function ParsedProperties(defs: Dict<PropertyDefinition>): Dict<PropValue> {
    PutAll([], Map(defs, ParseWrite))
  }

  /** `parseComponentProperties`: the fill loop. */
  method ParseComponentProperties(defs: Dict<PropertyDefinition>) returns (properties: Dict<PropValue>)
    ensures properties == ParsedProperties(defs)
  {
    properties := [];
    for i := 0 to |defs|
      invariant properties == PutAll([], Map(defs[..i], ParseWrite))
    {
      var key := CleanKey(defs[i].0);
      properties := Put(properties, key, Normalised(defs[i].1));
      MapStep(defs, i, ParseWrite);
      PutAllSnoc([], Map(defs[..i], ParseWrite), ParseWrite(defs[i]));
    }
    assert defs[..|defs|] == defs;
  }

  /** Every parsed key is the clean key of some entry, so it has no `#` suffix. */
  lemma ParsedKeysClean(defs: Dict<PropertyDefinition>, k: string)
    requires k in Keys(ParsedProperties(defs))
    ensures !Contains(k, "#")
    ensures exists i :: 0 <= i < |defs| && CleanKey(defs[i].0) == k
  {
    var ws := Map(defs, ParseWrite);
    PutAllKeys([], ws, k);
    var i :| 0 <= i < |ws| && ws[i].0 == k;
    assert ws[i] == ParseWrite(defs[i]);
  }

  /** A clean key holds the normalised definition of the last entry with that clean
      key: a later duplicate wins. */
  lemma ParsedPropertiesGet(defs: Dict<PropertyDefinition>, i: nat)
    requires i < |defs|
    requires forall j :: i < j < |defs| ==> CleanKey(defs[j].0) != CleanKey(defs[i].0)
    ensures Get(ParsedProperties(defs), CleanKey(defs[i].0)) == Some(Normalised(defs[i].1))
  {
    var ws := Map(defs, ParseWrite);
    var k := CleanKey(defs[i].0);
    PutAllGet([], ws, k);
    assert ws[i] == (k, Normalised(defs[i].1));
    LastValueFinds(ws, k, i);
  }

  /** `parseComponentProperties` is the definitions part of `extractAllProperties`
      at the root, where a path key is the clean key itself. */
  lemma ParsedIsRootDefinitions(defs: Dict<PropertyDefinition>)
    ensures ParsedProperties(defs) == PutAll([], DefinitionWrites(defs, []))
  {
    var ws := Map(defs, ParseWrite);
    var dw := DefinitionWrites(defs, []);
    forall i | 0 <= i < |defs|
      ensures ws[i] == dw[i]
    {
      assert [] + [CleanKey(defs[i].0)] == [CleanKey(defs[i].0)];
    }
    assert ws == dw;
  }

  // ---------------------------------------------------------------------------
  // Variants: `parseVariants` and `parseVariantName`
  // ---------------------------------------------------------------------------

  /** A variant of a component set: its name and the properties its name spells. */
  datatype Variant = Variant(name: string, properties: Dict<string>)

  /** The assignment one `key=value` part of a variant name makes: both sides must be
      non-empty before trimming; a part without `=` has no value. */
  function PairOf(part: string): (r: Option<(string, string)>)
    ensures r.Some? <==> Split(part, "=")[0] != "" && |Split(part, "=")| > 1 && Split(part, "=")[1] != ""
    ensures r.Some? ==> r.value == (Trim(Split(part, "=")[0]), Trim(Split(part, "=")[1]))
  {
    var pieces := Split(part, "=");
    var key := pieces[0];
    var value := if |pieces| > 1 then pieces[1] else "";
    if key != "" && value != "" then Some((Trim(key), Trim(value))) else None
  }

  /** `name.split(', ')`. */
  function VariantParts(name: string): seq<string> {
    Split(name, ", ")
  }

  /** `parseVariantName(name)`. */
  function VariantProperties(name: string): Dict<string> {
    PutAll([], Collect(VariantParts(name), PairOf))
  }

  /** `parseVariantName`: the fill loop over the parts of the name. */
  method ParseVariantName(name: string) returns (properties: Dict<string>)
    ensures properties == VariantProperties(name)
  {
    var parts := Split(name, ", ");
    properties := [];
    for i := 0 to |parts|
      invariant properties == PutAll([], Collect(parts[..i], PairOf))
    {
      var pieces := Split(parts[i], "=");
      var key := pieces[0];
      var value := if |pieces| > 1 then pieces[1] else "";
      CollectStep(parts, i, PairOf);
      if key != "" && value != "" {
        PutAllSnoc([], Collect(parts[..i], PairOf), (Trim(key), Trim(value)));
        properties := Put(properties, Trim(key), Trim(value));
      } else {
        assert Collect(parts[..i], PairOf) + [] == Collect(parts[..i], PairOf);
      }
    }
    assert parts[..|parts|] == parts;
  }

  /** A parsed variant property holds the value of the last part that assigns its
      key: a later duplicate wins. */
  lemma VariantPropertiesGet(name: string, k: string)
    ensures Get(VariantProperties(name), k) == LastValue(Collect(VariantParts(name), PairOf), k)
  {
    PutAllGet([], Collect(VariantParts(name), PairOf), k);
  }

  /** Every parsed variant property comes from a part of the name that spells it. */
  lemma VariantPropertiesFromParts(name: string, k: string)
    requires Get(VariantProperties(name), k).Some?
    ensures exists i :: 0 <= i < |VariantParts(name)| &&
              PairOf(VariantParts(name)[i]) == Some((k, Get(VariantProperties(name), k).value))
  {
    var pairs := Collect(VariantParts(name), PairOf);
    VariantPropertiesGet(name, k);
    LastValueAt(pairs, k);
    var j :| 0 <= j < |pairs| && pairs[j].0 == k && LastValue(pairs, k) == Some(pairs[j].1);
    assert pairs[j] == (k, Get(VariantProperties(name), k).value);
    CollectMeaning(VariantParts(name), PairOf);
  }

  /** The pairs of a variant name are trimmed on both sides and the key holds no `=`. */
  lemma VariantPairsTrimmed(part: string)
    requires PairOf(part).Some?
    ensures var (k, v) := PairOf(part).value;
            (k != [] ==> !IsSpace(k[0]) && !IsSpace(k[|k| - 1])) &&
            (v != [] ==> !IsSpace(v[0]) && !IsSpace(v[|v| - 1])) &&
            !Contains(k, "=")
  {
    var key := Split(part, "=")[0];
    SplitHead(part, "=");
    var i: nat :| i <= |key| && OccursAt(key, Trim(key), i);
    ContainedInSlice(key, Trim(key), i, "=");
  }

  /** A `COMPONENT` child's variant. */
  function VariantOf(child: Node): Variant {
    Variant(child.name, VariantProperties(child.name))
  }

  predicate IsComponent(n: Node) {
    n.ntype == "COMPONENT"
  }

  /** `parseVariants(children)`. */
  function ParseVariants(children: seq<Node>): seq<Variant> {
    Map(Filter(children, IsComponent), VariantOf)
  }

  /** There is one variant per `COMPONENT` child, in the children's order, and no
      other child yields one. */
  lemma ParseVariantsMeaning(children: seq<Node>)
    ensures var idx := FilterIndices(children, IsComponent);
            |ParseVariants(children)| == |idx| &&
            (forall j :: 0 <= j < |idx| ==> ParseVariants(children)[j] == VariantOf(children[idx[j]])) &&
            (forall j :: 0 <= j < |idx| ==> children[idx[j]].ntype == "COMPONENT") &&
            (forall j, j' :: 0 <= j < j' < |idx| ==> idx[j] < idx[j']) &&
            (forall i :: 0 <= i < |children| && children[i].ntype == "COMPONENT" ==> i in idx)
  {
    FilterIndicesSelect(children, IsComponent);
  }

  // ---------------------------------------------------------------------------
  // `analyzeStructure`
  // ---------------------------------------------------------------------------

  /** A nested instance as the structure analysis records it. */
  datatype NestedComponent = NestedComponent(key: string, name: string, ntype: string, properties: Dict<InstanceProperty>)

  /** What `analyzeStructure` returns. */
  datatype Structure = Structure(hasNested: bool, components: seq<NestedComponent>, usesAutoLayout: bool, childrenCount: nat)

  /** The entry `traverse` pushes for a node: one for an instance, none otherwise. */
  function NestedOf(n: Node): Option<NestedComponent> {
    if n.ntype == "INSTANCE" then Some(NestedComponent(n.componentId, n.name, n.ntype, n.componentProperties.GetOr([])))
    else None
  }

  /** The instances below `node`, in pre-order; `node` itself is not visited. */
  function NestedComponents(node: Node): seq<NestedComponent> {
    Collect(Nodes(Descendants(node)), NestedOf)
  }

  /** The first half of `traverse`'s visit: an instance pushes its entry and raises
      the flag; any other node leaves both as they were. */
  method PushIfInstance(n: Node, components: seq<NestedComponent>, hasNested: bool)
    returns (components': seq<NestedComponent>, hasNested': bool)
    ensures n.ntype == "INSTANCE" ==> hasNested' && components' == components + [NestedOf(n).value]
    ensures n.ntype != "INSTANCE" ==> hasNested' == hasNested && components' == components
  {
    components' := components;
    hasNested' := hasNested;
    if n.ntype == "INSTANCE" {
      hasNested' := true;
      components' := components' + [NestedComponent(n.componentId, n.name, n.ntype, n.componentProperties.GetOr([]))];
    }
  }

  /** `traverse`: pushes the instances of the tree under `n` and raises the flag
      when it meets one. */
  method Traverse(n: Node, components: seq<NestedComponent>, hasNested: bool)
    returns (components': seq<NestedComponent>, hasNested': bool)
    ensures components' == components + Harvest(n, NestedOf)
    ensures hasNested' == (hasNested || Harvest(n, NestedOf) != [])
    decreases n
  {
    components', hasNested' := PushIfInstance(n, components, hasNested);
    ghost var head := components';
    var kids := n.children;
    for i := 0 to |kids|
      invariant VisitedChildren(n, NestedOf, head, i, components')
      invariant hasNested' == (hasNested || |components'| > |components|)
    {
      ghost var before := components';
      components', hasNested' := Traverse(kids[i], components', hasNested');
      VisitChildStep(n, NestedOf, head, i, before, components');
    }
    VisitDone(n, NestedOf, components, head, components');
  }

  /** `analyzeStructure`: the instances below the node, whether there are any,
      whether the node lays out automatically, and how many children it has. */
  method AnalyzeStructure(node: Node) returns (s: Structure)
    ensures s.components == NestedComponents(node)
    ensures s.hasNested <==> s.components != []
    ensures s.usesAutoLayout <==> node.layoutMode == "HORIZONTAL" || node.layoutMode == "VERTICAL"
    ensures s.childrenCount == |node.children|
  {
    var components: seq<NestedComponent> := [];
    var hasNested := false;
    var kids := node.children;
    for i := 0 to |kids|
      invariant components == HarvestChildren(node, i, NestedOf)
      invariant hasNested == (components != [])
    {
      components, hasNested := Traverse(kids[i], components, hasNested);
    }
    assert components == NestedComponents(node) by {
      HarvestChildrenWalk(node, |kids|, NestedOf);
      assert kids[..|kids|] == kids;
    }
    s := Structure(hasNested, components, node.layoutMode == "HORIZONTAL" || node.layoutMode == "VERTICAL", |kids|);
  }

  /** Every instance below the node is recorded, and every record is an instance
      below the node. */
  lemma NestedComponentsMeaning(node: Node)
    ensures var ns := Nodes(Descendants(node));
            (forall j :: 0 <= j < |ns| && ns[j].ntype == "INSTANCE" ==> NestedOf(ns[j]).value in NestedComponents(node)) &&
            (forall c :: c in NestedComponents(node) ==>
               exists j :: 0 <= j < |ns| && ns[j].ntype == "INSTANCE" && NestedOf(ns[j]) == Some(c))
  {
    var ns := Nodes(Descendants(node));
    CollectMeaning(ns, NestedOf);
    forall c | c in NestedComponents(node)
      ensures exists j :: 0 <= j < |ns| && ns[j].ntype == "INSTANCE" && NestedOf(ns[j]) == Some(c)
    {
      var i :| 0 <= i < |NestedComponents(node)| && NestedComponents(node)[i] == c;
      var j :| 0 <= j < |ns| && NestedOf(ns[j]) == Some(c);
    }
  }

  /** A childless node records nothing, even when it is an instance itself. */
  lemma LeafHasNoNested(node: Node)
    requires node.children == []
    ensures NestedComponents(node) == []
  {
    assert Nodes([]) == [];
  }

  // ---------------------------------------------------------------------------
  // `comparePropertyTypes` and `compareStructure`
  // ---------------------------------------------------------------------------

  /** A property whose `type` differs between the two components. */
  datatype TypeDifference = TypeDifference(property: string, buttonType: string, actionType: string)

  /** What `comparePropertyTypes` returns. */
  datatype PropertyComparison = PropertyComparison(
    buttonOnly: seq<string>, actionOnly: seq<string>, common: seq<string>, typeDifferences: seq<TypeDifference>)

  /** `!props[p]`: a flattened entry is an object, so it is truthy exactly when present. */
  function AbsentFrom(props: Dict<PropValue>): string -> bool {
    (p: string) => p !in Keys(props)
  }

  /** `props[p]` is truthy: the key is present. */
  function PresentIn(props: Dict<PropValue>): string -> bool {
    (p: string) => p in Keys(props)
  }

  /** `props[p].type`, for a key that is present. */
  function TypeAt(props: Dict<PropValue>, p: string): string {
    var v := Get(props, p);
    if v.Some? then v.value.TypeTag() else ""
  }

  /** `buttonProps[p].type !== actionProps[p].type`. */
  function TypesDiffer(button: Dict<PropValue>, action: Dict<PropValue>): string -> bool {
    (p: string) => TypeAt(button, p) != TypeAt(action, p)
  }

  /** The difference record for `p`. */
  function DifferenceAt(button: Dict<PropValue>, action: Dict<PropValue>): string -> TypeDifference {
    (p: string) => TypeDifference(p, TypeAt(button, p), TypeAt(action, p))
  }

  /** `comparePropertyTypes(buttonProps, actionProps)`. */
  function ComparePropertyTypes(button: Dict<PropValue>, action: Dict<PropValue>): PropertyComparison {
    var common := Filter(Keys(button), PresentIn(action));
    PropertyComparison(
      Filter(Keys(button), AbsentFrom(action)),
      Filter(Keys(action), AbsentFrom(button)),
      common,
      Map(Filter(common, TypesDiffer(button, action)), DifferenceAt(button, action)))
  }

  /** `buttonOnly` and `common` split the button's keys: each key lands in exactly
      one of them, by whether the action has it; `actionOnly` holds the action's keys
      the button lacks. */
  lemma ComparePartitionsKeys(button: Dict<PropValue>, action: Dict<PropValue>, k: string)
    ensures var r := ComparePropertyTypes(button, action);
            (k in r.buttonOnly <==> k in Keys(button) && k !in Keys(action)) &&
            (k in r.common <==> k in Keys(button) && k in Keys(action)) &&
            (k in r.actionOnly <==> k in Keys(action) && k !in Keys(button))
  {
    FilterMember(Keys(button), AbsentFrom(action), k);
    FilterMember(Keys(button), PresentIn(action), k);
    FilterMember(Keys(action), AbsentFrom(button), k);
  }

  /** Together `buttonOnly` and `common` are as long as the button's key list. */
  lemma ComparePartitionSizes(button: Dict<PropValue>, action: Dict<PropValue>)
    ensures var r := ComparePropertyTypes(button, action);
            |r.buttonOnly| + |r.common| == |button|
  {
    FilterComplement(Keys(button), AbsentFrom(action), PresentIn(action));
  }

  /** Every type difference is a common key whose two types differ, with those
      types. */
  lemma TypeDifferencesSound(button: Dict<PropValue>, action: Dict<PropValue>, i: nat)
    requires i < |ComparePropertyTypes(button, action).typeDifferences|
    ensures var r := ComparePropertyTypes(button, action);
            var d := r.typeDifferences[i];
            d.property in r.common && d.buttonType == TypeAt(button, d.property) &&
            d.actionType == TypeAt(action, d.property) && d.buttonType != d.actionType
  {
    var common := ComparePropertyTypes(button, action).common;
    var differing := Filter(common, TypesDiffer(button, action));
    FilterMember(common, TypesDiffer(button, action), differing[i]);
  }

  /** Every common key whose two types differ is reported, with those types. */
  lemma TypeDifferencesComplete(button: Dict<PropValue>, action: Dict<PropValue>, p: string)
    requires p in ComparePropertyTypes(button, action).common && TypeAt(button, p) != TypeAt(action, p)
    ensures TypeDifference(p, TypeAt(button, p), TypeAt(action, p)) in ComparePropertyTypes(button, action).typeDifferences
  {
    var common := ComparePropertyTypes(button, action).common;
    var differing := Filter(common, TypesDiffer(button, action));
    FilterMember(common, TypesDiffer(button, action), p);
    var j :| 0 <= j < |differing| && differing[j] == p;
    assert ComparePropertyTypes(button, action).typeDifferences[j] == DifferenceAt(button, action)(p);
  }

  /** The structure fields of an analysis: `analysis.structure`. */
  datatype Layout = Layout(hasNestedComponents: bool, usesAutoLayout: bool, childrenCount: nat)

  /** An analysis of one component, as `compareStructure` reads it. */
  datatype ComponentAnalysis = ComponentAnalysis(
    key: string, name: string, ntype: string, properties: Dict<PropValue>,
    variants: seq<Variant>, nestedComponents: seq<NestedComponent>, structure: Layout)

  /** What `compareStructure` returns. */
  datatype StructureComparison = StructureComparison(
    hasNestedComponents: bool, usesAutoLayout: bool, childrenCount: nat,
    buttonOnly: seq<string>, actionOnly: seq<string>, common: seq<string>)

  function NameOf(c: NestedComponent): string {
    c.name
  }

  /** `!names.includes(n)`. */
  function NotAmong(names: seq<string>): string -> bool {
    (n: string) => n !in names
  }

  /** `names.includes(n)`. */
  function Among(names: seq<string>): string -> bool {
    (n: string) => n in names
  }

  /** `Math.abs(a - b)`. */
  function Distance(a: nat, b: nat): nat {
    if a >= b then a - b else b - a
  }

  /** `compareStructure(button, action)`. */
  function CompareStructure(button: ComponentAnalysis, action: ComponentAnalysis): StructureComparison {
    var buttonNested := Map(button.nestedComponents, NameOf);
    var actionNested := Map(action.nestedComponents, NameOf);
    StructureComparison(
      button.structure.hasNestedComponents != action.structure.hasNestedComponents,
      button.structure.usesAutoLayout != action.structure.usesAutoLayout,
      Distance(button.structure.childrenCount, action.structure.childrenCount),
      Filter(buttonNested, NotAmong(actionNested)),
      Filter(actionNested, NotAmong(buttonNested)),
      Filter(buttonNested, Among(actionNested)))
  }

  /** Swapping the two analyses flags the same differences, measures the same child
      count difference, swaps the two one-sided name lists and keeps the common
      names. */
  lemma CompareStructureSymmetric(a: ComponentAnalysis, b: ComponentAnalysis)
    ensures var ab := CompareStructure(a, b);
            var ba := CompareStructure(b, a);
            ab.hasNestedComponents == ba.hasNestedComponents &&
            ab.usesAutoLayout == ba.usesAutoLayout &&
            ab.childrenCount == ba.childrenCount &&
            ab.buttonOnly == ba.actionOnly && ab.actionOnly == ba.buttonOnly &&
            (forall n :: n in ab.common <==> n in ba.common)
  {
    var an := Map(a.nestedComponents, NameOf);
    var bn := Map(b.nestedComponents, NameOf);
    forall n
      ensures n in Filter(an, Among(bn)) <==> n in Filter(bn, Among(an))
    {
      FilterMember(an, Among(bn), n);
      FilterMember(bn, Among(an), n);
    }
  }

  /** The structure flags report a difference exactly when the two values differ,
      and the child count difference is zero exactly when the counts agree. */
  lemma CompareStructureFlags(a: ComponentAnalysis, b: ComponentAnalysis)
    ensures var r := CompareStructure(a, b);
            (r.hasNestedComponents <==> a.structure.hasNestedComponents != b.structure.hasNestedComponents) &&
            (r.usesAutoLayout <==> a.structure.usesAutoLayout != b.structure.usesAutoLayout) &&
            (r.childrenCount == 0 <==> a.structure.childrenCount == b.structure.childrenCount) &&
            (a.structure.childrenCount + r.childrenCount == b.structure.childrenCount ||
             b.structure.childrenCount + r.childrenCount == a.structure.childrenCount)
  {
  }

  /** An analysis compared with itself shows no difference: no flag, no count, no
      one-sided name, and every nested name in common. */
  lemma CompareStructureWithItself(a: ComponentAnalysis)
    ensures var r := CompareStructure(a, a);
            !r.hasNestedComponents && !r.usesAutoLayout && r.childrenCount == 0 &&
            r.buttonOnly == [] && r.actionOnly == [] && r.common == Map(a.nestedComponents, NameOf)
  {
    var names := Map(a.nestedComponents, NameOf);
    FilterAll(names, NotAmong(names));
    FilterAll(names, Among(names));
  }
}
