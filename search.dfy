/** The plugin's message handler: `ready` is answered with the selection size and
    page name, `search` groups the instances of deprecated registry components found
    in the chosen scope, `cancel` closes the plugin, and an exception in a handler is
    reported to the interface as an `error` message. */
module Search {
  import opened Wrappers
  import opened Seqs
  import opened Dicts
  import opened Js
  import opened RegistryTypes
  import opened FigmaNodes

  /** A value a handler throws: an `Error` with its message, or anything else. */
  datatype Thrown = ErrorObject(message: string) | OtherValue

  /** `error instanceof Error ? error.message : 'An unknown error occurred'`. */
  function ErrorText(t: Thrown): (r: string)
    ensures t.ErrorObject? ==> r == t.message
  {
    if t.ErrorObject? then t.message else "An unknown error occurred"
  }

  /** What the handler reads from the host: the current page, the document root, the
      current selection (each node with its parent's name), and the exception a
      `findAll` call raises, if it raises one. */
  datatype Host = Host(currentPage: Node, root: Node, selection: seq<Located>, findAllThrows: Option<Thrown>)

  /** A message from the interface: `{ type, data }`. */
  datatype Message = Message(mtype: JsValue, data: JsValue)

  datatype InstanceRef = InstanceRef(nodeId: string, pageName: string)

  /** One group of the search result. */
  datatype SearchResult = SearchResult(
    key: string,
    name: string,
    deprecatedDate: string,
    instanceCount: nat,
    instances: seq<InstanceRef>)

  datatype Outgoing =
    | Init(selectionCount: nat, currentPage: string)
    | SearchComplete(components: seq<SearchResult>)
    | Error(message: string)

  /** What handling a message does: post one message, close the plugin, or only log. */
  datatype Effect = Post(message: Outgoing) | ClosePlugin | Ignored

  const Ready := Str("ready")
  const SearchType := Str("search")
  const Cancel := Str("cancel")

  /** `msg.data?.scope || 'selection'`. */
  function ScopeOf(data: JsValue): (r: JsValue)
    ensures Truthy(r)
    ensures !data.Object? ==> r == Str("selection")
  {
    var scope := Field(data, "scope");
    if Truthy(scope) then scope else Str("selection")
  }

  predicate IsSceneNode(n: Node) {
    n.ntype != "PAGE"
  }

  /** The nodes a scope covers: the selected nodes themselves, every node of the
      page, or every non-page node of the document; any other scope covers none. */
  function ScopeNodes(scope: JsValue, host: Host): Result<seq<Located>, Thrown> {
    if scope == Str("selection") then Success(host.selection)
    else if scope == Str("page") then
      if host.findAllThrows.Some? then Failure(host.findAllThrows.value)
      else Success(FindAll(host.currentPage, IsSceneNode))
    else if scope == Str("file") then
      if host.findAllThrows.Some? then Failure(host.findAllThrows.value)
      else Success(FindAll(host.root, IsSceneNode))
    else Success([])
  }

  /** `node.parent && 'name' in node.parent ? node.parent.name : figma.currentPage.name`. */
  function PageNameOf(l: Located, currentPage: string): string {
    if l.parentName.Some? then l.parentName.value else currentPage
  }

  /** The record of `l` when it is an instance of the component with key `key`. */
  function InstanceOf(key: string, currentPage: string): Located -> Option<InstanceRef> {
    (l: Located) =>
      if l.node.ntype == "INSTANCE" && l.node.mainComponentKey == Some(key)
      then Some(InstanceRef(l.node.id, PageNameOf(l, currentPage)))
      else None
  }

  /** The group of `c`, when at least one of `nodes` is an instance of it. */
  function GroupFor(nodes: seq<Located>, currentPage: string): ComponentMetadata -> Option<SearchResult> {
    (c: ComponentMetadata) =>
      var instances := Collect(nodes, InstanceOf(c.key, currentPage));
      if |instances| > 0 then Some(SearchResult(c.key, c.name, c.lastModified, |instances|, instances)) else None
  }

  /** The deprecated components of the registry, in registry order. */
  function DeprecatedOf(components: Dict<ComponentMetadata>): seq<ComponentMetadata> {
    Filter(Values(components), IsDeprecated)
  }

  /** The groups the search reports for `nodes`. */
  function SearchResults(components: Dict<ComponentMetadata>, nodes: seq<Located>, currentPage: string): seq<SearchResult> {
    Collect(DeprecatedOf(components), GroupFor(nodes, currentPage))
  }

  /** The search loop over the deprecated components and, for each, over the nodes. */
  method SearchInstances(components: Dict<ComponentMetadata>, nodes: seq<Located>, currentPage: string)
    returns (results: seq<SearchResult>)
    ensures results == SearchResults(components, nodes, currentPage)
  {
    var deprecatedComponents := Filter(Values(components), IsDeprecated);
    results := [];
    for i := 0 to |deprecatedComponents|
      invariant results == Collect(deprecatedComponents[..i], GroupFor(nodes, currentPage))
    {
      var component := deprecatedComponents[i];
      var instances := InstancesOf(component.key, nodes, currentPage);
      CollectStep(deprecatedComponents, i, GroupFor(nodes, currentPage));
      if |instances| > 0 {
        results := results + [SearchResult(component.key, component.name, component.lastModified, |instances|, instances)];
      }
    }
    assert deprecatedComponents[..|deprecatedComponents|] == deprecatedComponents;
  }

  /** The inner loop: the instances of the component with key `key` among `nodes`. */
  method InstancesOf(key: string, nodes: seq<Located>, currentPage: string) returns (instances: seq<InstanceRef>)
    ensures instances == Collect(nodes, InstanceOf(key, currentPage))
  {
    instances := [];
    for j := 0 to |nodes|
      invariant instances == Collect(nodes[..j], InstanceOf(key, currentPage))
    {
      var node := nodes[j];
      CollectStep(nodes, j, InstanceOf(key, currentPage));
      if node.node.ntype == "INSTANCE" && node.node.mainComponentKey == Some(key) {
        var pageName := if node.parentName.Some? then node.parentName.value else currentPage;
        instances := instances + [InstanceRef(node.node.id, pageName)];
      }
    }
    assert nodes[..|nodes|] == nodes;
  }

  /** `figma.ui.onmessage`. */
  method HandleMessage(msg: Message, host: Host, components: Dict<ComponentMetadata>) returns (effect: Effect)
    ensures msg.mtype == Ready ==> effect == Post(Init(|host.selection|, host.currentPage.name))
    ensures msg.mtype == SearchType ==>
              match ScopeNodes(ScopeOf(msg.data), host)
              case Failure(t) => effect == Post(Error(ErrorText(t)))
              case Success(nodes) => effect == Post(SearchComplete(SearchResults(components, nodes, host.currentPage.name)))
    ensures msg.mtype == Cancel ==> effect == ClosePlugin
    ensures msg.mtype !in {Ready, SearchType, Cancel} ==> effect == Ignored
  {
    if msg.mtype == Ready {
      return Post(Init(|host.selection|, host.currentPage.name));
    } else if msg.mtype == SearchType {
      var scope := Field(msg.data, "scope");
      if !Truthy(scope) {
        scope := Str("selection");
      }
      var nodes: seq<Located> := [];
      if scope == Str("selection") {
        nodes := host.selection;
      } else if scope == Str("page") || scope == Str("file") {
        if host.findAllThrows.Some? {
          return Post(Error(ErrorText(host.findAllThrows.value)));
        }
        nodes := if scope == Str("page") then FindAll(host.currentPage, IsSceneNode) else FindAll(host.root, IsSceneNode);
      }
      var results := SearchInstances(components, nodes, host.currentPage.name);
      return Post(SearchComplete(results));
    } else if msg.mtype == Cancel {
      return ClosePlugin;
    }
    return Ignored;
  }

  /** Every group belongs to a deprecated registry component, carries its key, name
      and last-modified date, and counts at least one instance. */
  lemma GroupsAreDeprecated(components: Dict<ComponentMetadata>, nodes: seq<Located>, currentPage: string, i: nat)
    requires i < |SearchResults(components, nodes, currentPage)|
    ensures var r := SearchResults(components, nodes, currentPage)[i];
            exists c :: c in Values(components) && IsDeprecated(c) &&
              r.key == c.key && r.name == c.name && r.deprecatedDate == c.lastModified &&
              r.instanceCount == |r.instances| >= 1 &&
              r.instances == Collect(nodes, InstanceOf(c.key, currentPage))
  {
    var ds := DeprecatedOf(components);
    CollectMeaning(ds, GroupFor(nodes, currentPage));
    var r := SearchResults(components, nodes, currentPage)[i];
    var j :| 0 <= j < |ds| && GroupFor(nodes, currentPage)(ds[j]) == Some(r);
    var c := ds[j];
    GroupMeaning(nodes, currentPage, c);
    FilterSubMultiset(Values(components), IsDeprecated);
    assert c in multiset(ds);
    assert c in Values(components) && IsDeprecated(c);
  }

  /** A component's group, when it has one, is its instances with their count. */
  lemma GroupMeaning(nodes: seq<Located>, currentPage: string, c: ComponentMetadata)
    ensures GroupFor(nodes, currentPage)(c).Some? <==> Collect(nodes, InstanceOf(c.key, currentPage)) != []
    ensures GroupFor(nodes, currentPage)(c).Some? ==>
              var r := GroupFor(nodes, currentPage)(c).value;
              r.key == c.key && r.name == c.name && r.deprecatedDate == c.lastModified &&
              r.instanceCount == |r.instances| >= 1 &&
              r.instances == Collect(nodes, InstanceOf(c.key, currentPage))
  {
  }

  /** Each recorded instance is an `INSTANCE` node whose main component has the
      group's key; an instance without a main component is never recorded. */
  lemma InstancesMatchKey(key: string, nodes: seq<Located>, currentPage: string, k: nat)
    requires k < |Collect(nodes, InstanceOf(key, currentPage))|
    ensures var ref := Collect(nodes, InstanceOf(key, currentPage))[k];
            exists j :: 0 <= j < |nodes| && nodes[j].node.ntype == "INSTANCE" &&
              nodes[j].node.mainComponentKey == Some(key) &&
              ref == InstanceRef(nodes[j].node.id, PageNameOf(nodes[j], currentPage))
  {
    CollectMeaning(nodes, InstanceOf(key, currentPage));
  }

  /** Every instance of a deprecated component among the nodes is reported in that
      component's group. */
  lemma InstancesAreFound(components: Dict<ComponentMetadata>, nodes: seq<Located>, currentPage: string, c: ComponentMetadata, j: nat)
    requires c in Values(components) && IsDeprecated(c)
    requires j < |nodes| && nodes[j].node.ntype == "INSTANCE" && nodes[j].node.mainComponentKey == Some(c.key)
    ensures exists r :: r in SearchResults(components, nodes, currentPage) && r.key == c.key &&
              InstanceRef(nodes[j].node.id, PageNameOf(nodes[j], currentPage)) in r.instances
  {
    var f := InstanceOf(c.key, currentPage);
    CollectMeaning(nodes, f);
    assert f(nodes[j]).Some?;
    var ds := DeprecatedOf(components);
    FilterKeeps(Values(components), IsDeprecated);
    var k :| 0 <= k < |Values(components)| && Values(components)[k] == c;
    var jj :| 0 <= jj < |ds| && ds[jj] == c;
    CollectMeaning(ds, GroupFor(nodes, currentPage));
    assert GroupFor(nodes, currentPage)(ds[jj]).Some?;
  }

  /** Without a scope the search covers the selection, and only the selected nodes
      themselves. */
  lemma DefaultScopeIsSelection(data: JsValue, host: Host)
    requires !Truthy(Field(data, "scope"))
    ensures ScopeNodes(ScopeOf(data), host) == Success(host.selection)
  {
  }

  /** A scope other than `selection`, `page` and `file` finds nothing. */
  lemma UnknownScopeFindsNothing(components: Dict<ComponentMetadata>, data: JsValue, host: Host)
    requires ScopeOf(data) !in {Str("selection"), Str("page"), Str("file")}
    ensures ScopeNodes(ScopeOf(data), host) == Success([])
    ensures SearchResults(components, [], host.currentPage.name) == []
  {
    NoNodesNoGroups(components, host.currentPage.name);
  }

  lemma NoNodesNoGroups(components: Dict<ComponentMetadata>, currentPage: string)
    ensures SearchResults(components, [], currentPage) == []
  {
    var ds := DeprecatedOf(components);
    var g := GroupFor([], currentPage);
    forall j | 0 <= j < |ds|
      ensures g(ds[j]).None?
    {
      assert Collect([], InstanceOf(ds[j].key, currentPage)) == [];
    }
    CollectNone(ds, g);
  }

  /** Groups come in registry order. */
  lemma GroupsInRegistryOrder(components: Dict<ComponentMetadata>, nodes: seq<Located>, currentPage: string, i: nat, k: nat)
    requires i < k < |SearchResults(components, nodes, currentPage)|
    ensures var rs := SearchResults(components, nodes, currentPage);
            exists a, b :: 0 <= a < b < |DeprecatedOf(components)| &&
              rs[i].key == DeprecatedOf(components)[a].key && rs[k].key == DeprecatedOf(components)[b].key
  {
    var ds := DeprecatedOf(components);
    var g := GroupFor(nodes, currentPage);
    CollectOrder(ds, g, i, k);
    var rs := SearchResults(components, nodes, currentPage);
    var a, b :| 0 <= a < b < |ds| && g(ds[a]) == Some(rs[i]) && g(ds[b]) == Some(rs[k]);
    GroupMeaning(nodes, currentPage, ds[a]);
    GroupMeaning(nodes, currentPage, ds[b]);
  }

  /** The registry the plugin bundles: the deprecated Button and the current Action,
      created at `now`. */
  function RegistryData(now: string): Dict<ComponentMetadata> {
    var entries := [
      ("button-deprecated", ComponentMetadata("button-deprecated", ".\U{1F6D1} Button (Deprecated)", "34:246653", None,
                                              ComponentSet, [], None, Some(true), None, now, "file-key")),
      ("action-current", ComponentMetadata("action-current", "Action", "action-key", None,
                                           Component, [], None, Some(false), None, now, "file-key"))];
    assert |entries[0].0| == 17 && |entries[1].0| == 14;
    entries
  }

  /** An instance of the bundled Button in the selection, under a frame, is reported
      as one group of one instance on that frame. */
  lemma BundledButtonIsFound(now: string, instance: Node)
    requires instance.ntype == "INSTANCE" && instance.mainComponentKey == Some("34:246653")
    ensures SearchResults(RegistryData(now), [Located(instance, Some("Frame"))], "Page 1") ==
              [SearchResult("34:246653", ".\U{1F6D1} Button (Deprecated)", now, 1, [InstanceRef(instance.id, "Frame")])]
  {
    var components := RegistryData(now);
    var nodes := [Located(instance, Some("Frame"))];
    var button := components[0].1;
    assert Values(components) == [button, components[1].1];
    assert [button, components[1].1][..1] == [button];
    assert [button][..0] == [];
    assert Filter([], IsDeprecated) == [];
    assert Filter([button], IsDeprecated) == [button];
    assert !IsDeprecated(components[1].1);
    assert DeprecatedOf(components) == [button];
    var f := InstanceOf(button.key, "Page 1");
    CollectSnoc([], nodes[0], f);
    assert [] + [nodes[0]] == nodes;
    assert Collect(nodes, f) == [InstanceRef(instance.id, "Frame")];
    CollectSnoc([], button, GroupFor(nodes, "Page 1"));
    assert [] + [button] == [button];
  }
}
