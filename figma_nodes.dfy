/** Figma document nodes as the plugin host and the REST API present them, and the
    depth-first, pre-order walk that `findAll`, `forEach` recursion and every
    harvest over a document follow. */
module FigmaNodes {
  import opened Wrappers
  import opened Seqs
  import opened Dicts
  import opened Js

  /** An entry of `componentPropertyDefinitions`: `{ type, variantOptions?, defaultValue? }`;
      an empty `ptype` stands for a missing or empty `type`. */
  datatype PropertyDefinition = PropertyDefinition(ptype: string, variantOptions: Option<seq<string>>, defaultValue: JsValue)

  /** An entry of an instance's `componentProperties`: `{ type, value }`. */
  datatype InstanceProperty = InstanceProperty(ptype: string, value: JsValue)

  /** A node with the fields the plugin reads. Fields a node type does not carry are
      `None`, `""` or empty: `key` outside components, `mainComponentKey` outside
      instances with a main component, `children` (an absent list and an empty one
      are walked alike). */
  datatype Node = Node(
    id: string,
    ntype: string,
    name: string,
    key: string,
    mainComponentKey: Option<string>,
    componentId: string,
    properties: Option<Dict<JsValue>>,
    variantGroupProperties: Option<Dict<seq<string>>>,
    componentPropertyDefinitions: Option<Dict<PropertyDefinition>>,
    componentProperties: Option<Dict<InstanceProperty>>,
    layoutMode: string,
    children: seq<Node>)

  /** A node together with the name of its parent, if it has one. */
  datatype Located = Located(node: Node, parentName: Option<string>)

  /** The nodes of the subtrees `kids` (children of a node named `parent`), depth
      first, each before its own descendants. */
  function Walk(kids: seq<Node>, parent: string): seq<Located>
    decreases kids
  {
    if kids == [] then []
    else [Located(kids[0], Some(parent))] + Walk(kids[0].children, kids[0].name) + Walk(kids[1..], parent)
  }

  /** Every node below `n`, in pre-order; `n` itself is not included. */
  function Descendants(n: Node): seq<Located> {
    Walk(n.children, n.name)
  }

  /** `n.findAll(p)`: the descendants of `n` that satisfy `p`, in pre-order. */
  function FindAll(n: Node, p: Node -> bool): seq<Located> {
    Filter(Descendants(n), (l: Located) => p(l.node))
  }

  /** The nodes of a list of located nodes. */
  function Nodes(ls: seq<Located>): seq<Node> {
    Map(ls, (l: Located) => l.node)
  }

  /** `n` followed by all of its descendants: the order in which a recursive visit
      that handles a node before its children meets them. */
  function Preorder(n: Node): seq<Node> {
    [n] + Nodes(Descendants(n))
  }

  /** Walking a concatenation of subtree lists walks one list, then the other. */
  lemma {:induction false} WalkConcat(a: seq<Node>, b: seq<Node>, parent: string)
    ensures Walk(a + b, parent) == Walk(a, parent) + Walk(b, parent)
    decreases a
  {
    if a == [] {
      assert a + b == b;
    } else {
      assert (a + b)[0] == a[0] && (a + b)[1..] == a[1..] + b;
      WalkConcat(a[1..], b, parent);
    }
  }

  /** Walking one more child adds that child's whole subtree, in pre-order. */
  lemma WalkStep(kids: seq<Node>, i: nat, parent: string)
    requires i < |kids|
    ensures Nodes(Walk(kids[..i + 1], parent)) == Nodes(Walk(kids[..i], parent)) + Preorder(kids[i])
  {
    var k := kids[i];
    assert kids[..i + 1] == kids[..i] + [k];
    WalkConcat(kids[..i], [k], parent);
    assert [k][1..] == [];
    assert Walk([k], parent) == [Located(k, Some(parent))] + Descendants(k);
    MapConcat(Walk(kids[..i], parent), Walk([k], parent), (l: Located) => l.node);
    MapConcat([Located(k, Some(parent))], Descendants(k), (l: Located) => l.node);
  }

  /** A pre-order harvest with `f`, one child at a time: the step a loop over the
      children of a node takes. */
  lemma HarvestStep<U>(kids: seq<Node>, i: nat, parent: string, f: Node -> Option<U>)
    requires i < |kids|
    ensures Collect(Nodes(Walk(kids[..i + 1], parent)), f) ==
              Collect(Nodes(Walk(kids[..i], parent)), f) + Collect(Preorder(kids[i]), f)
  {
    WalkStep(kids, i, parent);
    CollectConcat(Nodes(Walk(kids[..i], parent)), Preorder(kids[i]), f);
  }

  /** A pre-order harvest with `f` handles the node, then its descendants. */
  lemma HarvestSplit<U>(n: Node, f: Node -> Option<U>)
    ensures Collect(Preorder(n), f) == Collect([n], f) + Collect(Nodes(Walk(n.children, n.name)), f)
  {
    CollectConcat([n], Nodes(Descendants(n)), f);
  }

  /** Every direct child is walked, right after the nodes that precede it. */
  lemma {:induction false} WalkHasChildren(kids: seq<Node>, parent: string, i: nat)
    requires i < |kids|
    ensures Located(kids[i], Some(parent)) in Walk(kids, parent)
    decreases kids
  {
    if i > 0 {
      WalkHasChildren(kids[1..], parent, i - 1);
      assert kids[1..][i - 1] == kids[i];
    }
  }

  /** The values `f` yields on the nodes of the tree under `n`, in pre-order. */
  function Harvest<U>(n: Node, f: Node -> Option<U>): seq<U> {
    Collect(Preorder(n), f)
  }

  /** The values `f` yields on the subtrees of the first `i` children of `node`. */
  function HarvestChildren<U>(node: Node, i: nat, f: Node -> Option<U>): seq<U>
    requires i <= |node.children|
  {
    if i == 0 then [] else HarvestChildren(node, i - 1, f) + Harvest(node.children[i - 1], f)
  }

  /** The children harvested so far are the pre-order walk over those children. */
  lemma {:induction false} HarvestChildrenWalk<U>(node: Node, i: nat, f: Node -> Option<U>)
    requires i <= |node.children|
    ensures HarvestChildren(node, i, f) == Collect(Nodes(Walk(node.children[..i], node.name)), f)
  {
    if i == 0 {
      assert node.children[..0] == [];
      assert Nodes([]) == [];
    } else {
      HarvestChildrenWalk(node, i - 1, f);
      HarvestChildrenNext(node, i, f);
    }
  }

  lemma HarvestChildrenNext<U>(node: Node, i: nat, f: Node -> Option<U>)
    requires 0 < i <= |node.children|
    requires HarvestChildren(node, i - 1, f) == Collect(Nodes(Walk(node.children[..i - 1], node.name)), f)
    ensures HarvestChildren(node, i, f) == Collect(Nodes(Walk(node.children[..i], node.name)), f)
  {
    HarvestStep(node.children, i - 1, node.name, f);
  }

  /** A tree's harvest is what its root yields, then its children's harvests in order:
      the order of a recursive visit that handles a node before its children. */
  lemma HarvestByChildren<U>(node: Node, f: Node -> Option<U>)
    ensures Harvest(node, f) == (if f(node).Some? then [f(node).value] else []) + HarvestChildren(node, |node.children|, f)
  {
    HarvestSplit(node, f);
    HarvestOfOne(node, f);
    HarvestChildrenAll(node, f);
  }

  lemma HarvestOfOne<U>(n: Node, f: Node -> Option<U>)
    ensures Collect([n], f) == if f(n).Some? then [f(n).value] else []
  {
    CollectSnoc([], n, f);
    assert [] + [n] == [n];
  }

  lemma HarvestChildrenAll<U>(node: Node, f: Node -> Option<U>)
    ensures HarvestChildren(node, |node.children|, f) == Collect(Nodes(Walk(node.children, node.name)), f)
  {
    HarvestChildrenWalk(node, |node.children|, f);
    assert node.children[..|node.children|] == node.children;
  }

  /** A recursive visit that has handled its node, with `head` as the result, and
      then the first `i` children: `acc` holds everything those children yield. */
  ghost predicate VisitedChildren<U>(node: Node, f: Node -> Option<U>, head: seq<U>, i: nat, acc: seq<U>)
    requires i <= |node.children|
  {
    acc == head + HarvestChildren(node, i, f)
  }

  /** Visiting the next child appends that child's harvest. */
  lemma VisitChildStep<U>(node: Node, f: Node -> Option<U>, head: seq<U>, i: nat, before: seq<U>, after: seq<U>)
    requires i < |node.children| && VisitedChildren(node, f, head, i, before)
    requires after == before + Harvest(node.children[i], f)
    ensures VisitedChildren(node, f, head, i + 1, after)
  {
    AppendAssoc(head, HarvestChildren(node, i, f), Harvest(node.children[i], f));
  }

  /** A visit that starts from `base`, appends what the node yields and then visits
      every child ends with `base` followed by the node's whole harvest. */
  lemma VisitDone<U>(node: Node, f: Node -> Option<U>, base: seq<U>, head: seq<U>, after: seq<U>)
    requires head == base + (if f(node).Some? then [f(node).value] else [])
    requires VisitedChildren(node, f, head, |node.children|, after)
    ensures after == base + Harvest(node, f)
  {
    HarvestByChildren(node, f);
    AppendAssoc(base, if f(node).Some? then [f(node).value] else [], HarvestChildren(node, |node.children|, f));
  }
}
