/** The lookup of the Button and Action component keys: every component and
    component set of the document whose lower-cased name passes the name test is
    reported with its key, id and, for a set, its number of variants. */
module ComponentKeys {
  import opened Wrappers
  import opened Seqs
  import opened Strings
  import opened FigmaNodes

  /** The name test, on the lower-cased name. */
  predicate Matches(name: string) {
    var n := ToLower(name);
    (Contains(n, "button") && Contains(n, "deprecated")) ||
    (Contains(n, "action") && !Contains(n, "card") && !Contains(n, "micro")) ||
    n == "\U{1F7E2} action" ||
    n == ".action" ||
    (Contains(n, "\U{1F6D1}") && Contains(n, "button"))
  }

  /** The name test without its two exact-name clauses. */
  predicate MatchesWithoutExactNames(name: string) {
    var n := ToLower(name);
    (Contains(n, "button") && Contains(n, "deprecated")) ||
    (Contains(n, "action") && !Contains(n, "card") && !Contains(n, "micro")) ||
    (Contains(n, "\U{1F6D1}") && Contains(n, "button"))
  }

  /** The exact names `🟢 action` and `.action` already pass the `action` clause, so
      the two exact-name clauses never decide the test. */
  lemma ExactNamesAreRedundant(name: string)
    ensures Matches(name) <==> MatchesWithoutExactNames(name)
  {
    var n := ToLower(name);
    if n == "\U{1F7E2} action" {
      assert OccursAt(n, "action", 2);
      MissingCharNotContained(n, "card", 'r');
      MissingCharNotContained(n, "micro", 'm');
    }
    if n == ".action" {
      assert OccursAt(n, "action", 1);
      MissingCharNotContained(n, "card", 'r');
      MissingCharNotContained(n, "micro", 'm');
    }
  }

  /** The test ignores the case of ASCII letters. */
  lemma MatchIgnoresCase(a: string, b: string)
    requires SameUpToCase(a, b)
    ensures Matches(a) <==> Matches(b)
  {
    SameUpToCaseLower(a, b);
  }

  /** Lower-casing a name first does not change the test. */
  lemma MatchOfLowerCase(name: string)
    ensures Matches(ToLower(name)) <==> Matches(name)
  {
    ToLowerIdempotent(name);
  }

  /** A name with `action` but also `card` or `micro` in it fails the test unless it
      names a deprecated button or a stop-sign button. */
  lemma ActionCardsAreExcluded(name: string)
    requires Contains(ToLower(name), "action")
    requires Contains(ToLower(name), "card") || Contains(ToLower(name), "micro")
    requires !(Contains(ToLower(name), "button") && Contains(ToLower(name), "deprecated"))
    requires !(Contains(ToLower(name), "\U{1F6D1}") && Contains(ToLower(name), "button"))
    ensures !Matches(name)
  {
    ExactNamesAreRedundant(name);
  }

  /** One entry of the result. */
  datatype KeyResult = KeyResult(name: string, ntype: string, key: string, id: string, variantCount: Option<nat>)

  predicate IsComponentOrSet(n: Node) {
    n.ntype == "COMPONENT_SET" || n.ntype == "COMPONENT"
  }

  predicate NameMatches(n: Node) {
    Matches(n.name)
  }

  /** The entry for a matching node. */
  function ResultOf(n: Node): (r: KeyResult)
    ensures r.variantCount.Some? <==> n.ntype == "COMPONENT_SET"
    ensures r.variantCount.Some? ==> r.variantCount.value == |n.children|
    ensures r.name == n.name && r.ntype == n.ntype && r.key == n.key && r.id == n.id
  {
    KeyResult(n.name, n.ntype, n.key, n.id, if n.ntype == "COMPONENT_SET" then Some(|n.children|) else None)
  }

  /** The components and component sets of the document, in traversal order. */
  function Candidates(root: Node): seq<Node> {
    Nodes(FindAll(root, IsComponentOrSet))
  }

  /** What `getSpecificComponentKeys` returns. */
  function KeyResults(root: Node): seq<KeyResult> {
    Map(Filter(Candidates(root), NameMatches), ResultOf)
  }

  /** `getSpecificComponentKeys`: the loop over the components found. */
  method GetSpecificComponentKeys(root: Node) returns (results: seq<KeyResult>)
    ensures results == KeyResults(root)
  {
    var allNodes := Candidates(root);
    results := [];
    for i := 0 to |allNodes|
      invariant results == Map(Filter(allNodes[..i], NameMatches), ResultOf)
    {
      var node := allNodes[i];
      FilterStep(allNodes, i, NameMatches);
      if Matches(node.name) {
        MapConcat(Filter(allNodes[..i], NameMatches), [node], ResultOf);
        results := results + [ResultOf(node)];
      } else {
        assert Filter(allNodes[..i], NameMatches) + [] == Filter(allNodes[..i], NameMatches);
      }
    }
    assert allNodes[..|allNodes|] == allNodes;
  }

  /** There is one entry per matching component or component set, in traversal
      order, and none for any other node. */
  lemma KeyResultsMeaning(root: Node)
    ensures var ns := Candidates(root);
            var idx := FilterIndices(ns, NameMatches);
            |KeyResults(root)| == |idx| &&
            (forall j :: 0 <= j < |idx| ==> KeyResults(root)[j] == ResultOf(ns[idx[j]]) && Matches(ns[idx[j]].name)) &&
            (forall j, j' :: 0 <= j < j' < |idx| ==> idx[j] < idx[j']) &&
            (forall i :: 0 <= i < |ns| && Matches(ns[i].name) ==> i in idx)
  {
    FilterIndicesSelect(Candidates(root), NameMatches);
  }

  /** Every candidate is a component or a component set below the root. */
  lemma CandidatesAreComponents(root: Node)
    ensures forall i :: 0 <= i < |Candidates(root)| ==> IsComponentOrSet(Candidates(root)[i])
  {
  }
}
