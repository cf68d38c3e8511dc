/** Which nodes go into the repository when: the intro nodes `loadIntroNodes`
    adds first, the rest `onIntroReady` adds later, and the nodes registered
    with the decision plugin. */
module NodeSets {
  import opened JsArrays
  import opened HeadNodes

  function ElemsOf(xs: seq<string>): set<string>
  {
    set i | 0 <= i < |xs| :: xs[i]
  }

  /** The intro-map key the module's head contributes, for a string head. */
  function HeadKey(head: HeadVal): set<string>
  {
    if head.Str? then {head.s} else {}
  }

  /** The keys of `introNodesMap` once `loadIntroNodes` has filled it from the
      context's intro nodes (`None` when they are falsy), the module's `head` and
      the `headnodeid` query parameter. */
  function IntroKeys(ctxIntroNodes: Option<seq<string>>, head: HeadVal, qp: Option<string>): set<string>
  {
    var listed := if ctxIntroNodes.Some? then ElemsOf(ctxIntroNodes.value) else {};
    listed + HeadKey(head) + (if qp.Some? && qp.value != "" then {qp.value} else {})
  }

  /** Every listed intro node, a string head and a truthy query parameter are keys. */
  lemma IntroKeysContain(ctxIntroNodes: Option<seq<string>>, head: HeadVal, qp: Option<string>)
    ensures ctxIntroNodes.Some? ==>
              forall i :: 0 <= i < |ctxIntroNodes.value| ==> ctxIntroNodes.value[i] in IntroKeys(ctxIntroNodes, head, qp)
    ensures head.Str? ==> head.s in IntroKeys(ctxIntroNodes, head, qp)
    ensures qp.Some? && qp.value != "" ==> qp.value in IntroKeys(ctxIntroNodes, head, qp)
  {
  }

  /** The intro-map test on a node's id, and its negation, as values for `Filter`. */
  function IdIn(keys: set<string>): Node -> bool
  {
    (n: Node) => n.id in keys
  }

  function IdNotIn(keys: set<string>): Node -> bool
  {
    (n: Node) => n.id !in keys
  }

  /** The nodes `loadIntroNodes` adds to the repository. */
  function Select(nodes: seq<Node>, keys: set<string>): seq<Node>
  {
    Filter(nodes, IdIn(keys))
  }

  /** The nodes `onIntroReady` adds to the repository. */
  function Reject(nodes: seq<Node>, keys: set<string>): seq<Node>
  {
    Filter(nodes, IdNotIn(keys))
  }

  /** The two additions split the node list: each node goes in exactly once, the
      first takes the nodes whose id is a key, and no id is in both. */
  lemma IntroRestPartition(nodes: seq<Node>, keys: set<string>)
    ensures multiset(Select(nodes, keys)) + multiset(Reject(nodes, keys)) == multiset(nodes)
    ensures forall n :: n in Select(nodes, keys) <==> n in nodes && n.id in keys
    ensures forall n :: n in Reject(nodes, keys) <==> n in nodes && n.id !in keys
    ensures forall i, j :: 0 <= i < |Select(nodes, keys)| && 0 <= j < |Reject(nodes, keys)| ==>
              Select(nodes, keys)[i].id != Reject(nodes, keys)[j].id
  {
    FilterPartition(nodes, IdIn(keys), IdNotIn(keys));
    forall n
      ensures n in Select(nodes, keys) <==> n in nodes && n.id in keys
      ensures n in Reject(nodes, keys) <==> n in nodes && n.id !in keys
    {
      FilterMember(nodes, IdIn(keys), n);
      FilterMember(nodes, IdNotIn(keys), n);
    }
  }

  function Ids(ns: seq<Node>): (ids: seq<string>)
    ensures |ids| == |ns|
  {
    seq(|ns|, k requires 0 <= k < |ns| => ns[k].id)
  }

  function HasDecision(n: Node): bool
  {
    n.hasDecision
  }

  /** The ids handed to `player.decision.add`, in node order. */
  function DecisionIds(nodes: seq<Node>): seq<string>
  {
    Ids(Filter(nodes, HasDecision))
  }

  lemma DecisionIdsSnoc(nodes: seq<Node>, n: Node)
    ensures DecisionIds(nodes + [n]) == DecisionIds(nodes) + (if n.hasDecision then [n.id] else [])
  {
    FilterSnoc(nodes, n, HasDecision);
  }

  /** Exactly the nodes carrying a decision are registered. */
  lemma {:induction false} DecisionIdsExact(nodes: seq<Node>)
    ensures |DecisionIds(nodes)| <= |nodes|
    ensures forall x :: x in DecisionIds(nodes) <==>
              exists i :: 0 <= i < |nodes| && nodes[i].hasDecision && nodes[i].id == x
  {
    if nodes != [] {
      var init, n := nodes[..|nodes| - 1], nodes[|nodes| - 1];
      assert nodes == init + [n];
      DecisionIdsExact(init);
      DecisionIdsSnoc(init, n);
      forall x | exists i :: 0 <= i < |nodes| && nodes[i].hasDecision && nodes[i].id == x
        ensures x in DecisionIds(nodes)
      {
        var i :| 0 <= i < |nodes| && nodes[i].hasDecision && nodes[i].id == x;
        if i < |init| {
          assert init[i] == nodes[i];
        }
      }
    }
  }
}
